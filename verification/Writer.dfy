/** Requests on the wire: redis/request_writer.go against the reader, and the packet that the writer of
    redisconn/conn.go builds from them. */
module Writer {
  import opened Errors
  import opened Decimal
  import opened Resp
  import CommandSet

  type Int64 = i: int | IsInt64(i)
  type Uint64 = u: nat | IsUint64(u)

  /** The argument types the switch tells apart; a float is given by its formatted text. */
  datatype Arg =
    | Text(s: Bytes)
    | Signed(i: Int64)
    | Unsigned(u: Uint64)
    | Flag(on: bool)
    | Float(formatted: Bytes)
    | Nil
    | Unsupported

  datatype Request = Request(cmd: Bytes, args: seq<Arg>)

  /** ArgToString. */
  function ArgToString(a: Arg): Option<Bytes> {
    match a
    case Text(s) => Some(s)
    case Signed(i) => Some(IntText(i))
    case Unsigned(u) => Some(Digits(u))
    case Flag(on) => Some(if on then [49] else [48])
    case Float(formatted) => Some(formatted)
    case Nil => Some([])
    case Unsupported => None
  }

  /** Lengths are Go ints: what any value held in memory satisfies. */
  predicate ArgFits(a: Arg) {
    (a.Text? ==> IsInt64(|a.s|)) && (a.Float? ==> IsInt64(|a.formatted|))
  }

  predicate Fits(req: Request) {
    IsInt64(|req.cmd|) && IsInt64(|req.args| + 2) && forall a :: a in req.args ==> ArgFits(a)
  }

  /** The command cut at its first space, if it has one. */
  function CommandParts(cmd: Bytes): (parts: seq<Bytes>)
    ensures 1 <= |parts| <= 2 && NoSpace(parts[0])
    ensures cmd == if |parts| == 1 then parts[0] else parts[0] + [SPACE] + parts[1]
  {
    if cmd == [] then [[]]
    else if cmd[0] == SPACE then [[], cmd[1..]]
    else
      var parts := CommandParts(cmd[1..]);
      parts[0 := [cmd[0]] + parts[0]]
  }

  /** The text of every argument, as far as they are supported. */
  function ArgTexts(args: seq<Arg>): (texts: seq<Bytes>)
    ensures |texts| == |args|
  {
    seq(|args|, i requires 0 <= i < |args| => var t := ArgToString(args[i]); if t.Some? then t.value else [])
  }

  function Blobs(texts: seq<Bytes>): (vs: seq<Value>)
    ensures |vs| == |texts|
  {
    seq(|texts|, i requires 0 <= i < |texts| => Blob(texts[i]))
  }

  predicate Supported(args: seq<Arg>) {
    forall a :: a in args ==> !a.Unsupported?
  }

  /** The array of bulk strings that a request is on the wire. */
  function Wire(req: Request): Value {
    List(Blobs(CommandParts(req.cmd) + ArgTexts(req.args)))
  }

  // --------------------------------------------------------------- appenders

  method AppendHead(b: Bytes, t: Byte, i: nat) returns (r: Bytes)
    requires IsInt64(i)
    ensures r == b + Header(t, Digits(i))
  {
    r := AppendUint(b + [t], i);
    r := r + [CR, LF];
    assert b + [t] + Digits(i) + [CR, LF] == b + Header(t, Digits(i));
  }

  method AppendBulk(b: Bytes, s: Bytes) returns (r: Bytes)
    requires IsInt64(|s|)
    ensures r == b + (Header(36, Digits(|s|)) + s)
  {
    r := AppendHead(b, 36, |s|);
    r := r + s;
  }

  lemma ShortLengths(i: int)
    requires IsInt64(i) || IsUint64(i)
    ensures 0 < |IntText(i)| <= 20
    ensures |IntText(i)| < 10 <==> -99999999 <= i <= 999999999
  {
    var u := if i < 0 then -i else i;
    DigitsAreDigits(u);
    PowersOfTen();
    DigitsLength(u, 8);
    DigitsLength(u, 9);
    DigitsLength(u, 20);
    NineteenDigits();
    DigitsLength(u, 19);
  }

  lemma NineteenDigits()
    ensures Pow10(19) == 10_000_000_000_000_000_000
  {
    PowersOfTen();
    assert Pow10(20) == 10 * Pow10(19);
  }

  lemma LengthDigits(n: nat)
    requires n < 100
    ensures Digits(n) == if n < 10 then [ZERO + n] else [ZERO + n / 10, ZERO + n % 10]
  {}

  lemma NarrowPatch(front: Bytes, payload: Bytes, x: Byte)
    ensures (front + [36, 48, CR, LF] + payload)[|front| + 1 := x] == front + ([36, x, CR, LF] + payload)
  {}

  lemma WidePatch(front: Bytes, payload: Bytes, x: Byte, y: Byte)
    ensures (front + [36, 48, 48, CR, LF] + payload)[|front| + 1 := x][|front| + 2 := y]
         == front + ([36, x, y, CR, LF] + payload)
  {}

  lemma ShortHeader(n: nat)
    requires n < 100
    ensures Header(36, Digits(n)) == if n < 10 then [36, 48 + n, CR, LF] else [36, 48 + n / 10, 48 + n % 10, CR, LF]
  {
    LengthDigits(n);
  }

  /** The header as it is reserved, one digit wide or two. */
  function Reserved(wide: bool): Bytes {
    if wide then [36, 48, 48, CR, LF] else [36, 48, CR, LF]
  }

  lemma NarrowFilled(b: Bytes, front: Bytes, payload: Bytes, l: nat)
    requires 0 < |payload| < 10 && b == front + Reserved(false) + payload && l == |b| - |payload|
    ensures b[l - 3 := |payload| + 48] == front + (Header(36, Digits(|payload|)) + payload)
  {
    NarrowPatch(front, payload, |payload| + 48);
    ShortHeader(|payload|);
  }

  lemma WideFilled(b: Bytes, front: Bytes, payload: Bytes, l: nat, d: nat)
    requires 10 <= |payload| < 100 && b == front + Reserved(true) + payload && l == |b| - |payload|
             && d == |payload| / 10
    ensures b[l - 4 := d + 48][l - 3 := |payload| - d * 10 + 48] == front + (Header(36, Digits(|payload|)) + payload)
  {
    var x, y := d + 48, |payload| - d * 10 + 48;
    WidePatch(front, payload, x, y);
    ShortHeader(|payload|);
    assert Header(36, Digits(|payload|)) == [36, x, y, CR, LF];
    assert l - 4 == |front| + 1 && l - 3 == |front| + 2;
  }

  /** The header written before its payload: one digit or two, filled in afterwards. */
  method PatchHeader(b: Bytes, l: nat, ghost front: Bytes, ghost payload: Bytes) returns (r: Bytes)
    requires 0 < |payload| < 100 && b == front + Reserved(|payload| >= 10) + payload
    requires l == |b| - |payload|
    ensures r == front + (Header(36, Digits(|payload|)) + payload)
  {
    var li := |b| - l;
    if li < 10 {
      NarrowFilled(b, front, payload, l);
      r := b[l - 3 := li + 48];
    } else {
      var d := li / 10;
      WideFilled(b, front, payload, l, d);
      r := b[l - 4 := d + 48];
      r := r[l - 3 := li - d * 10 + 48];
    }
  }

  method AppendBulkInt(b: Bytes, i: Int64) returns (r: Bytes)
    ensures r == b + (Header(36, Digits(|IntText(i)|)) + IntText(i))
  {
    var wide := !(-99999999 <= i <= 999999999);
    r := b + Reserved(wide);
    var l := |r|;
    r := AppendInt(r, i);
    ShortLengths(i);
    r := PatchHeader(r, l, b, IntText(i));
  }

  method AppendBulkUint(b: Bytes, u: Uint64) returns (r: Bytes)
    ensures r == b + (Header(36, Digits(|Digits(u)|)) + Digits(u))
  {
    var wide := !(u <= 999999999);
    r := b + Reserved(wide);
    var l := |r|;
    r := AppendUint(r, u);
    ShortLengths(u);
    r := PatchHeader(r, l, b, IntText(u));
  }

  /** The switch over the argument's type. */
  method AppendArg(b: Bytes, a: Arg) returns (r: Bytes)
    requires ArgFits(a) && !a.Unsupported?
    ensures r + CRLF == b + Encode(Blob(ArgToString(a).value))
  {
    ghost var s := ArgToString(a).value;
    match a {
      case Text(s) => r := AppendBulk(b, s);
      case Signed(i) => r := AppendBulkInt(b, i);
      case Unsigned(u) => r := AppendBulkUint(b, u);
      case Flag(on) => r := b + if on then [36, 49, CR, LF, 49] else [36, 49, CR, LF, 48];
      case Float(formatted) => r := AppendBulk(b, formatted);
      case Nil => r := b + [36, 48, CR, LF];
    }
    LengthDigits(0);
    LengthDigits(1);
    assert r == b + (Header(36, Digits(|s|)) + s);
    BlobEnds(b, Header(36, Digits(|s|)), s);
  }

  lemma BlobEnds(b: Bytes, head: Bytes, s: Bytes)
    ensures b + (head + s) + CRLF == b + (head + s + CRLF)
  {}

  // ----------------------------------------------------------------- request

  lemma {:induction false} EncodeAllPush(vs: seq<Value>, v: Value)
    ensures EncodeAll(vs + [v]) == EncodeAll(vs) + Encode(v)
  {
    if vs == [] {
      assert vs + [v] == [v] && [v][1..] == [];
      assert EncodeAll([v]) == Encode(v) + [];
    } else {
      assert (vs + [v])[1..] == vs[1..] + [v];
      EncodeAllPush(vs[1..], v);
    }
  }

  lemma PushBlob(front: Bytes, texts: seq<Bytes>, t: Bytes)
    ensures front + EncodeAll(Blobs(texts)) + Encode(Blob(t)) == front + EncodeAll(Blobs(texts + [t]))
  {
    EncodeAllPush(Blobs(texts), Blob(t));
    assert Blobs(texts + [t]) == Blobs(texts) + [Blob(t)];
  }

  /** The loop that looks for the first space. */
  method FindSpace(cmd: Bytes) returns (space: int)
    ensures -1 <= space < |cmd|
    ensures CommandParts(cmd) == if space == -1 then [cmd] else [cmd[..space], cmd[space + 1..]]
  {
    for i := 0 to |cmd|
      invariant NoSpace(cmd[..i])
    {
      if cmd[i] == SPACE {
        PartsAt(cmd, i);
        return i;
      }
    }
    assert cmd[..|cmd|] == cmd;
    OnePart(cmd);
    return -1;
  }

  lemma {:induction false} PartsAt(cmd: Bytes, i: nat)
    requires i < |cmd| && NoSpace(cmd[..i]) && cmd[i] == SPACE
    ensures CommandParts(cmd) == [cmd[..i], cmd[i + 1..]]
  {
    if i > 0 {
      assert cmd[..i][0] == cmd[0];
      assert cmd[1..][..i - 1] == cmd[..i][1..];
      PartsAt(cmd[1..], i - 1);
      assert [cmd[0]] + cmd[1..][..i - 1] == cmd[..i];
    }
  }

  lemma {:induction false} OnePart(cmd: Bytes)
    requires NoSpace(cmd)
    ensures CommandParts(cmd) == [cmd]
  {
    if cmd != [] {
      OnePart(cmd[1..]);
      assert [cmd[0]] + cmd[1..] == cmd;
    }
  }

  /** The array header and the command, split in two when it contains a space. */
  method AppendCommand(b: Bytes, req: Request) returns (r: Bytes)
    requires Fits(req)
    ensures var parts := CommandParts(req.cmd);
      r == b + Header(42, Digits(|parts| + |req.args|)) + EncodeAll(Blobs(parts))
  {
    var space := FindSpace(req.cmd);
    if space == -1 {
      r := AppendHead(b, 42, |req.args| + 1);
      assert r == r + EncodeAll(Blobs([]));
      r := AppendPart(r, r, [], req.cmd);
      assert [] + [req.cmd] == CommandParts(req.cmd);
    } else {
      r := AppendHead(b, 42, |req.args| + 2);
      ghost var front := r;
      assert r == r + EncodeAll(Blobs([]));
      r := AppendPart(r, front, [], req.cmd[..space]);
      assert [] + [req.cmd[..space]] == [req.cmd[..space]];
      r := AppendPart(r, front, [req.cmd[..space]], req.cmd[space + 1..]);
      assert [req.cmd[..space]] + [req.cmd[space + 1..]] == CommandParts(req.cmd);
    }
  }

  method AppendPart(b: Bytes, ghost front: Bytes, ghost before: seq<Bytes>, part: Bytes) returns (r: Bytes)
    requires IsInt64(|part|) && b == front + EncodeAll(Blobs(before))
    ensures r == front + EncodeAll(Blobs(before + [part]))
  {
    r := AppendBulk(b, part);
    r := r + [CR, LF];
    BlobEnds(b, Header(36, Digits(|part|)), part);
    PushBlob(front, before, part);
  }

  /** AppendRequest: the request's array after the buffer; at the first unsupported argument, its position
      and the buffer as it was. */
  method AppendRequest(buf: Bytes, req: Request) returns (r: Bytes, bad: Option<nat>)
    requires Fits(req)
    ensures bad.None? <==> Supported(req.args)
    ensures bad.None? ==> r == buf + Encode(Wire(req))
    ensures bad.Some? ==> r == buf && FirstUnsupported(req.args, bad.value)
  {
    r := AppendCommand(buf, req);
    ghost var parts := CommandParts(req.cmd);
    ghost var head := Header(42, Digits(|parts| + |req.args|));
    r, bad := AppendArgs(r, req.args, buf + head, parts);
    if bad.Some? {
      CutBack(r, buf, head);
      r := r[..|buf|];
    } else {
      WireParts(buf, req);
    }
  }

  lemma CutBack(r: Bytes, buf: Bytes, head: Bytes)
    requires buf + head <= r
    ensures |buf| <= |r| && r[..|buf|] == buf
  {
    assert (buf + head)[..|buf|] == buf;
  }

  lemma WireParts(buf: Bytes, req: Request)
    ensures var parts := CommandParts(req.cmd);
      buf + Header(42, Digits(|parts| + |req.args|)) + EncodeAll(Blobs(parts + ArgTexts(req.args)))
      == buf + Encode(Wire(req))
  {
    WireEncoding(req);
    JoinThree(buf, Header(42, Digits(|CommandParts(req.cmd)| + |req.args|)),
        EncodeAll(Blobs(CommandParts(req.cmd) + ArgTexts(req.args))));
  }

  lemma WireEncoding(req: Request)
    ensures var parts := CommandParts(req.cmd);
      Encode(Wire(req)) == Header(42, Digits(|parts| + |req.args|)) + EncodeAll(Blobs(parts + ArgTexts(req.args)))
  {
    ListEncoding(Blobs(CommandParts(req.cmd) + ArgTexts(req.args)));
  }

  lemma ListEncoding(items: seq<Value>)
    ensures Encode(List(items)) == Header(42, Digits(|items|)) + EncodeAll(items)
  {}

  predicate FirstUnsupported(args: seq<Arg>, k: nat) {
    k < |args| && args[k].Unsupported? && Supported(args[..k])
  }

  /** One turn of the loop below. */
  method AppendOne(b: Bytes, a: Arg, ghost front: Bytes, ghost texts: seq<Bytes>) returns (r: Bytes)
    requires ArgFits(a) && !a.Unsupported? && b == front + EncodeAll(Blobs(texts))
    ensures r == front + EncodeAll(Blobs(texts + [ArgToString(a).value]))
  {
    r := AppendArg(b, a);
    r := r + [CR, LF];
    PushBlob(front, texts, ArgToString(a).value);
  }

  lemma TextsGrow(parts: seq<Bytes>, args: seq<Arg>, i: nat)
    requires i < |args| && !args[i].Unsupported?
    ensures parts + ArgTexts(args)[..i] + [ArgToString(args[i]).value] == parts + ArgTexts(args)[..i + 1]
  {
    var texts := ArgTexts(args);
    assert texts[..i + 1] == texts[..i] + [texts[i]];
  }

  lemma SupportedGrows(args: seq<Arg>, i: nat)
    requires i < |args| && Supported(args[..i]) && !args[i].Unsupported?
    ensures Supported(args[..i + 1])
  {
    assert args[..i + 1] == args[..i] + [args[i]];
  }

  lemma TextsAll(parts: seq<Bytes>, args: seq<Arg>)
    ensures args[..|args|] == args && parts + ArgTexts(args)[..|args|] == parts + ArgTexts(args)
  {
    assert ArgTexts(args)[..|args|] == ArgTexts(args);
  }

  /** The loop over the arguments. */
  method AppendArgs(b: Bytes, args: seq<Arg>, ghost front: Bytes, ghost parts: seq<Bytes>)
      returns (r: Bytes, bad: Option<nat>)
    requires b == front + EncodeAll(Blobs(parts)) && forall a :: a in args ==> ArgFits(a)
    ensures bad.None? <==> Supported(args)
    ensures bad.None? ==> r == front + EncodeAll(Blobs(parts + ArgTexts(args)))
    ensures bad.Some? ==> front <= r && FirstUnsupported(args, bad.value)
  {
    r := b;
    ghost var texts := parts;
    for i := 0 to |args|
      invariant Supported(args[..i])
      invariant texts == parts + ArgTexts(args)[..i]
      invariant r == front + EncodeAll(Blobs(texts))
    {
      if args[i].Unsupported? {
        assert args[i] in args;
        return r, Some(i);
      }
      r := AppendOne(r, args[i], front, texts);
      texts := texts + [ArgToString(args[i]).value];
      TextsGrow(parts, args, i);
      SupportedGrows(args, i);
    }
    TextsAll(parts, args);
    bad := None;
  }

  // ------------------------------------------------------------------- check

  datatype Verdict = Passed | Refused | BadArgument(pos: nat)

  /** CheckRequest: what it passes, AppendRequest can write. */
  method CheckRequest(req: Request, singleThreaded: bool, hsh: array<nat>, ghost blocking: seq<Bytes>)
      returns (v: Verdict)
    requires CommandSet.TableOf(hsh[..], blocking)
    ensures v == Refused <==> CommandSet.Forbidden(req.cmd, singleThreaded, blocking)
    ensures v == Passed <==> !CommandSet.Forbidden(req.cmd, singleThreaded, blocking) && Supported(req.args)
    ensures v.BadArgument? ==> FirstUnsupported(req.args, v.pos)
  {
    var refused := CommandSet.ForbiddenCommand(req.cmd, singleThreaded, hsh, blocking);
    if refused {
      return Refused;
    }
    var bad := CheckArgs(req.args);
    return if bad.None? then Passed else BadArgument(bad.value);
  }

  /** The loop over the arguments. */
  method CheckArgs(args: seq<Arg>) returns (bad: Option<nat>)
    ensures bad.None? <==> Supported(args)
    ensures bad.Some? ==> FirstUnsupported(args, bad.value)
  {
    for i := 0 to |args|
      invariant Supported(args[..i])
    {
      if args[i].Unsupported? {
        assert args[i] in args;
        return Some(i);
      }
      SupportedGrows(args, i);
    }
    assert args[..|args|] == args;
    return None;
  }

  // ----------------------------------------------------------------- framing

  lemma TextFits(a: Arg)
    requires ArgFits(a)
    ensures ArgToString(a).Some? ==> IsInt64(|ArgToString(a).value|)
  {
    if a.Signed? { ShortLengths(a.i); }
    if a.Unsigned? { ShortLengths(a.u); }
  }

  lemma TextsFit(args: seq<Arg>)
    requires forall a :: a in args ==> ArgFits(a)
    ensures forall i :: 0 <= i < |args| ==> IsInt64(|ArgTexts(args)[i]|)
  {
    forall i | 0 <= i < |args| ensures IsInt64(|ArgTexts(args)[i]|) {
      assert args[i] in args;
      TextFits(args[i]);
    }
  }

  lemma BlobsSendable(texts: seq<Bytes>)
    requires IsInt64(|texts|) && forall i :: 0 <= i < |texts| ==> IsInt64(|texts[i]|)
    ensures Sendable(List(Blobs(texts)))
  {}

  lemma WireSendable(req: Request)
    requires Fits(req)
    ensures Sendable(Wire(req))
  {
    TextsFit(req.args);
    BlobsSendable(CommandParts(req.cmd) + ArgTexts(req.args));
  }

  function Wires(reqs: seq<Request>): (vs: seq<Value>)
    ensures |vs| == |reqs|
  {
    seq(|reqs|, i requires 0 <= i < |reqs| => Wire(reqs[i]))
  }

  /** The serialisation loop of the connection's writer. */
  method WritePacket(reqs: seq<Request>) returns (packet: Bytes)
    requires forall q :: q in reqs ==> Fits(q) && Supported(q.args)
    ensures packet == EncodeAll(Wires(reqs))
  {
    packet := [];
    for i := 0 to |reqs|
      invariant packet == EncodeAll(Wires(reqs[..i]))
    {
      var bad;
      packet, bad := AppendRequest(packet, reqs[i]);
      PushWire(reqs, i);
    }
    assert reqs[..|reqs|] == reqs;
  }

  lemma PushWire(reqs: seq<Request>, i: nat)
    requires i < |reqs|
    ensures EncodeAll(Wires(reqs[..i + 1])) == EncodeAll(Wires(reqs[..i])) + Encode(Wire(reqs[i]))
  {
    WiresPush(reqs, i);
    EncodeAllPush(Wires(reqs[..i]), Wire(reqs[i]));
  }

  lemma WiresPush(reqs: seq<Request>, i: nat)
    requires i < |reqs|
    ensures Wires(reqs[..i + 1]) == Wires(reqs[..i]) + [Wire(reqs[i])]
  {}

  /** Reading a packet back gives every request's array, in order, and leaves exactly the bytes that
      follow the packet. */
  lemma PacketReads(reqs: seq<Request>, rest: Bytes)
    requires forall q :: q in reqs ==> Fits(q)
    ensures var r := ReadItems(|reqs|, EncodeAll(Wires(reqs)) + rest); r.0 == Some(Wires(reqs)) && r.2 == rest
  {
    forall i | 0 <= i < |reqs| ensures Sendable(Wires(reqs)[i]) {
      WireSendable(reqs[i]);
    }
    RoundTripAll(Wires(reqs), rest);
  }

  /** The command itself, or what stands before and after its first space. */
  predicate SplitAs(cmd: Bytes, parts: seq<Bytes>) {
    || (parts == [cmd] && NoSpace(cmd))
    || (|parts| == 2 && NoSpace(parts[0]) && cmd == parts[0] + [SPACE] + parts[1])
  }

  lemma PartsAre(cmd: Bytes, parts: seq<Bytes>)
    requires SplitAs(cmd, parts)
    ensures CommandParts(cmd) == parts
  {
    if |parts| == 2 {
      var i := |parts[0]|;
      assert cmd[..i] == parts[0] && cmd[i] == SPACE && cmd[i + 1..] == parts[1];
      PartsAt(cmd, i);
    } else {
      OnePart(cmd);
    }
  }

  /** A server that reads a request finds the parts of the command and after them the text of every
      argument, each at its place. */
  lemma RequestReads(req: Request, parts: seq<Bytes>, rest: Bytes)
    requires Fits(req) && SplitAs(req.cmd, parts)
    ensures var (v, left) := ReadResponse(Encode(Wire(req)) + rest);
      && left == rest && v.List? && |v.items| == |parts| + |req.args|
      && (forall j :: 0 <= j < |parts| ==> v.items[j] == Blob(parts[j]))
      && (forall i :: 0 <= i < |req.args| && !req.args[i].Unsupported? ==>
            v.items[|parts| + i] == Blob(ArgToString(req.args[i]).value))
  {
    WireSendable(req);
    RoundTrip(Wire(req), rest);
    WireItems(req, parts);
  }

  lemma WireItems(req: Request, parts: seq<Bytes>)
    requires SplitAs(req.cmd, parts)
    ensures var items := Wire(req).items;
      && |items| == |parts| + |req.args|
      && (forall j :: 0 <= j < |parts| ==> items[j] == Blob(parts[j]))
      && (forall i :: 0 <= i < |req.args| && !req.args[i].Unsupported? ==>
            items[|parts| + i] == Blob(ArgToString(req.args[i]).value))
  {
    PartsAre(req.cmd, parts);
    var texts := ArgTexts(req.args);
    forall i | 0 <= i < |texts| ensures Wire(req).items[|parts| + i] == Blob(texts[i]) { BlobAt(parts, texts, i); }
  }

  predicate AllDigits(s: Bytes) {
    s != [] && forall k :: 0 <= k < |s| ==> IsDigit(s[k])
  }

  /** The decimal text of a number. */
  predicate TextOf(t: Bytes, i: int) {
    && ParseInt(t) == Some(Wrap64(i)) && |t| <= 20
    && if i < 0 then t != [] && t[0] == '-' as int && AllDigits(t[1..]) else AllDigits(t)
  }

  lemma NumberText(i: int)
    requires IsInt64(i) || IsUint64(i)
    ensures TextOf(IntText(i), i)
  {
    ShortLengths(i);
    DigitsAreDigits(if i < 0 then -i else i);
    if IsInt64(i) {
      ParseIntText(i);
      WrapKeeps(i);
    } else {
      AccumulateDigits(i);
    }
  }

  /** What the text of an argument is: text and formatted floats as they are, the flags "1" and "0", nothing
      for nil, and for an integer the digits that parse back to it, after a minus sign if it is negative. */
  lemma ArgText(a: Arg)
    ensures ArgToString(a).None? <==> a.Unsupported?
    ensures a.Text? ==> ArgToString(a) == Some(a.s)
    ensures a.Float? ==> ArgToString(a) == Some(a.formatted)
    ensures a.Flag? ==> ArgToString(a) == Some([(if a.on then '1' else '0') as int])
    ensures a.Nil? ==> ArgToString(a) == Some([])
    ensures a.Signed? ==> TextOf(ArgToString(a).value, a.i)
    ensures a.Unsigned? ==> TextOf(ArgToString(a).value, a.u)
  {
    if a.Signed? { NumberText(a.i); }
    if a.Unsigned? { NumberText(a.u); }
  }

  // --------------------------------------------------------------------- key

  const EVAL: Bytes := [69, 86, 65, 76]
  const EVALSHA: Bytes := [69, 86, 65, 76, 83, 72, 65]
  const BITOP: Bytes := [66, 73, 84, 79, 80]
  const RANDOMKEY: Bytes := [82, 65, 78, 68, 79, 77, 75, 69, 89]

  /** Position of the key among the arguments. */
  function KeyIndex(cmd: Bytes): nat {
    if cmd == EVAL || cmd == EVALSHA then 2 else if cmd == BITOP then 1 else 0
  }

  /** Request.Key. */
  function Key(req: Request): Option<Bytes> {
    if req.cmd == RANDOMKEY || |req.args| <= KeyIndex(req.cmd) then None
    else ArgToString(req.args[KeyIndex(req.cmd)])
  }

  lemma CommandNames()
    ensures EVAL == Ascii("EVAL") && EVALSHA == Ascii("EVALSHA")
    ensures BITOP == Ascii("BITOP") && RANDOMKEY == Ascii("RANDOMKEY")
  {}

  /** The key is the third argument of the script commands, the second of BITOP and the first of all others;
      RANDOMKEY has none, nor has a request too short for its key. */
  lemma KeyIsArgument(req: Request)
    ensures var n := if req.cmd == Ascii("EVAL") || req.cmd == Ascii("EVALSHA") then 2
                     else if req.cmd == Ascii("BITOP") then 1 else 0;
      Key(req) == if req.cmd == Ascii("RANDOMKEY") || |req.args| <= n then None else ArgToString(req.args[n])
  {
    CommandNames();
  }

  /** The key a request is routed by is the bulk string the server finds at the key's place: the fourth of a
      script command, the third of BITOP, and otherwise the one after the command, which is one bulk string
      or, with a space in it, two. */
  lemma RoutingKeyIsWireKey(req: Request, k: Bytes, rest: Bytes)
    requires Fits(req) && Key(req) == Some(k)
    ensures var (v, left) := ReadResponse(Encode(Wire(req)) + rest);
      var place := if req.cmd == Ascii("EVAL") || req.cmd == Ascii("EVALSHA") then 3
                   else if req.cmd == Ascii("BITOP") then 2 else if SPACE in req.cmd then 2 else 1;
      left == rest && v.List? && place < |v.items| && v.items[place] == Blob(k)
  {
    KeyPlace(req.cmd);
    WireSendable(req);
    RoundTrip(Wire(req), rest);
    KeyAt(req, k);
  }

  lemma KeyPlace(cmd: Bytes)
    ensures |CommandParts(cmd)| + KeyIndex(cmd)
            == if cmd == Ascii("EVAL") || cmd == Ascii("EVALSHA") then 3
               else if cmd == Ascii("BITOP") then 2 else if SPACE in cmd then 2 else 1
  {
    CommandNames();
    PartsBySpace(cmd);
  }

  lemma PartsBySpace(cmd: Bytes)
    ensures |CommandParts(cmd)| == if SPACE in cmd then 2 else 1
  {
    var parts := CommandParts(cmd);
    if |parts| == 2 { assert cmd[|parts[0]|] == SPACE; }
  }

  lemma KeyArgument(req: Request, k: Bytes)
    requires Key(req) == Some(k)
    ensures KeyIndex(req.cmd) < |req.args| && ArgTexts(req.args)[KeyIndex(req.cmd)] == k
  {}

  lemma KeyAt(req: Request, k: Bytes)
    requires Key(req) == Some(k)
    ensures |CommandParts(req.cmd)| + KeyIndex(req.cmd) < |Wire(req).items|
    ensures Wire(req).items[|CommandParts(req.cmd)| + KeyIndex(req.cmd)] == Blob(k)
  {
    KeyArgument(req, k);
    BlobAt(CommandParts(req.cmd), ArgTexts(req.args), KeyIndex(req.cmd));
  }

  lemma BlobAt(parts: seq<Bytes>, texts: seq<Bytes>, i: nat)
    requires i < |texts|
    ensures Blobs(parts + texts)[|parts| + i] == Blob(texts[i])
  {}
}
