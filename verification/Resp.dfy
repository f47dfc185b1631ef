/** The RESP reader of redis/reader.go over a finite input, and the encoding it inverts. */
module Resp {
  import opened Errors
  import opened Decimal

  const CR: Byte := 13
  const LF: Byte := 10
  const SPACE: Byte := 32
  const CRLF: Bytes := [CR, LF]

  /** bufio.NewReaderSize(dc, 128*1024) */
  const BUFFER: nat := 131072

  // ------------------------------------------------------------------ lines

  /** Index of the first line feed, or the length. */
  function FindLF(s: Bytes): (p: nat)
    ensures p <= |s| && (forall k :: 0 <= k < p ==> s[k] != LF) && (p < |s| ==> s[p] == LF)
  {
    if s == [] || s[0] == LF then 0 else 1 + FindLF(s[1..])
  }

  datatype Line = Line(text: Bytes, rest: Bytes) | TooLong | AtEnd

  /** bufio.Reader.ReadLine: without its line end; at the end of input the remainder counts as a line. */
  function ReadLine(s: Bytes): Line {
    var p := FindLF(s);
    if s == [] then AtEnd
    else if p < |s| && p < BUFFER then
      Line(if p > 0 && s[p - 1] == CR then s[..p - 1] else s[..p], s[p + 1..])
    else if |s| >= BUFFER then TooLong
    else Line(s, [])
  }

  predicate NoLF(s: Bytes) {
    forall k :: 0 <= k < |s| ==> s[k] != LF
  }

  lemma ReadLineOf(text: Bytes, rest: Bytes)
    requires NoLF(text) && |text| + 2 <= BUFFER
    ensures ReadLine(text + CRLF + rest) == Line(text, rest)
  {
    var s := text + CRLF + rest;
    assert s[|text|] == CR && s[|text| + 1] == LF;
    assert FindLF(s) == |text| + 1;
    assert s[..|text|] == text;
    assert s[|text| + 2..] == rest;
  }

  // ----------------------------------------------------------------- values

  /** What an error line says: MOVED and ASK carry a slot and an address. */
  datatype ErrorClass = PlainError | LoadingError | ExecAbortError | TryAgainError
                      | MovedError(slot: int, addr: Bytes) | AskError(slot: int, addr: Bytes)

  /** Errors that end the connection: everything that is not of type ErrResult. */
  datatype Fault = InputEnded | HeaderTooLarge | HeaderEmpty | BadFormat | BadInteger | NoFinalCRLF | UnknownType

  datatype Value =
    | Status(text: Bytes)
    | ErrorLine(text: Bytes, what: ErrorClass)
    | Number(i: int)
    | Blob(bytes: Bytes)
    | Null
    | List(items: seq<Value>)
    | Broken(fault: Fault)

  const MOVED: Bytes := [77, 79, 86, 69, 68, 32]                      // "MOVED "
  const ASK: Bytes := [65, 83, 75, 32]                                // "ASK "
  const LOADING: Bytes := [76, 79, 65, 68, 73, 78, 71]
  const EXECABORT: Bytes := [69, 88, 69, 67, 65, 66, 79, 82, 84]
  const TRYAGAIN: Bytes := [84, 82, 89, 65, 71, 65, 73, 78]

  /** bytes.Split(s, " ") */
  function Split(s: Bytes): (parts: seq<Bytes>)
    ensures |parts| > 0
  {
    if s == [] then [[]]
    else
      var parts := Split(s[1..]);
      if s[0] == SPACE then [[]] + parts else [[s[0]] + parts[0]] + parts[1..]
  }

  /** The branch for '-'; the code splits the line with its '-', which changes only the first part. */
  function ReadError(txt: Bytes): Value {
    if MOVED <= txt || ASK <= txt then
      var parts := Split(txt);
      if |parts| < 3 then Broken(BadFormat)
      else match ParseInt(parts[1])
        case None => Broken(BadInteger)
        case Some(slot) =>
          ErrorLine(txt, if MOVED <= txt then MovedError(slot, parts[2]) else AskError(slot, parts[2]))
    else if LOADING <= txt then ErrorLine(txt, LoadingError)
    else if EXECABORT <= txt then ErrorLine(txt, ExecAbortError)
    else if TRYAGAIN <= txt then ErrorLine(txt, TryAgainError)
    else ErrorLine(txt, PlainError)
  }

  /** The branch for '$' after its length. */
  function ReadBlob(n: int, s: Bytes): (Value, Bytes) {
    if n < 0 then (Null, s)
    else if |s| < n + 2 then (Broken(InputEnded), [])
    else if s[n] != CR || s[n + 1] != LF then (Broken(NoFinalCRLF), s[n + 2..])
    else (Blob(s[..n]), s[n + 2..])
  }

  /** What the first line leads to: a whole value, or the number of items of an array. */
  datatype Head = Whole(value: Value, rest: Bytes) | Items(count: nat, rest: Bytes)

  /** ReadResponse up to the loop over array items. */
  function ReadHead(s: Bytes): (h: Head)
    ensures |h.rest| <= |s| && (h.Items? || !h.value.Broken? ==> |h.rest| < |s|)
  {
    match ReadLine(s)
    case AtEnd => Whole(Broken(InputEnded), [])
    case TooLong => Whole(Broken(HeaderTooLarge), [])
    case Line(line, rest) =>
      if line == [] then Whole(Broken(HeaderEmpty), rest)
      else if line[0] == 43 then Whole(Status(line[1..]), rest)
      else if line[0] == 45 then Whole(ReadError(line[1..]), rest)
      else if line[0] == 58 then
        match ParseInt(line[1..])
        case None => Whole(Broken(BadInteger), rest)
        case Some(v) => Whole(Number(v), rest)
      else if line[0] == 36 then
        match ParseInt(line[1..])
        case None => Whole(Broken(BadInteger), rest)
        case Some(v) => var (value, left) := ReadBlob(v, rest); Whole(value, left)
      else if line[0] == 42 then
        match ParseInt(line[1..])
        case None => Whole(Broken(BadInteger), rest)
        case Some(v) => if v < 0 then Whole(Null, rest) else Items(v, rest)
      else Whole(Broken(UnknownType), rest)
  }

  /** ReadResponse: the value and the input left. */
  function ReadResponse(s: Bytes): (r: (Value, Bytes))
    ensures |r.1| <= |s| && (!r.0.Broken? ==> |r.1| < |s|)
    decreases |s|, 0
  {
    match ReadHead(s)
    case Whole(value, rest) => (value, rest)
    case Items(n, rest) =>
      var items := ReadItems(n, rest);
      (if items.0.None? then items.1 else List(items.0.value), items.2)
  }

  /** The loop of the '*' branch: the items, or the fault that ended it, and the input left. */
  function ReadItems(n: nat, s: Bytes): (r: (Option<seq<Value>>, Value, Bytes))
    ensures |r.2| <= |s| && (r.0.None? ==> r.1.Broken?)
    decreases |s|, 1, n
  {
    if n == 0 then (Some([]), Null, s)
    else
      var (v, rest) := ReadResponse(s);
      if v.Broken? then (None, v, rest)
      else
        var (more, fault, left) := ReadItems(n - 1, rest);
        (if more.None? then None else Some([v] + more.value), fault, left)
  }

  /** ReadResponse as it runs. */
  method Read(s: Bytes) returns (v: Value, rest: Bytes)
    ensures (v, rest) == ReadResponse(s)
    decreases |s|, 0
  {
    var h := ReadHead(s);
    if h.Whole? {
      return h.value, h.rest;
    }
    v, rest := ReadArray(h.count, h.rest);
    AllItems(h.count, h.rest);
  }

  /** The loop of the '*' branch fills the result item by item and stops at a fault. */
  method ReadArray(n: nat, s: Bytes) returns (v: Value, rest: Bytes)
    ensures (v, rest) == Resumed([], n, s)
    decreases |s|, 1
  {
    var result: seq<Value> := [];
    rest := s;
    var left := n;
    while left > 0
      invariant |rest| <= |s|
      invariant Resumed([], n, s) == Resumed(result, left, rest)
    {
      ItemStep(result, left, rest);
      v, rest := Read(rest);
      if v.Broken? {
        return;
      }
      result, left := result + [v], left - 1;
    }
    NoMoreItems(result, rest);
    v := List(result);
  }

  /** The outcome of an item loop that holds `done` and has n more items to read from s. */
  function Resumed(done: seq<Value>, n: nat, s: Bytes): (Value, Bytes) {
    var later := ReadItems(n, s);
    (if later.0.None? then later.1 else List(done + later.0.value), later.2)
  }

  lemma NoMoreItems(done: seq<Value>, s: Bytes)
    ensures Resumed(done, 0, s) == (List(done), s)
  {
    assert done + [] == done;
  }

  lemma AllItems(n: nat, s: Bytes)
    ensures var items := ReadItems(n, s);
      Resumed([], n, s) == (if items.0.None? then items.1 else List(items.0.value), items.2)
  {
    var items := ReadItems(n, s).0;
    assert items.Some? ==> [] + items.value == items.value;
  }

  lemma ItemStep(done: seq<Value>, n: nat, s: Bytes)
    requires n > 0
    ensures var (v, rest) := ReadResponse(s);
      Resumed(done, n, s) == if v.Broken? then (v, rest) else Resumed(done + [v], n - 1, rest)
  {
    var (v, rest) := ReadResponse(s);
    if !v.Broken? {
      var later := ReadItems(n - 1, rest);
      if later.0.Some? {
        assert done + ([v] + later.0.value) == done + [v] + later.0.value;
      }
    }
  }

  // --------------------------------------------------------------- encoding

  /** One header line. */
  function Header(kind: Byte, text: Bytes): Bytes {
    [kind] + text + CRLF
  }

  function Encode(v: Value): Bytes {
    match v
    case Status(text) => Header(43, text)
    case ErrorLine(text, _) => Header(45, text)
    case Number(i) => Header(58, IntText(i))
    case Blob(bytes) => Header(36, Digits(|bytes|)) + bytes + CRLF
    case Null => Header(36, IntText(-1))
    case List(items) => Header(42, Digits(|items|)) + EncodeAll(items)
    case Broken(_) => []
  }

  function EncodeAll(vs: seq<Value>): Bytes {
    if vs == [] then [] else Encode(vs[0]) + EncodeAll(vs[1..])
  }

  /** Values a server can send: one-line texts, int64 numbers, and an error class that fits its text. */
  predicate Sendable(v: Value) {
    match v
    case Status(text) => NoLF(text) && |text| + 3 <= BUFFER
    case ErrorLine(text, _) => NoLF(text) && |text| + 3 <= BUFFER && ReadError(text) == v
    case Number(i) => IsInt64(i)
    case Blob(bytes) => IsInt64(|bytes|)
    case Null => true
    case List(items) => IsInt64(|items|) && forall x :: x in items ==> Sendable(x)
    case Broken(_) => false
  }

  lemma HeaderReads(kind: Byte, text: Bytes, rest: Bytes)
    requires kind != LF && NoLF(text) && |text| + 3 <= BUFFER
    ensures ReadLine(Header(kind, text) + rest) == Line([kind] + text, rest)
    ensures ([kind] + text)[1..] == text
  {
    ReadLineOf([kind] + text, rest);
  }

  lemma IntTextShort(i: int)
    requires IsInt64(i)
    ensures NoLF(IntText(i)) && 0 < |IntText(i)| <= 21
  {
    var u := if i < 0 then -i else i;
    DigitsAreDigits(u);
    Uint64Fits(u);
    DigitsLength(u, 20);
  }

  lemma NumberHeader(kind: Byte, i: int, rest: Bytes)
    requires IsInt64(i) && kind != LF
    ensures ReadLine(Header(kind, IntText(i)) + rest) == Line([kind] + IntText(i), rest)
    ensures ParseInt(([kind] + IntText(i))[1..]) == Some(i)
  {
    IntTextShort(i);
    HeaderReads(kind, IntText(i), rest);
    ParseIntText(i);
  }

  lemma BlobReads(bytes: Bytes, rest: Bytes)
    ensures ReadBlob(|bytes|, bytes + CRLF + rest) == (Blob(bytes), rest)
  {
    var s := bytes + CRLF + rest;
    assert s[|bytes|] == CR && s[|bytes| + 1] == LF;
    assert s[..|bytes|] == bytes && s[|bytes| + 2..] == rest;
  }

  lemma LineHead(text: Bytes, rest: Bytes)
    requires NoLF(text) && |text| + 3 <= BUFFER
    ensures ReadHead(Header(43, text) + rest) == Whole(Status(text), rest)
    ensures ReadHead(Header(45, text) + rest) == Whole(ReadError(text), rest)
  {
    HeaderReads(43, text, rest);
    HeaderReads(45, text, rest);
  }

  lemma NumberHead(i: int, rest: Bytes)
    requires IsInt64(i)
    ensures ReadHead(Header(58, IntText(i)) + rest) == Whole(Number(i), rest)
  {
    NumberHeader(58, i, rest);
  }

  lemma NullHead(i: int, rest: Bytes)
    requires IsInt64(i) && i < 0
    ensures ReadHead(Header(36, IntText(i)) + rest) == Whole(Null, rest)
  {
    NumberHeader(36, i, rest);
  }

  lemma ListHead(n: nat, rest: Bytes)
    requires IsInt64(n)
    ensures ReadHead(Header(42, Digits(n)) + rest) == Items(n, rest)
  {
    NumberHeader(42, n, rest);
  }

  lemma BlobHeadAt(n: nat, body: Bytes, bytes: Bytes, rest: Bytes)
    requires IsInt64(n) && ReadBlob(n, body) == (Blob(bytes), rest)
    ensures ReadHead(Header(36, IntText(n)) + body) == Whole(Blob(bytes), rest)
  {
    NumberHeader(36, n, body);
  }

  lemma Reassociate(a: Bytes, b: Bytes, c: Bytes, d: Bytes)
    ensures a + b + c + d == a + (b + c + d)
  {}

  lemma BlobHead(bytes: Bytes, rest: Bytes)
    requires IsInt64(|bytes|)
    ensures ReadHead(Header(36, Digits(|bytes|)) + bytes + CRLF + rest) == Whole(Blob(bytes), rest)
  {
    BlobReads(bytes, rest);
    BlobHeadAt(|bytes|, bytes + CRLF + rest, bytes, rest);
    Reassociate(Header(36, IntText(|bytes|)), bytes, CRLF, rest);
  }

  lemma ListResponse(s: Bytes, n: nat, body: Bytes, items: seq<Value>, rest: Bytes)
    requires ReadHead(s) == Items(n, body)
    requires ReadItems(n, body).0 == Some(items) && ReadItems(n, body).2 == rest
    ensures ReadResponse(s) == (List(items), rest)
  {}

  lemma JoinThree(a: Bytes, b: Bytes, c: Bytes)
    ensures a + b + c == a + (b + c)
  {}

  lemma ListReads(head: Bytes, body: Bytes, n: nat, items: seq<Value>, rest: Bytes)
    requires ReadHead(head + (body + rest)) == Items(n, body + rest)
    requires ReadItems(n, body + rest).0 == Some(items) && ReadItems(n, body + rest).2 == rest
    ensures ReadResponse(head + body + rest) == (List(items), rest)
  {
    ListResponse(head + (body + rest), n, body + rest, items, rest);
    JoinThree(head, body, rest);
  }

  lemma EncodeSplits(items: seq<Value>, rest: Bytes)
    requires items != []
    ensures EncodeAll(items) + rest == Encode(items[0]) + (EncodeAll(items[1..]) + rest)
  {
    JoinThree(Encode(items[0]), EncodeAll(items[1..]), rest);
  }

  lemma ItemsCons(n: nat, s: Bytes, v: Value, next: Bytes, more: seq<Value>, rest: Bytes)
    requires n > 0 && ReadResponse(s) == (v, next) && !v.Broken?
    requires ReadItems(n - 1, next).0 == Some(more) && ReadItems(n - 1, next).2 == rest
    ensures ReadItems(n, s).0 == Some([v] + more) && ReadItems(n, s).2 == rest
  {}

  /** Reading what was encoded gives it back and stops at its last byte. */
  lemma {:induction false} RoundTrip(v: Value, rest: Bytes)
    requires Sendable(v)
    ensures ReadResponse(Encode(v) + rest) == (v, rest)
    decreases v, 1
  {
    match v {
      case Status(text) => LineHead(text, rest);
      case ErrorLine(text, _) => LineHead(text, rest);
      case Number(i) => NumberHead(i, rest);
      case Null => NullHead(-1, rest);
      case Blob(bytes) => BlobHead(bytes, rest);
      case List(items) =>
        RoundTripAll(items, rest);
        ListHead(|items|, EncodeAll(items) + rest);
        ListReads(Header(42, Digits(|items|)), EncodeAll(items), |items|, items, rest);
    }
  }

  lemma {:induction false} RoundTripAll(items: seq<Value>, rest: Bytes)
    requires forall x :: x in items ==> Sendable(x)
    ensures var r := ReadItems(|items|, EncodeAll(items) + rest); r.0 == Some(items) && r.2 == rest
    decreases items, 0
  {
    if items == [] {
      assert EncodeAll(items) + rest == rest;
    } else {
      RoundTrip(items[0], EncodeAll(items[1..]) + rest);
      RoundTripAll(items[1..], rest);
      EncodeSplits(items, rest);
      FirstAndRest(items, Encode(items[0]) + (EncodeAll(items[1..]) + rest), EncodeAll(items[1..]) + rest, rest);
    }
  }

  lemma FirstAndRest(items: seq<Value>, s: Bytes, next: Bytes, rest: Bytes)
    requires items != [] && ReadResponse(s) == (items[0], next) && !items[0].Broken?
    requires var r := ReadItems(|items| - 1, next); r.0 == Some(items[1..]) && r.2 == rest
    ensures var r := ReadItems(|items|, s); r.0 == Some(items) && r.2 == rest
  {
    Rejoined(items);
    ItemsCons(|items|, s, items[0], next, items[1..], rest);
  }

  lemma Rejoined(items: seq<Value>)
    requires items != []
    ensures [items[0]] + items[1..] == items
  {}

  // -------------------------------------------------------------- redirects

  predicate NoSpace(s: Bytes) {
    forall k :: 0 <= k < |s| ==> s[k] != SPACE
  }

  lemma {:induction false} SplitWord(word: Bytes, rest: Bytes)
    requires NoSpace(word)
    ensures Split(word + [SPACE] + rest) == [word] + Split(rest)
  {
    var s := word + [SPACE] + rest;
    if word == [] {
      assert s[1..] == rest;
    } else {
      assert s[1..] == word[1..] + [SPACE] + rest;
      SplitWord(word[1..], rest);
      assert [word[0]] + word[1..] == word;
    }
  }

  lemma {:induction false} SplitLast(word: Bytes)
    requires NoSpace(word)
    ensures Split(word) == [word]
  {
    if word != [] {
      SplitLast(word[1..]);
      assert [word[0]] + word[1..] == word;
    }
  }

  /** The slot and the address of a redirect reach the cluster layer as the server wrote them. */
  lemma MovedReads(slot: int, addr: Bytes)
    requires IsInt64(slot) && NoSpace(addr)
    ensures var txt := MOVED + IntText(slot) + [SPACE] + addr; ReadError(txt) == ErrorLine(txt, MovedError(slot, addr))
  {
    var txt := MOVED + IntText(slot) + [SPACE] + addr;
    var word := MOVED[..5];
    RedirectSplits(word, slot, addr);
    assert txt == word + [SPACE] + (IntText(slot) + [SPACE] + addr);
    assert txt[..6] == MOVED;
    RedirectReads(txt, word, slot, addr);
  }

  lemma AskReads(slot: int, addr: Bytes)
    requires IsInt64(slot) && NoSpace(addr)
    ensures var txt := ASK + IntText(slot) + [SPACE] + addr; ReadError(txt) == ErrorLine(txt, AskError(slot, addr))
  {
    var txt := ASK + IntText(slot) + [SPACE] + addr;
    var word := ASK[..3];
    RedirectSplits(word, slot, addr);
    assert txt == word + [SPACE] + (IntText(slot) + [SPACE] + addr);
    assert txt[..4] == ASK;
    assert txt[0] == ASK[0] != MOVED[0];
    RedirectReads(txt, word, slot, addr);
  }

  lemma RedirectReads(txt: Bytes, word: Bytes, slot: int, addr: Bytes)
    requires MOVED <= txt || ASK <= txt
    requires IsInt64(slot) && Split(txt) == [word, IntText(slot), addr]
    ensures ReadError(txt) == ErrorLine(txt, if MOVED <= txt then MovedError(slot, addr) else AskError(slot, addr))
  {
    ParseIntText(slot);
  }

  lemma RedirectSplits(word: Bytes, slot: int, addr: Bytes)
    requires NoSpace(word) && IsInt64(slot) && NoSpace(addr)
    ensures Split(word + [SPACE] + (IntText(slot) + [SPACE] + addr)) == [word, IntText(slot), addr]
  {
    DigitsAreDigits(if slot < 0 then -slot else slot);
    SplitWord(word, IntText(slot) + [SPACE] + addr);
    SplitWord(IntText(slot), addr);
    SplitLast(addr);
  }

  // ------------------------------------------- what the bytes of a reply mean

  predicate StartsWith(s: Bytes, word: string) {
    |word| <= |s| && forall k :: 0 <= k < |word| ==> s[k] == word[k] as int
  }

  predicate RedirectText(text: Bytes) {
    StartsWith(text, "MOVED ") || StartsWith(text, "ASK ")
  }

  lemma Prefixes(text: Bytes)
    ensures MOVED <= text <==> StartsWith(text, "MOVED ")
    ensures ASK <= text <==> StartsWith(text, "ASK ")
    ensures LOADING <= text <==> StartsWith(text, "LOADING")
    ensures EXECABORT <= text <==> StartsWith(text, "EXECABORT")
    ensures TRYAGAIN <= text <==> StartsWith(text, "TRYAGAIN")
  {
    PrefixIs(text, MOVED, "MOVED ");
    PrefixIs(text, ASK, "ASK ");
    PrefixIs(text, LOADING, "LOADING");
    PrefixIs(text, EXECABORT, "EXECABORT");
    PrefixIs(text, TRYAGAIN, "TRYAGAIN");
  }

  lemma PrefixIs(s: Bytes, prefix: Bytes, word: string)
    requires |prefix| == |word| && forall k :: 0 <= k < |word| ==> prefix[k] == word[k] as int
    ensures prefix <= s <==> StartsWith(s, word)
  {}

  /** An error line that is no redirect is told by its first letters, whatever follows them. */
  lemma ErrorClasses(text: Bytes)
    requires !RedirectText(text)
    ensures ReadError(text).ErrorLine? && ReadError(text).text == text
    ensures ReadError(text).what == LoadingError <==> StartsWith(text, "LOADING")
    ensures ReadError(text).what == ExecAbortError <==> StartsWith(text, "EXECABORT")
    ensures ReadError(text).what == TryAgainError <==> StartsWith(text, "TRYAGAIN")
    ensures ReadError(text).what == PlainError
            <==> !StartsWith(text, "LOADING") && !StartsWith(text, "EXECABORT") && !StartsWith(text, "TRYAGAIN")
  {
    Prefixes(text);
  }

  /** One line on the wire. */
  function Sent(kind: char, text: Bytes): Bytes
    requires kind as int < 128
  {
    [kind as int] + text + [13, 10]
  }

  /** A one-line reply is told by its first byte. */
  lemma LineReplies(text: Bytes, rest: Bytes)
    requires NoLF(text) && |text| + 3 <= BUFFER
    ensures ReadResponse(Sent('+', text) + rest) == (Status(text), rest)
    ensures ReadResponse(Sent('-', text) + rest) == (ReadError(text), rest)
  {
    LineHead(text, rest);
  }

  /** So is a reply that starts with a number: the number itself, and for a negative length or count the
      null reply. */
  lemma NumberReplies(i: int, rest: Bytes)
    requires IsInt64(i)
    ensures ReadResponse(Sent(':', IntText(i)) + rest) == (Number(i), rest)
    ensures i < 0 ==> ReadResponse(Sent('$', IntText(i)) + rest) == (Null, rest)
    ensures i < 0 ==> ReadResponse(Sent('*', IntText(i)) + rest) == (Null, rest)
  {
    NumberHead(i, rest);
    if i < 0 {
      NullHead(i, rest);
      NullArrayHead(i, rest);
    }
  }

  lemma NullArrayHead(i: int, rest: Bytes)
    requires IsInt64(i) && i < 0
    ensures ReadHead(Header(42, IntText(i)) + rest) == Whole(Null, rest)
  {
    NumberHeader(42, i, rest);
  }

  lemma BulkReply(bytes: Bytes, rest: Bytes)
    requires IsInt64(|bytes|)
    ensures ReadResponse(Sent('$', IntText(|bytes|)) + bytes + [13, 10] + rest) == (Blob(bytes), rest)
  {
    BlobHead(bytes, rest);
  }

  lemma ArrayReply(items: seq<Value>, rest: Bytes)
    requires IsInt64(|items|) && forall x :: x in items ==> Sendable(x)
    ensures ReadResponse(Sent('*', IntText(|items|)) + EncodeAll(items) + rest) == (List(items), rest)
  {
    RoundTrip(List(items), rest);
  }

  /** What breaks a connection: no line, an empty or unknown one, one too long for the buffer, a number
      that is none, and a bulk string cut short or not ended by CRLF. */
  lemma Faults(s: Bytes, text: Bytes, rest: Bytes)
    requires NoLF(text) && |text| + 2 <= BUFFER
    ensures ReadResponse([]) == (Broken(InputEnded), [])
    ensures |s| >= BUFFER && NoLF(s[..BUFFER]) ==> ReadResponse(s).0 == Broken(HeaderTooLarge)
    ensures text == [] ==> ReadResponse(text + [13, 10] + rest) == (Broken(HeaderEmpty), rest)
    ensures text != [] && !StartsWith(text, "+") && !StartsWith(text, "-") && !StartsWith(text, ":")
            && !StartsWith(text, "$") && !StartsWith(text, "*")
            ==> ReadResponse(text + [13, 10] + rest) == (Broken(UnknownType), rest)
    ensures (StartsWith(text, ":") || StartsWith(text, "$") || StartsWith(text, "*")) && !IsNumber(text[1..])
            ==> ReadResponse(text + [13, 10] + rest) == (Broken(BadInteger), rest)
  {
    ReadLineOf(text, rest);
    assert text + CRLF + rest == text + [13, 10] + rest;
    if |s| >= BUFFER && NoLF(s[..BUFFER]) { LateLF(s); }
    if text != [] { ParseNoneIff(text[1..]); }
  }

  lemma LateLF(s: Bytes)
    requires |s| >= BUFFER && NoLF(s[..BUFFER])
    ensures FindLF(s) >= BUFFER
  {
    forall k | 0 <= k < BUFFER ensures s[k] != LF { assert s[..BUFFER][k] == s[k]; }
  }

  /** A bulk string of n bytes needs n more and CRLF. */
  lemma BulkFaults(n: nat, s: Bytes)
    requires IsInt64(n)
    ensures var v := ReadResponse(Sent('$', IntText(n)) + s).0;
      if |s| < n + 2 then v == Broken(InputEnded)
      else if s[n] != 13 || s[n + 1] != 10 then v == Broken(NoFinalCRLF)
      else v == Blob(s[..n])
  {
    BulkHead(n, s);
  }

  lemma BulkHead(n: nat, s: Bytes)
    requires IsInt64(n)
    ensures ReadHead(Header(36, IntText(n)) + s) == Whole(ReadBlob(n, s).0, ReadBlob(n, s).1)
  {
    NumberHeader(36, n, s);
  }

  /** A redirect without slot and address, or with a slot that is no number, breaks it too. */
  lemma RedirectFaults(word: Bytes, addr: Bytes)
    requires NoSpace(word) && NoSpace(addr)
    ensures ReadError(MOVED + word) == Broken(BadFormat) && ReadError(ASK + word) == Broken(BadFormat)
    ensures !IsNumber(word) ==> ReadError(MOVED + word + [SPACE] + addr) == Broken(BadInteger)
    ensures !IsNumber(word) ==> ReadError(ASK + word + [SPACE] + addr) == Broken(BadInteger)
  {
    ShortRedirect(MOVED, MOVED[..5], word, addr);
    ShortRedirect(ASK, ASK[..3], word, addr);
    ParseNoneIff(word);
  }

  lemma ShortRedirect(head: Bytes, name: Bytes, word: Bytes, addr: Bytes)
    requires head == name + [SPACE] && NoSpace(name) && NoSpace(word) && NoSpace(addr)
    ensures Split(head + word) == [name, word] && head <= head + word
    ensures Split(head + word + [SPACE] + addr) == [name, word, addr] && head <= head + word + [SPACE] + addr
  {
    SplitWord(name, word);
    SplitLast(word);
    SplitWord(name, word + [SPACE] + addr);
    SplitWord(word, addr);
    SplitLast(addr);
    Regrouped(head, word, [SPACE], addr);
  }

  lemma Regrouped(head: Bytes, word: Bytes, gap: Bytes, addr: Bytes)
    ensures head + word + gap + addr == head + (word + gap + addr)
    ensures head <= head + word && head <= head + word + gap + addr
  {}
}
