/** Slots of keys and of batches: Slot of rediscluster/redisclusterutil/crc16.go and the loops of
    rediscluster/redisclusterutil/slots.go. */
module Slots {
  import opened Errors
  import opened Decimal
  import opened Writer
  import Crc16

  const NumSlots: nat := 16384
  const OPEN: Byte := 123
  const CLOSE: Byte := 125

  // ------------------------------------------------------------------- hash tags

  /** strings.Index for one byte. */
  function Index(s: Bytes, b: Byte): (i: int)
    ensures -1 <= i < |s|
    ensures i >= 0 ==> s[i] == b && forall k :: 0 <= k < i ==> s[k] != b
    ensures i < 0 ==> forall k :: 0 <= k < |s| ==> s[k] != b
  {
    if s == [] then -1
    else if s[0] == b then 0
    else var i := Index(s[1..], b); if i < 0 then -1 else i + 1
  }

  /** The part of the key that is hashed. */
  function Hashed(key: Bytes): Bytes {
    var start := Index(key, OPEN);
    if start >= 0 then
      var end := Index(key[start + 1..], CLOSE);
      if end > 0 then key[start + 1..start + 1 + end] else key
    else key
  }

  function AsBytes8(s: Bytes): (r: seq<bv8>)
    ensures |r| == |s|
  {
    seq(|s|, i requires 0 <= i < |s| => s[i] as bv8)
  }

  /** Slot. */
  function Slot(key: Bytes): (s: nat)
    ensures s < NumSlots
  {
    (Crc16.Crc(AsBytes8(Hashed(key))) as nat) % NumSlots
  }

  method SlotOf(key: Bytes) returns (s: nat)
    ensures s == Slot(key)
  {
    var crc := Crc16.Crc16(AsBytes8(Hashed(key)));
    s := (crc as nat) % NumSlots;
  }

  predicate Without(s: Bytes, b: Byte) {
    forall k :: 0 <= k < |s| ==> s[k] != b
  }

  /** The key has this non-empty tag between its first '{' and the first '}' after that. */
  predicate Tagged(key: Bytes, pre: Bytes, tag: Bytes, post: Bytes) {
    && key == pre + [OPEN] + tag + [CLOSE] + post
    && tag != [] && Without(pre, OPEN) && Without(tag, CLOSE)
  }

  lemma HashedTag(key: Bytes, pre: Bytes, tag: Bytes, post: Bytes)
    requires Tagged(key, pre, tag, post)
    ensures Hashed(key) == tag
  {
    assert key[|pre|] == OPEN;
    assert forall k :: 0 <= k < |pre| ==> key[k] == pre[k];
    assert Index(key, OPEN) == |pre|;
    var after := key[|pre| + 1..];
    assert after == tag + [CLOSE] + post;
    assert after[|tag|] == CLOSE;
    assert forall k :: 0 <= k < |tag| ==> after[k] == tag[k];
    assert Index(after, CLOSE) == |tag|;
  }

  /** A sequence is what comes before an index, the byte there, and the rest. */
  lemma CutAt(s: Bytes, i: nat)
    requires i < |s|
    ensures s == s[..i] + [s[i]] + s[i + 1..]
  {}

  lemma FivePieces(a: Bytes, b: Bytes, c: Bytes, d: Bytes, e: Bytes)
    ensures a + b + (c + d + e) == a + b + c + d + e
  {}

  lemma TagApart(key: Bytes, start: nat, end: nat)
    requires start == Index(key, OPEN) && end == Index(key[start + 1..], CLOSE) && end > 0
    ensures Tagged(key, key[..start], key[start + 1..][..end], key[start + 1..][end + 1..])
    ensures key[start + 1..start + 1 + end] == key[start + 1..][..end]
  {
    var after := key[start + 1..];
    CutAt(key, start);
    CutAt(after, end);
    FivePieces(key[..start], [OPEN], after[..end], [CLOSE], after[end + 1..]);
    Slice(key, start + 1, end);
  }

  lemma Slice(s: Bytes, i: nat, n: nat)
    requires i + n <= |s|
    ensures s[i..i + n] == s[i..][..n]
  {}

  lemma HashedBetween(key: Bytes, start: nat, end: nat)
    requires start == Index(key, OPEN) && end == Index(key[start + 1..], CLOSE) && end > 0
    ensures Hashed(key) == key[start + 1..start + 1 + end]
  {}

  lemma HashedWhole(key: Bytes, start: int)
    requires start == Index(key, OPEN) && (start >= 0 ==> Index(key[start + 1..], CLOSE) <= 0)
    ensures Hashed(key) == key
  {}

  /** A part of the key is hashed only when it is the key's tag. */
  lemma HashedIsTag(key: Bytes) returns (pre: Bytes, post: Bytes)
    ensures Hashed(key) == key || Tagged(key, pre, Hashed(key), post)
  {
    pre, post := [], [];
    var start := Index(key, OPEN);
    if start >= 0 && Index(key[start + 1..], CLOSE) > 0 {
      var end := Index(key[start + 1..], CLOSE);
      TagApart(key, start, end);
      HashedBetween(key, start, end);
      pre, post := key[..start], key[start + 1..][end + 1..];
    } else {
      HashedWhole(key, start);
    }
  }

  /** A tagged key lands where its tag lands. */
  lemma TagDecidesSlot(key: Bytes, pre: Bytes, tag: Bytes, post: Bytes)
    requires Tagged(key, pre, tag, post)
    ensures Slot(key) == Slot(tag)
  {
    HashedTag(key, pre, tag, post);
    var start := Index(tag, OPEN);
    if start >= 0 {
      assert Without(tag[start + 1..], CLOSE);
      assert Index(tag[start + 1..], CLOSE) < 0;
    }
    assert Hashed(tag) == tag;
  }

  /** Keys that share a non-empty first tag share a slot. */
  lemma SameTagSameSlot(key1: Bytes, pre1: Bytes, post1: Bytes, key2: Bytes, pre2: Bytes, post2: Bytes, tag: Bytes)
    requires Tagged(key1, pre1, tag, post1) && Tagged(key2, pre2, tag, post2)
    ensures Slot(key1) == Slot(key2)
  {
    TagDecidesSlot(key1, pre1, tag, post1);
    TagDecidesSlot(key2, pre2, tag, post2);
  }

  /** The tag if the key has one, and otherwise the whole key. */
  ghost predicate HashedPart(key: Bytes, part: Bytes) {
    || (exists pre, post :: Tagged(key, pre, part, post))
    || (part == key && forall pre, tag, post :: !Tagged(key, pre, tag, post))
  }

  lemma HashedPartIs(key: Bytes, part: Bytes)
    requires HashedPart(key, part)
    ensures Hashed(key) == part
  {
    if pre, post :| Tagged(key, pre, part, post) {
      HashedTag(key, pre, part, post);
    } else {
      var pre, post := HashedIsTag(key);
    }
  }

  /** A slot is what the checksum of the hashed part leaves when it is divided by 16384. */
  lemma SlotDivides(key: Bytes, part: Bytes) returns (q: nat)
    requires HashedPart(key, part)
    ensures Crc16.Crc(AsBytes8(part)) as nat == 16384 * q + Slot(key) && Slot(key) < 16384
  {
    HashedPartIs(key, part);
    q := (Crc16.Crc(AsBytes8(part)) as nat) / 16384;
  }

  // --------------------------------------------------------------------- batches

  /** ReqSlot; `draw` is the random slot for RANDOMKEY. */
  function ReqSlot(req: Request, draw: nat): Option<nat> {
    if req.cmd == RANDOMKEY then Some(draw)
    else match Key(req)
      case None => None
      case Some(k) => Some(Slot(k))
  }

  /** The slot of the request's own key. */
  function KeySlot(req: Request): Option<nat> {
    match Key(req)
    case None => None
    case Some(k) => Some(Slot(k))
  }

  function ReqSlots(reqs: seq<Request>, draws: seq<nat>): (slots: seq<Option<nat>>)
    requires |draws| == |reqs|
    ensures |slots| == |reqs|
  {
    if reqs == [] then []
    else ReqSlots(reqs[..|reqs| - 1], draws[..|reqs| - 1]) + [ReqSlot(reqs[|reqs| - 1], draws[|reqs| - 1])]
  }

  lemma {:induction false} ReqSlotsAt(reqs: seq<Request>, draws: seq<nat>, i: nat)
    requires |draws| == |reqs| && i < |reqs|
    ensures ReqSlots(reqs, draws)[i] == ReqSlot(reqs[i], draws[i])
  {
    if i < |reqs| - 1 { ReqSlotsAt(reqs[..|reqs| - 1], draws[..|reqs| - 1], i); }
  }

  function Keys(reqs: seq<Request>): (keys: seq<Option<Bytes>>)
    ensures |keys| == |reqs|
  {
    if reqs == [] then [] else Keys(reqs[..|reqs| - 1]) + [Key(reqs[|reqs| - 1])]
  }

  function KeySlots(reqs: seq<Request>): (slots: seq<Option<nat>>)
    ensures |slots| == |reqs|
  {
    if reqs == [] then [] else KeySlots(reqs[..|reqs| - 1]) + [KeySlot(reqs[|reqs| - 1])]
  }

  lemma {:induction false} KeysAt(reqs: seq<Request>, i: nat)
    requires i < |reqs|
    ensures Keys(reqs)[i] == Key(reqs[i]) && KeySlots(reqs)[i] == KeySlot(reqs[i])
  {
    if i < |reqs| - 1 { KeysAt(reqs[..|reqs| - 1], i); }
  }

  /** Some entry is s, and no entry is another slot. */
  predicate Common(slots: seq<Option<nat>>, s: nat) {
    Some(s) in slots && forall i :: 0 <= i < |slots| ==> slots[i] in {None, Some(s)}
  }

  /** Two entries are different slots. */
  predicate Conflict(slots: seq<Option<nat>>) {
    exists i, j :: 0 <= i < |slots| && 0 <= j < |slots| && slots[i].Some? && slots[j].Some? && slots[i] != slots[j]
  }

  lemma ConflictNotCommon(slots: seq<Option<nat>>)
    requires Conflict(slots)
    ensures forall s :: !Common(slots, s)
  {}

  method SlotOfReq(reqs: seq<Request>, draws: seq<nat>, i: nat) returns (s: Option<nat>)
    requires |draws| == |reqs| && i < |reqs|
    ensures s == ReqSlots(reqs, draws)[i]
  {
    ReqSlotsAt(reqs, draws, i);
    if reqs[i].cmd == RANDOMKEY {
      return Some(draws[i]);
    }
    var k := Key(reqs[i]);
    if k.None? {
      return None;
    }
    var slot := SlotOf(k.value);
    return Some(slot);
  }

  /** What the loop of BatchSlot knows after some requests. */
  predicate SlotSoFar(slots: seq<Option<nat>>, slot: nat, ok: bool) {
    if ok then Common(slots, slot) else forall j :: 0 <= j < |slots| ==> slots[j] == None
  }

  lemma NextSlot(slots: seq<Option<nat>>, i: nat, slot: nat, ok: bool, slot': nat, ok': bool)
    requires i < |slots| && SlotSoFar(slots[..i], slot, ok)
    requires if slots[i].None? then slot' == slot && ok' == ok
             else slots[i] == Some(slot') && ok' && (ok ==> slot == slot')
    ensures SlotSoFar(slots[..i + 1], slot', ok')
  {
    assert slots[..i + 1] == slots[..i] + [slots[i]];
  }

  /** BatchSlot: it succeeds exactly when there is a common slot. */
  method BatchSlot(reqs: seq<Request>, draws: seq<nat>) returns (slot: nat, ok: bool)
    requires |draws| == |reqs|
    ensures ok ==> Common(ReqSlots(reqs, draws), slot)
    ensures !ok ==> forall s :: !Common(ReqSlots(reqs, draws), s)
  {
    slot, ok := 0, false;
    ghost var slots := ReqSlots(reqs, draws);
    for i := 0 to |reqs|
      invariant SlotSoFar(slots[..i], slot, ok)
    {
      var s := SlotOfReq(reqs, draws, i);
      if s.None? || (ok && slot == s.value) {
        NextSlot(slots, i, slot, ok, slot, ok);
      } else if !ok {
        NextSlot(slots, i, slot, ok, s.value, true);
        slot, ok := s.value, true;
      } else {
        TwoSlots(slots, i, slot, s.value);
        return 0, false;
      }
    }
    assert slots[..|reqs|] == slots;
  }

  lemma TwoSlots(slots: seq<Option<nat>>, i: nat, s: nat, t: nat)
    requires i < |slots| && Common(slots[..i], s) && slots[i] == Some(t) && s != t
    ensures forall u :: !Common(slots, u)
  {
    var j :| 0 <= j < i && slots[j] == Some(s);
    assert Conflict(slots);
    ConflictNotCommon(slots);
  }

  /** The first key there is. */
  predicate FirstKey(keys: seq<Option<Bytes>>, key: Bytes) {
    exists i :: 0 <= i < |keys| && keys[i] == Some(key) && forall j :: 0 <= j < i ==> keys[j] == None
  }

  lemma FirstKeyKept(keys: seq<Option<Bytes>>, i: nat, key: Bytes)
    requires i < |keys| && FirstKey(keys[..i], key)
    ensures FirstKey(keys[..i + 1], key)
  {
    var k :| 0 <= k < i && keys[..i][k] == Some(key) && forall j :: 0 <= j < k ==> keys[..i][j] == None;
    assert keys[..i + 1][k] == Some(key) && forall j :: 0 <= j < k ==> keys[..i + 1][j] == keys[..i][j];
  }

  lemma FirstKeyNow(keys: seq<Option<Bytes>>, i: nat, key: Bytes)
    requires i < |keys| && keys[i] == Some(key) && forall j :: 0 <= j < i ==> keys[j] == None
    ensures FirstKey(keys[..i + 1], key)
  {
    assert keys[..i + 1][i] == Some(key);
  }

  method KeyAndSlot(reqs: seq<Request>, i: nat) returns (k: Option<Bytes>, s: nat)
    requires i < |reqs|
    ensures k == Keys(reqs)[i] && KeySlots(reqs)[i] == (if k.None? then None else Some(s))
  {
    KeysAt(reqs, i);
    k, s := Key(reqs[i]), 0;
    if k.Some? {
      s := SlotOf(k.value);
    }
  }

  /** The slot stands where the key does. */
  predicate Paired(keys: seq<Option<Bytes>>, slots: seq<Option<nat>>, key: Bytes, slot: nat)
    requires |keys| == |slots|
  {
    exists i :: 0 <= i < |keys| && keys[i] == Some(key) && slots[i] == Some(slot)
  }

  lemma PairedKept(keys: seq<Option<Bytes>>, slots: seq<Option<nat>>, i: nat, key: Bytes, slot: nat)
    requires i < |keys| == |slots| && Paired(keys[..i], slots[..i], key, slot)
    ensures Paired(keys[..i + 1], slots[..i + 1], key, slot)
  {
    var f :| 0 <= f < i && keys[..i][f] == Some(key) && slots[..i][f] == Some(slot);
    assert keys[..i + 1][f] == Some(key) && slots[..i + 1][f] == Some(slot);
  }

  lemma PairedSlot(reqs: seq<Request>, key: Bytes, slot: nat)
    requires Paired(Keys(reqs), KeySlots(reqs), key, slot)
    ensures slot == Slot(key)
  {
    var i :| 0 <= i < |reqs| && Keys(reqs)[i] == Some(key) && KeySlots(reqs)[i] == Some(slot);
    KeysAt(reqs, i);
  }

  /** What the loop of BatchKey knows after some requests. */
  predicate KeySoFar(keys: seq<Option<Bytes>>, slots: seq<Option<nat>>, key: Bytes, slot: nat, ok: bool)
    requires |keys| == |slots|
  {
    if ok then FirstKey(keys, key) && Common(slots, slot) && Paired(keys, slots, key, slot)
    else forall j :: 0 <= j < |keys| ==> keys[j] == None && slots[j] == None
  }

  lemma NextWithoutKey(keys: seq<Option<Bytes>>, slots: seq<Option<nat>>, i: nat, key: Bytes, slot: nat, ok: bool)
    requires i < |keys| == |slots| && KeySoFar(keys[..i], slots[..i], key, slot, ok)
    requires if ok then slots[i] in {None, Some(slot)} else keys[i] == None && slots[i] == None
    ensures KeySoFar(keys[..i + 1], slots[..i + 1], key, slot, ok)
  {
    assert slots[..i + 1] == slots[..i] + [slots[i]];
    if ok {
      FirstKeyKept(keys, i, key);
      PairedKept(keys, slots, i, key, slot);
    }
  }

  lemma NextFirstKey(keys: seq<Option<Bytes>>, slots: seq<Option<nat>>, i: nat, key: Bytes, slot: nat, k: Bytes, s: nat)
    requires i < |keys| == |slots| && KeySoFar(keys[..i], slots[..i], key, slot, false)
    requires keys[i] == Some(k) && slots[i] == Some(s)
    ensures KeySoFar(keys[..i + 1], slots[..i + 1], k, s, true)
  {
    assert slots[..i + 1] == slots[..i] + [slots[i]];
    forall j | 0 <= j < i ensures keys[j] == None && slots[j] == None {
      assert keys[..i][j] == None && slots[..i][j] == None;
    }
    FirstKeyNow(keys, i, k);
    assert keys[..i + 1][i] == Some(k) && slots[..i + 1][i] == Some(s);
    assert forall j :: 0 <= j < i ==> slots[..i + 1][j] == slots[j];
  }

  /** BatchKey: it succeeds exactly when all keys share a slot, and returns the first of them. */
  method BatchKey(reqs: seq<Request>) returns (key: Bytes, ok: bool)
    ensures ok ==> Common(KeySlots(reqs), Slot(key)) && FirstKey(Keys(reqs), key)
    ensures !ok ==> forall s :: !Common(KeySlots(reqs), s)
  {
    key, ok := [], false;
    var slot := 0;
    ghost var keys, slots := Keys(reqs), KeySlots(reqs);
    for i := 0 to |reqs|
      invariant KeySoFar(keys[..i], slots[..i], key, slot, ok)
    {
      var k, s := KeyAndSlot(reqs, i);
      if k.None? || (ok && slot == s) {
        NextWithoutKey(keys, slots, i, key, slot, ok);
      } else if !ok {
        NextFirstKey(keys, slots, i, key, slot, k.value, s);
        key, slot, ok := k.value, s, true;
      } else {
        TwoSlots(slots, i, slot, s);
        return [], false;
      }
    }
    AllKeys(keys, slots, key, slot, ok);
    if ok { PairedSlot(reqs, key, slot); }
  }

  lemma AllKeys(keys: seq<Option<Bytes>>, slots: seq<Option<nat>>, key: Bytes, slot: nat, ok: bool)
    requires |keys| == |slots| && KeySoFar(keys[..|keys|], slots[..|slots|], key, slot, ok)
    ensures if ok then FirstKey(keys, key) && Common(slots, slot) && Paired(keys, slots, key, slot)
            else forall s :: !Common(slots, s)
  {
    assert slots[..|slots|] == slots && keys[..|keys|] == keys;
  }

  // ------------------------------------------------------- when the loops agree

  predicate HasRandomKey(reqs: seq<Request>) {
    exists i :: 0 <= i < |reqs| && reqs[i].cmd == RANDOMKEY
  }

  /** Without RANDOMKEY the two loops see the same slots. */
  lemma SameSlots(reqs: seq<Request>, draws: seq<nat>)
    requires |draws| == |reqs| && !HasRandomKey(reqs)
    ensures ReqSlots(reqs, draws) == KeySlots(reqs)
  {
    forall i | 0 <= i < |reqs| ensures ReqSlots(reqs, draws)[i] == KeySlots(reqs)[i] {
      ReqSlotsAt(reqs, draws, i);
      KeysAt(reqs, i);
    }
  }

  /** With it, BatchSlot sees the draws in its places. */
  lemma DrawnSlots(reqs: seq<Request>, draws: seq<nat>, i: nat)
    requires |draws| == |reqs| && i < |reqs|
    ensures if reqs[i].cmd == RANDOMKEY then ReqSlots(reqs, draws)[i] == Some(draws[i]) && KeySlots(reqs)[i] == None
            else ReqSlots(reqs, draws)[i] == KeySlots(reqs)[i]
  {
    ReqSlotsAt(reqs, draws, i);
    KeysAt(reqs, i);
  }

  /** BatchSlot succeeds; BatchKey succeeds. */
  ghost predicate Found(slots: seq<Option<nat>>) {
    exists s :: Common(slots, s)
  }

  lemma ConflictKept(reqs: seq<Request>, draws: seq<nat>)
    requires |draws| == |reqs| && Conflict(KeySlots(reqs))
    ensures !Found(ReqSlots(reqs, draws)) && !Found(KeySlots(reqs))
  {
    var keys, slots := KeySlots(reqs), ReqSlots(reqs, draws);
    var i, j :| 0 <= i < |keys| && 0 <= j < |keys| && keys[i].Some? && keys[j].Some? && keys[i] != keys[j];
    DrawnSlots(reqs, draws, i);
    DrawnSlots(reqs, draws, j);
    assert slots[i] == keys[i] && slots[j] == keys[j];
    ConflictNotCommon(keys);
    ConflictNotCommon(slots);
  }

  /** All draws alike. */
  function Draws(n: nat, s: nat): (d: seq<nat>)
    ensures |d| == n && forall i :: 0 <= i < n ==> d[i] == s
  {
    seq(n, _ => s)
  }

  predicate AreSlots(draws: seq<nat>) {
    forall i :: 0 <= i < |draws| ==> draws[i] < NumSlots
  }

  /** Draws that spoil a slot the keys agree on. */
  lemma RandomKeySpoils(reqs: seq<Request>, r: nat, i: nat) returns (draws: seq<nat>)
    requires r < |reqs| && reqs[r].cmd == RANDOMKEY
    requires i < |reqs| && KeySlots(reqs)[i].Some? && !Conflict(KeySlots(reqs))
    ensures |draws| == |reqs| && AreSlots(draws)
    ensures Found(KeySlots(reqs)) && !Found(ReqSlots(reqs, draws))
  {
    var s := KeySlots(reqs)[i].value;
    draws := Draws(|reqs|, if s == 0 then 1 else 0);
    DrawnSlots(reqs, draws, i);
    DrawnSlots(reqs, draws, r);
    assert Common(KeySlots(reqs), s);
    var slots := ReqSlots(reqs, draws);
    assert slots[i].Some? && slots[r].Some? && slots[i] != slots[r];
    ConflictNotCommon(slots);
  }

  /** Draws that supply a slot where there is no key. */
  lemma RandomKeySupplies(reqs: seq<Request>, r: nat) returns (draws: seq<nat>)
    requires r < |reqs| && reqs[r].cmd == RANDOMKEY
    requires forall i :: 0 <= i < |reqs| ==> KeySlots(reqs)[i] == None
    ensures |draws| == |reqs| && AreSlots(draws)
    ensures !Found(KeySlots(reqs)) && Found(ReqSlots(reqs, draws))
  {
    draws := Draws(|reqs|, 0);
    var slots := ReqSlots(reqs, draws);
    forall i | 0 <= i < |reqs| ensures slots[i] in {None, Some(0)} {
      DrawnSlots(reqs, draws, i);
    }
    DrawnSlots(reqs, draws, r);
    assert slots[r] == Some(0);
    assert Common(slots, 0);
  }

  /** The two loops succeed or fail together on these draws. */
  ghost predicate Together(reqs: seq<Request>, draws: seq<nat>)
    requires |draws| == |reqs|
  {
    Found(ReqSlots(reqs, draws)) <==> Found(KeySlots(reqs))
  }

  /** The two loops succeed together on every draw exactly when no request is RANDOMKEY, or the keys
      are at odds anyway. */
  lemma BatchLoopsAgreeIff(reqs: seq<Request>)
    ensures (forall draws | |draws| == |reqs| && AreSlots(draws) :: Together(reqs, draws))
       <==> !HasRandomKey(reqs) || Conflict(KeySlots(reqs))
  {
    if !HasRandomKey(reqs) {
      forall draws: seq<nat> | |draws| == |reqs| ensures Together(reqs, draws) {
        SameSlots(reqs, draws);
      }
    } else if Conflict(KeySlots(reqs)) {
      forall draws: seq<nat> | |draws| == |reqs| ensures Together(reqs, draws) {
        ConflictKept(reqs, draws);
      }
    } else {
      var r :| 0 <= r < |reqs| && reqs[r].cmd == RANDOMKEY;
      var draws;
      if i :| 0 <= i < |reqs| && KeySlots(reqs)[i].Some? {
        draws := RandomKeySpoils(reqs, r, i);
      } else {
        draws := RandomKeySupplies(reqs, r);
      }
      assert !Together(reqs, draws);
    }
  }
}
