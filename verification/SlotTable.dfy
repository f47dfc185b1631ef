/** The packed slot table of rediscluster/mapping.go: two slots in each 32-bit word, fourteen bits of
    shard number and one "asking" bit for each. */
module SlotTable {

  const NUM_SLOTS: nat := 16384

  // off is 16 for an odd slot and 0 for an even one.

  /** uint16((sh32 >> off) & 0x3fff) */
  function ShardBits(word: bv32, odd: bool): bv16 {
    if odd then ((word >> 16) & 0x3fff) as bv16 else (word & 0x3fff) as bv16
  }

  /** sh32 & (masterOnlyFlag << off) != 0 */
  predicate AskingBit(word: bv32, odd: bool) {
    if odd then word & (0x4000 << 16) != 0 else word & 0x4000 != 0
  }

  /** sh32 &^= 0xffff << off; sh32 |= uint32(shard) << off */
  function Stored(word: bv32, odd: bool, shard: bv16): bv32 {
    if odd then (word & !((0xffff as bv32) << 16)) | ((shard as bv32) << 16)
    else (word & !(0xffff as bv32)) | (shard as bv32)
  }

  /** sh32 |= masterOnlyFlag << off */
  function Flagged(word: bv32, odd: bool): bv32 {
    if odd then word | (0x4000 << 16) else word | 0x4000
  }

  /** What one slot means. */
  datatype Entry = Entry(shard: nat, asking: bool)

  function EntryOf(word: bv32, odd: bool): Entry {
    Entry(ShardBits(word, odd) as nat, AskingBit(word, odd))
  }

  /** From `before` to `after` only this slot changed. */
  predicate OnlySlot(before: seq<Entry>, after: seq<Entry>, slot: nat) {
    |after| == |before| && forall i :: 0 <= i < |before| && i != slot ==> after[i] == before[i]
  }

  // ---------------------------------------------------------- shard numbers

  lemma Doubled(b: bv16)
    requires b as nat < 0x8000
    ensures b < 0x8000 && (b << 1) as nat == 2 * (b as nat) && ((b << 1) | 1) as nat == 2 * (b as nat) + 1
  {
    assert b < 0x8000;
  }

  /** uint16(n) of a number that fits. */
  method Uint16(n: nat) returns (b: bv16)
    requires n < 0x1_0000
    ensures b as nat == n
  {
    if n == 0 {
      return 0;
    }
    b := Uint16(n / 2);
    Doubled(b);
    b := if n % 2 == 0 then b << 1 else (b << 1) | 1;
  }

  /** Numbers of shards fit their field. */
  lemma FitsField(b: bv16)
    requires b as nat < 0x4000
    ensures b < 0x4000 && b & 0x3fff == b
  {
    assert b < 0x4000;
  }

  // ------------------------------------------------------ the four operations

  lemma StoredEven(word: bv32, shard: bv16, r: bv32)
    requires shard < 0x4000 && r == (word & !(0xffff as bv32)) | (shard as bv32)
    ensures (r & 0x3fff) as bv16 == shard && r & 0x4000 == 0
    ensures r & 0xffff0000 == word & 0xffff0000
  {}

  lemma StoredOdd(word: bv32, shard: bv16, r: bv32)
    requires shard < 0x4000 && r == (word & !((0xffff as bv32) << 16)) | ((shard as bv32) << 16)
    ensures ((r >> 16) & 0x3fff) as bv16 == shard && r & (0x4000 << 16) == 0
    ensures r & 0xffff == word & 0xffff
  {}

  lemma SameLow(v: bv32, w: bv32)
    requires v & 0xffff == w & 0xffff
    ensures v & 0x3fff == w & 0x3fff && v & 0x4000 == w & 0x4000
  {}

  lemma SameHigh(v: bv32, w: bv32)
    requires v & 0xffff0000 == w & 0xffff0000
    ensures (v >> 16) & 0x3fff == (w >> 16) & 0x3fff && v & (0x4000 << 16) == w & (0x4000 << 16)
  {}

  lemma StoredReadsEven(word: bv32, shard: bv16)
    requires shard < 0x4000
    ensures EntryOf(Stored(word, false, shard), false) == Entry(shard as nat, false)
    ensures EntryOf(Stored(word, false, shard), true) == EntryOf(word, true)
  {
    var r := Stored(word, false, shard);
    StoredEven(word, shard, r);
    SameHigh(r, word);
  }

  lemma StoredReadsOdd(word: bv32, shard: bv16)
    requires shard < 0x4000
    ensures EntryOf(Stored(word, true, shard), true) == Entry(shard as nat, false)
    ensures EntryOf(Stored(word, true, shard), false) == EntryOf(word, false)
  {
    var r := Stored(word, true, shard);
    StoredOdd(word, shard, r);
    SameLow(r, word);
  }

  /** A store of a shard number reads back, clears the mark of its slot, and leaves the other slot of the
      word as it was. */
  lemma StoredReads(word: bv32, odd: bool, shard: bv16)
    requires shard < 0x4000
    ensures EntryOf(Stored(word, odd, shard), odd) == Entry(shard as nat, false)
    ensures EntryOf(Stored(word, odd, shard), !odd) == EntryOf(word, !odd)
  {
    if odd { StoredReadsOdd(word, shard); } else { StoredReadsEven(word, shard); }
  }

  lemma FlagEven(word: bv32, r: bv32)
    requires r == word | 0x4000
    ensures r & 0x4000 != 0 && r & 0x3fff == word & 0x3fff
    ensures r & 0xffff0000 == word & 0xffff0000
  {}

  lemma FlagOdd(word: bv32, r: bv32)
    requires r == word | (0x4000 << 16)
    ensures r & (0x4000 << 16) != 0 && (r >> 16) & 0x3fff == (word >> 16) & 0x3fff
    ensures r & 0xffff == word & 0xffff
  {}

  lemma FlaggedReadsEven(word: bv32)
    ensures EntryOf(Flagged(word, false), false) == EntryOf(word, false).(asking := true)
    ensures EntryOf(Flagged(word, false), true) == EntryOf(word, true)
  {
    var r := Flagged(word, false);
    FlagEven(word, r);
    SameHigh(r, word);
  }

  lemma FlaggedReadsOdd(word: bv32)
    ensures EntryOf(Flagged(word, true), true) == EntryOf(word, true).(asking := true)
    ensures EntryOf(Flagged(word, true), false) == EntryOf(word, false)
  {
    var r := Flagged(word, true);
    FlagOdd(word, r);
    SameLow(r, word);
  }

  /** A mark sets the slot's own asking bit and changes nothing else. */
  lemma FlaggedReads(word: bv32, odd: bool)
    ensures EntryOf(Flagged(word, odd), odd) == EntryOf(word, odd).(asking := true)
    ensures EntryOf(Flagged(word, odd), !odd) == EntryOf(word, !odd)
  {
    if odd { FlaggedReadsOdd(word); } else { FlaggedReadsEven(word); }
  }

  class Table {
    const slots: array<bv32>

    ghost predicate Valid()
    {
      slots.Length == NUM_SLOTS / 2
    }

    /** The table as a plain map from slots to entries. */
    ghost function Entries(): (es: seq<Entry>)
      requires Valid()
      reads slots
      ensures |es| == NUM_SLOTS
    {
      seq(NUM_SLOTS, i requires 0 <= i < NUM_SLOTS reads slots => EntryOf(slots[i / 2], i % 2 == 1))
    }

    constructor ()
      ensures Valid() && fresh(slots)
      ensures forall i :: 0 <= i < NUM_SLOTS ==> Entries()[i] == Entry(0, false)
    {
      slots := new bv32[NUM_SLOTS / 2](_ => 0);
      new;
      ZeroWord();
    }

    /** slot2shardno */
    method ShardOf(slot: nat) returns (shard: nat)
      requires Valid() && slot < NUM_SLOTS
      ensures shard == Entries()[slot].shard
    {
      var sh16 := ShardBits(slots[slot / 2], slot % 2 == 1);
      shard := sh16 as nat;
    }

    /** slotIsAsking */
    method IsAsking(slot: nat) returns (asking: bool)
      requires Valid() && slot < NUM_SLOTS
      ensures asking == Entries()[slot].asking
    {
      asking := AskingBit(slots[slot / 2], slot % 2 == 1);
    }

    /** One word is replaced by one that differs from it, as entries, in one slot. */
    method PutWord(pos: nat, odd: bool, word: bv32)
      requires Valid() && pos < slots.Length && EntryOf(word, !odd) == EntryOf(slots[pos], !odd)
      modifies slots
      ensures Entries() == old(Entries())[2 * pos + (if odd then 1 else 0) := EntryOf(word, odd)]
    {
      ghost var slot := 2 * pos + if odd then 1 else 0;
      slots[pos] := word;
      OnlyThisSlot(old(Entries()), Entries(), slot);
    }

    /** slotSetShard: the slot reads the given shard from now on; a mark survives only if it read that
        shard before; every other slot, the other one of the word included, is as it was. */
    method SetShard(slot: nat, shard: nat)
      requires Valid() && slot < NUM_SLOTS && shard < 0x4000
      modifies slots
      ensures Entries()[slot].shard == shard
      ensures Entries()[slot].asking <==> old(Entries())[slot].asking && old(Entries())[slot].shard == shard
      ensures OnlySlot(old(Entries()), Entries(), slot)
    {
      ghost var before := Entries();
      var bits := ShardOf(slot);
      if bits != shard {
        Store(slot, shard);
        UpdatedOnly(before, Entries(), slot, Entry(shard, false));
      }
    }

    /** The store of a real remap. */
    method Store(slot: nat, shard: nat)
      requires Valid() && slot < NUM_SLOTS && shard < 0x4000
      modifies slots
      ensures Entries() == old(Entries())[slot := Entry(shard, false)]
    {
      var number := Uint16(shard);
      FitsField(number);
      var pos, odd := slot / 2, slot % 2 == 1;
      var sh32 := StoredIn(slots[pos], odd, number);
      PutWord(pos, odd, sh32);
    }

    /** slotMarkAsking */
    method MarkAsking(slot: nat)
      requires Valid() && slot < NUM_SLOTS
      modifies slots
      ensures Entries() == old(Entries())[slot := old(Entries())[slot].(asking := true)]
    {
      var marked := IsAsking(slot);
      if !marked {
        var pos, odd := slot / 2, slot % 2 == 1;
        var sh32 := FlaggedIn(slots[pos], odd);
        PutWord(pos, odd, sh32);
      }
    }
  }

  method StoredIn(word: bv32, odd: bool, shard: bv16) returns (r: bv32)
    requires shard < 0x4000
    ensures EntryOf(r, odd) == Entry(shard as nat, false) && EntryOf(r, !odd) == EntryOf(word, !odd)
  {
    StoredReads(word, odd, shard);
    r := Stored(word, odd, shard);
  }

  method FlaggedIn(word: bv32, odd: bool) returns (r: bv32)
    ensures EntryOf(r, odd) == EntryOf(word, odd).(asking := true) && EntryOf(r, !odd) == EntryOf(word, !odd)
  {
    FlaggedReads(word, odd);
    r := Flagged(word, odd);
  }

  lemma ZeroWord()
    ensures EntryOf(0, false) == Entry(0, false) == EntryOf(0, true)
  {}

  lemma OnlyThisSlot(a: seq<Entry>, b: seq<Entry>, slot: nat)
    requires |a| == |b| && slot < |a|
    requires forall i :: 0 <= i < |a| && i != slot ==> a[i] == b[i]
    ensures b == a[slot := b[slot]]
  {}

  lemma UpdatedOnly(a: seq<Entry>, b: seq<Entry>, slot: nat, e: Entry)
    requires slot < |a| && b == a[slot := e]
    ensures b[slot] == e && OnlySlot(a, b, slot)
  {}
}
