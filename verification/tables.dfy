/** The two lookup tables the source fills once at start-up (`init`): the
    ASCII lower-casing table and the inverse of the multiplicative hash that
    turns a single set bit into its index. */
module Tables {
  import opened Bytes

  /** The 64-bit multiplier of the source (a de Bruijn sequence). */
  const DeBruijn64: bv64 := 0x03F566ED27179461

  /** The top six bits of `DeBruijn64 << i`, the hash of bit `i`: its table slot. */
  function Slot(i: nat): (s: bv64)
    requires i < 64
    ensures s < 64
  {
    (DeBruijn64 << Amount(i)) >> 58
  }

  /** A shift amount below 64 as a bit-vector. */
  function Amount(i: nat): (k: bv8)
    requires i < 64
    ensures k < 64
  {
    i as bv8
  }

  function HashSlot(i: nat): (s: nat)
    requires i < 64
    ensures s < 64
  {
    Slot(i) as nat
  }

  /** The slots of bits `i .. 63` are pairwise distinct and none of them is in `seen`. */
  ghost predicate FreshFrom(i: nat, seen: bv64)
    decreases 64 - i
  {
    i >= 64 || ((seen >> Slot(i)) & 1 == 0 && FreshFrom(i + 1, seen | (1 << Slot(i))))
  }

  /** The 64 slots are distinct. The proof is a computation, checked eight
      steps at a time; each hex constant is the set of slots taken by the bits
      below the step's index. */
  lemma SlotsFresh(seen: bv64)
    requires seen == 0
    ensures FreshFrom(0, seen)
  {
    SlotsFreshFrom0();
  }

  lemma SlotsFreshFrom56()
    ensures FreshFrom(56, 0xFFFEFFFCFEFEFEEB)
  {
    assert FreshFrom(63, 0xFFFFFFFEFFFFFFFF);
    assert FreshFrom(62, 0xFFFFFFFEFFFEFFFF);
    assert FreshFrom(61, 0xFFFFFFFEFFFEFEFF);
    assert FreshFrom(60, 0xFFFFFFFEFFFEFEEF);
    assert FreshFrom(59, 0xFFFFFFFEFFFEFEEB);
    assert FreshFrom(58, 0xFFFFFFFCFFFEFEEB);
    assert FreshFrom(57, 0xFFFEFFFCFFFEFEEB);
    assert FreshFrom(56, 0xFFFEFFFCFEFEFEEB);
  }

  lemma SlotsFreshFrom48()
    ensures FreshFrom(48, 0xFFFEFED4FEECEAAB)
  {
    SlotsFreshFrom56();
    assert FreshFrom(55, 0xFFFEFFFCFEFEEEEB);
    assert FreshFrom(54, 0xFFFEFFFCFEFEEEAB);
    assert FreshFrom(53, 0xFFFEFFF4FEFEEEAB);
    assert FreshFrom(52, 0xFFFEFFF4FEFCEEAB);
    assert FreshFrom(51, 0xFFFEFEF4FEFCEEAB);
    assert FreshFrom(50, 0xFFFEFEF4FEECEEAB);
    assert FreshFrom(49, 0xFFFEFEF4FEECEAAB);
    assert FreshFrom(48, 0xFFFEFED4FEECEAAB);
  }

  lemma SlotsFreshFrom40()
    ensures FreshFrom(40, 0xEDFA7ED4BE6CE28B)
  {
    SlotsFreshFrom48();
    assert FreshFrom(47, 0xFFFAFED4FEECEAAB);
    assert FreshFrom(46, 0xFDFAFED4FEECEAAB);
    assert FreshFrom(45, 0xEDFAFED4FEECEAAB);
    assert FreshFrom(44, 0xEDFAFED4BEECEAAB);
    assert FreshFrom(43, 0xEDFA7ED4BEECEAAB);
    assert FreshFrom(42, 0xEDFA7ED4BE6CEAAB);
    assert FreshFrom(41, 0xEDFA7ED4BE6CE2AB);
    assert FreshFrom(40, 0xEDFA7ED4BE6CE28B);
  }

  lemma SlotsFreshFrom32()
    ensures FreshFrom(32, 0xECF87E50AE64A08B)
  {
    SlotsFreshFrom40();
    assert FreshFrom(39, 0xEDFA7ED0BE6CE28B);
    assert FreshFrom(38, 0xEDF87ED0BE6CE28B);
    assert FreshFrom(37, 0xECF87ED0BE6CE28B);
    assert FreshFrom(36, 0xECF87ED0AE6CE28B);
    assert FreshFrom(35, 0xECF87ED0AE6CA28B);
    assert FreshFrom(34, 0xECF87E50AE6CA28B);
    assert FreshFrom(33, 0xECF87E50AE64A28B);
    assert FreshFrom(32, 0xECF87E50AE64A08B);
  }

  lemma SlotsFreshFrom24()
    ensures FreshFrom(24, 0xE4A85C40AA60A08B)
  {
    SlotsFreshFrom32();
    assert FreshFrom(31, 0xECF87E40AE64A08B);
    assert FreshFrom(30, 0xECF87E40AE60A08B);
    assert FreshFrom(29, 0xECF87C40AE60A08B);
    assert FreshFrom(28, 0xECE87C40AE60A08B);
    assert FreshFrom(27, 0xECE87C40AA60A08B);
    assert FreshFrom(26, 0xECE85C40AA60A08B);
    assert FreshFrom(25, 0xECA85C40AA60A08B);
    assert FreshFrom(24, 0xE4A85C40AA60A08B);
  }

  lemma SlotsFreshFrom16()
    ensures FreshFrom(16, 0xE4201C008060808B)
  {
    SlotsFreshFrom24();
    assert FreshFrom(23, 0xE4A85C408A60A08B);
    assert FreshFrom(22, 0xE4A81C408A60A08B);
    assert FreshFrom(21, 0xE4281C408A60A08B);
    assert FreshFrom(20, 0xE4281C408260A08B);
    assert FreshFrom(19, 0xE4281C408260808B);
    assert FreshFrom(18, 0xE4281C008260808B);
    assert FreshFrom(17, 0xE4201C008260808B);
    assert FreshFrom(16, 0xE4201C008060808B);
  }

  lemma SlotsFreshFrom8()
    ensures FreshFrom(8, 0xC00000008000808B)
  {
    SlotsFreshFrom16();
    assert FreshFrom(15, 0xE4200C008060808B);
    assert FreshFrom(14, 0xE4200C008020808B);
    assert FreshFrom(13, 0xE42004008020808B);
    assert FreshFrom(12, 0xE42004008000808B);
    assert FreshFrom(11, 0xE42000008000808B);
    assert FreshFrom(10, 0xE40000008000808B);
    assert FreshFrom(9, 0xE00000008000808B);
    assert FreshFrom(8, 0xC00000008000808B);
  }

  lemma SlotsFreshFrom0()
    ensures FreshFrom(0, 0x0000000000000000)
  {
    SlotsFreshFrom8();
    assert FreshFrom(7, 0x800000008000808B);
    assert FreshFrom(6, 0x000000008000808B);
    assert FreshFrom(5, 0x000000000000808B);
    assert FreshFrom(4, 0x000000000000008B);
    assert FreshFrom(3, 0x000000000000000B);
    assert FreshFrom(2, 0x0000000000000003);
    assert FreshFrom(1, 0x0000000000000001);
    assert FreshFrom(0, 0x0000000000000000);
  }

  lemma SeenGrows(seen: bv64, s: bv64, t: bv64)
    requires s < 64 && t < 64
    ensures Taken(seen | (1 << s), t) <==> Taken(seen, t) || t == s
  {
  }

  /** Multiplying by a single bit `1 << k` is shifting by `k`. */
  lemma MulIsShift(k: nat)
    requires k < 16
    ensures ((1 as bv64) << k) * DeBruijn64 == DeBruijn64 << k
  {
  }

  /** The matcher's slot computation `(x * DeBruijn64) >> 58` for `x == 1 << k` is the slot of bit `k`. */
  lemma SlotOfBit(k: nat)
    requires k < 16
    ensures ((((1 as bv64) << k) * DeBruijn64) >> 58) == Slot(k)
  {
    MulIsShift(k);
  }

  /** The global tables, filled once by `Init`. */
  class Tables {
    const bitHashTable: array<int>
    const largeToSmallTable: array<Byte>

    ghost predicate Ready()
      reads this, bitHashTable, largeToSmallTable
    {
      && bitHashTable.Length == 64
      && largeToSmallTable.Length == 256
      && (forall c :: 0 <= c < 256 ==> largeToSmallTable[c] == Lower(c as Byte))
      && (forall i :: 0 <= i < 64 ==> bitHashTable[HashSlot(i)] == i)
    }

    /** `init`: bit `i`'s hash slot holds `i`; byte `c` maps to its lower-case form. */
    constructor Init()
      ensures Ready()
      ensures fresh(bitHashTable) && fresh(largeToSmallTable)
    {
      var bits := FillBitHashTable();
      var lower := FillLargeToSmallTable();
      bitHashTable := bits;
      largeToSmallTable := lower;
    }
  }

  /** Slot `s` is marked in the set of taken slots `seen`. */
  predicate Taken(seen: bv64, s: bv64)
    requires s < 64
  {
    (seen >> s) & 1 == 1
  }

  /** Given the slots of bits below `i` are marked in `seen`, the fresh slots
      of bits `i .. 63` differ from every slot of a lower bit. */
  lemma {:induction false} FreshDistinct(i: nat, seen: bv64)
    requires i <= 64 && FreshFrom(i, seen)
    requires forall k :: 0 <= k < i ==> Taken(seen, Slot(k))
    ensures forall j, k :: 0 <= j < k < 64 && i <= k ==> Slot(j) != Slot(k)
    decreases 64 - i
  {
    if i < 64 {
      SlotIsNew(i, seen);
      MarkKeepsFresh(i, seen);
      MarkKeepsTaken(i, seen);
      FreshDistinct(i + 1, seen | (1 << Slot(i)));
    }
  }

  /** The fresh slot of bit `i` is none of the slots already taken. */
  lemma SlotIsNew(i: nat, seen: bv64)
    requires i < 64 && FreshFrom(i, seen)
    requires forall k :: 0 <= k < i ==> Taken(seen, Slot(k))
    ensures forall k :: 0 <= k < i ==> Slot(k) != Slot(i)
  {
    assert !Taken(seen, Slot(i));
  }

  /** Marking the slot of bit `i` keeps the slots of bits `i + 1 .. 63` fresh. */
  lemma MarkKeepsFresh(i: nat, seen: bv64)
    requires i < 64 && FreshFrom(i, seen)
    ensures FreshFrom(i + 1, seen | (1 << Slot(i)))
  {
  }

  /** The 64 hash slots are pairwise distinct. */
  lemma SlotsDistinct()
    ensures forall j, k :: 0 <= j < k < 64 ==> HashSlot(j) != HashSlot(k)
  {
    SlotsFresh(0);
    FreshDistinct(0, 0);
    forall j, k | 0 <= j < k < 64 ensures HashSlot(j) != HashSlot(k) {
      AsIntInjective(Slot(j), Slot(k));
    }
  }

  lemma SlotsBelowDiffer(i: nat)
    requires i < 64
    ensures forall k :: 0 <= k < i ==> HashSlot(k) != HashSlot(i)
  {
    SlotsDistinct();
  }

  /** Distinct bit-vectors stay distinct as integers. */
  lemma AsIntInjective(a: bv64, b: bv64)
    requires a != b
    ensures a as int != b as int
  {
    assert (a as int) as bv64 == a;
    assert (b as int) as bv64 == b;
  }

  /** Marking the slot of bit `i` keeps the slots of bits `0 .. i - 1` marked. */
  lemma MarkKeepsTaken(i: nat, seen: bv64)
    requires i < 64
    requires forall k :: 0 <= k < i ==> Taken(seen, Slot(k))
    ensures forall k :: 0 <= k <= i ==> Taken(seen | (1 << Slot(i)), Slot(k))
  {
    forall k | 0 <= k <= i ensures Taken(seen | (1 << Slot(i)), Slot(k)) {
      SeenGrows(seen, Slot(i), Slot(k));
    }
  }

  /** Shifting the hash of bit `i` left by one gives the hash of bit `i + 1`. */
  lemma ShiftStep(i: nat)
    requires i < 63
    ensures (DeBruijn64 << Amount(i)) << 1 == DeBruijn64 << Amount(i + 1)
  {
    ShiftStepAt(Amount(i));
    AmountStep(i);
  }

  lemma AmountStep(i: nat)
    requires i < 63
    ensures Amount(i) + 1 == Amount(i + 1)
  {
    assert (i as bv8) + 1 == (i + 1) as bv8 by { ByteCastStep(i); }
  }

  /** Adding one commutes with the cast to a byte for the shift amounts. */
  lemma ByteCastStep(i: nat)
    requires i < 63
    ensures (i as bv8) + 1 == (i + 1) as bv8
  {
  }

  lemma ShiftStepAt(k: bv8)
    requires k < 63
    ensures (DeBruijn64 << k) << 1 == DeBruijn64 << (k + 1)
  {
  }

  lemma HashIsSlot(i: nat, hash: bv64)
    requires i < 64 && hash == DeBruijn64 << Amount(i)
    ensures (hash >> 58) as int == HashSlot(i)
  {
  }

  /** The table after the first `i` turns of the first loop of `init`. */
  ghost function Filled(i: nat): (s: seq<int>)
    requires i <= 64
    ensures |s| == 64
  {
    if i == 0 then seq(64, _ => 0) else Filled(i - 1)[HashSlot(i - 1) := i - 1]
  }

  /** After `i` turns, bit `k < i` is found at its slot: no later bit's slot
      overwrote it. */
  lemma {:induction false} FilledPlaces(i: nat)
    requires i <= 64
    ensures forall k :: 0 <= k < i ==> Filled(i)[HashSlot(k)] == k
  {
    if i > 0 {
      FilledPlaces(i - 1);
      SlotsBelowDiffer(i - 1);
    }
  }

  /** The first loop of `init`: walk the hash of `1 << i` by shifting and store `i` at its slot. */
  method FillBitHashTable() returns (t: array<int>)
    ensures fresh(t) && t.Length == 64
    ensures forall i :: 0 <= i < 64 ==> t[HashSlot(i)] == i
  {
    t := new int[64](_ => 0);
    var hash: bv64 := DeBruijn64;
    for i := 0 to 64
      invariant i < 64 ==> hash == DeBruijn64 << Amount(i)
      invariant t[..] == Filled(i)
    {
      PlaceBit(t, i, hash);
      hash := ShiftHash(i, hash);
    }
    FilledPlaces(64);
  }

  /** `hash <<= 1`: the hash of the next bit. */
  method ShiftHash(i: nat, hash: bv64) returns (next: bv64)
    requires i < 64 && hash == DeBruijn64 << Amount(i)
    ensures i + 1 < 64 ==> next == DeBruijn64 << Amount(i + 1)
  {
    if i < 63 {
      ShiftStep(i);
    }
    next := hash << 1;
  }

  /** `bitHashTable[hash>>58] = i`. */
  method PlaceBit(t: array<int>, i: nat, hash: bv64)
    requires t.Length == 64 && i < 64 && hash == DeBruijn64 << Amount(i)
    modifies t
    ensures t[..] == old(t[..])[HashSlot(i) := i]
  {
    var slot := hash >> 58;
    HashIsSlot(i, hash);
    t[slot as int] := i;
  }

  /** The second loop of `init`: the ASCII lower-casing table. */
  method FillLargeToSmallTable() returns (t: array<Byte>)
    ensures fresh(t) && t.Length == 256
    ensures forall c :: 0 <= c < 256 ==> t[c] == Lower(c as Byte)
  {
    t := new Byte[256];
    for i := 0 to 256
      invariant forall c :: 0 <= c < i ==> t[c] == Lower(c as Byte)
    {
      var c := i as Byte;
      if 'A' as Byte <= c <= 'Z' as Byte {
        c := c + ('a' as Byte - 'A' as Byte);
      }
      t[i] := c;
    }
  }
}
