/** Candidate masks of the bitmap key matcher. The source keeps them in an
    `int8` or an `int16`; here both are a `bv16` tagged with their width, and
    an 8-bit table is widened before matching (`WidenKeepsBits` shows nothing
    is lost). Bit facts are proved over bit-vector shift amounts and bridged to
    `nat` indices. */
module Masks {

  datatype Width = W8 | W16

  function Bits(w: Width): (n: nat)
    ensures n == 8 || n == 16
  {
    if w == W8 then 8 else 16
  }

  /** The starting mask, `math.MaxInt8` or `math.MaxInt16`: every bit below the top one. */
  function Top(w: Width): (m: bv16)
    ensures forall k :: 0 <= k < 16 ==> (Bit(m, k) <==> k < Bits(w) - 1)
  {
    var m: bv16 := if w == W8 then 0x7F else 0x7FFF;
    forall k | 0 <= k < 16 ensures Bit(m, k) <==> k < Bits(w) - 1 {
      BitBridge(m, k);
      TopBits(w == W8, k as bv16);
    }
    m
  }

  /** Bit `k` of `m` is set. */
  predicate Bit(m: bv16, k: nat)
    requires k < 16
  {
    (m >> k) & 1 == 1
  }

  predicate BitAt(m: bv16, k: bv16)
    requires k < 16
  {
    (m >> k) & 1 == 1
  }

  lemma BitBridge(m: bv16, k: nat)
    requires k < 16
    ensures Bit(m, k) == BitAt(m, k as bv16)
  {
  }

  lemma TopBits(narrow: bool, k: bv16)
    requires k < 16
    ensures BitAt(if narrow then 0x7F else 0x7FFF, k) <==> k < (if narrow then 7 else 15)
  {
  }

  lemma AndBitAt(a: bv16, b: bv16, k: bv16)
    requires k < 16
    ensures BitAt(a & b, k) <==> BitAt(a, k) && BitAt(b, k)
  {
  }

  lemma AndBit(a: bv16, b: bv16, k: nat)
    requires k < 16
    ensures Bit(a & b, k) <==> Bit(a, k) && Bit(b, k)
  {
    BitBridge(a & b, k);
    BitBridge(a, k);
    BitBridge(b, k);
    AndBitAt(a, b, k as bv16);
  }

  lemma SetBitAt(a: bv16, i: bv16, k: bv16)
    requires i < 16 && k < 16
    ensures BitAt(a | (1 << i), k) <==> BitAt(a, k) || k == i
  {
  }

  /** Or-ing in `1 << i`, as the bitmap builder does, sets bit `i` and no other. */
  lemma SetBit(a: bv16, i: nat, k: nat)
    requires i < 16 && k < 16
    ensures Bit(a | ((1 as bv16) << i), k) <==> Bit(a, k) || k == i
  {
    BitBridge(a | ((1 as bv16) << i), k);
    BitBridge(a, k);
    assert (1 as bv16) << i == (1 as bv16) << (i as bv16);
    SetBitAt(a, i as bv16, k as bv16);
  }

  lemma ZeroBitAt(k: bv16)
    requires k < 16
    ensures !BitAt(0, k)
  {
  }

  lemma ZeroBit(k: nat)
    requires k < 16
    ensures !Bit(0, k)
  {
    BitBridge(0, k);
    ZeroBitAt(k as bv16);
  }

  /** A mask with no bit set is zero. */
  lemma NoBitsIsZero(m: bv16)
    requires forall k :: 0 <= k < 16 ==> !Bit(m, k)
    ensures m == 0
  {
    assert !Bit(m, 0) && !Bit(m, 1) && !Bit(m, 2) && !Bit(m, 3);
    assert !Bit(m, 4) && !Bit(m, 5) && !Bit(m, 6) && !Bit(m, 7);
    assert !Bit(m, 8) && !Bit(m, 9) && !Bit(m, 10) && !Bit(m, 11);
    assert !Bit(m, 12) && !Bit(m, 13) && !Bit(m, 14) && !Bit(m, 15);
  }

  /** A mask whose bits are all below 8 fits in a byte. */
  lemma LowBitsFitByte(m: bv16)
    requires forall k :: 8 <= k < 16 ==> !Bit(m, k)
    ensures m < 0x100
  {
    assert !Bit(m, 8) && !Bit(m, 9) && !Bit(m, 10) && !Bit(m, 11);
    assert !Bit(m, 12) && !Bit(m, 13) && !Bit(m, 14) && !Bit(m, 15);
  }

  /** Every set bit of `m` is an index below `n`. */
  predicate Fits(m: bv16, n: nat) {
    forall k :: 0 <= k < 16 && Bit(m, k) ==> k < n
  }

  /** Bits `0 .. k-1` of a mask. */
  function LowMask(k: bv16): bv16
    requires k <= 16
  {
    if k == 16 then 0xFFFF else (1 << k) - 1
  }

  lemma LowMaskStep(m: bv16, k: bv16)
    requires k < 16
    requires m & LowMask(k) == 0 && !BitAt(m, k)
    ensures m & LowMask(k + 1) == 0
  {
  }

  lemma IsolateAt(m: bv16, k: bv16)
    requires k < 16
    requires BitAt(m, k) && m & LowMask(k) == 0
    ensures m & -m == 1 << k
  {
  }

  /** The index of the lowest set bit of a non-zero mask. */
  function LowestBit(m: bv16): (k: nat)
    requires m != 0
    ensures k < 16 && Bit(m, k)
    ensures forall j :: 0 <= j < k ==> !Bit(m, j)
  {
    SomeBitSet(m);
    LowestFrom(m, 0)
  }

  lemma SomeBitSet(m: bv16)
    requires m != 0
    ensures exists j :: 0 <= j < 16 && Bit(m, j)
  {
    if forall j :: 0 <= j < 16 ==> !Bit(m, j) {
      NoBitsIsZero(m);
    }
  }

  function LowestFrom(m: bv16, k: nat): (r: nat)
    requires k <= 16
    requires exists j :: k <= j < 16 && Bit(m, j)
    ensures k <= r < 16 && Bit(m, r)
    ensures forall j :: k <= j < r ==> !Bit(m, j)
    decreases 16 - k
  {
    if Bit(m, k) then k else LowestFrom(m, k + 1)
  }

  /** `m & -m`, the source's way of isolating the lowest set bit, is `1 << LowestBit(m)`. */
  lemma {:induction false} IsolateLowest(m: bv16)
    requires m != 0
    ensures m & -m == (1 as bv16) << LowestBit(m)
  {
    var k := LowestBit(m);
    ClearBelow(m, k);
    BitBridge(m, k);
    IsolateAt(m, k as bv16);
    assert (1 as bv16) << k == (1 as bv16) << (k as bv16);
  }

  lemma {:induction false} ClearBelow(m: bv16, k: nat)
    requires k < 16
    requires forall j :: 0 <= j < k ==> !Bit(m, j)
    ensures m & LowMask(k as bv16) == 0
  {
    if k > 0 {
      ClearBelow(m, k - 1);
      ClearStep(m, k - 1);
    }
  }

  lemma ClearStep(m: bv16, k: nat)
    requires k < 15
    requires m & LowMask(k as bv16) == 0 && !Bit(m, k)
    ensures m & LowMask((k + 1) as bv16) == 0
  {
    BitBridge(m, k);
    LowMaskStep(m, k as bv16);
    CastStep(k);
  }

  lemma CastStep(i: nat)
    requires i < 16
    ensures (i as bv16) + 1 == (i + 1) as bv16
  {
  }

  /** Widening an 8-bit table entry keeps every bit and adds none above bit 7. */
  lemma WidenKeepsBits(b: bv8, k: nat)
    requires k < 16
    ensures Bit(b as bv16, k) <==> k < 8 && (b >> k) & 1 == 1
  {
    BitBridge(b as bv16, k);
    WidenBitAt(b, k as bv16);
  }

  lemma WidenBitAt(b: bv8, k: bv16)
    requires k < 16
    ensures BitAt(b as bv16, k) <==> k < 8 && (b >> (k as bv8)) & 1 == 1
  {
  }

  function WidenEntry(b: bv8): bv16 {
    b as bv16
  }

  function NarrowEntry(m: bv16): bv8 {
    (m & 0xFF) as bv8
  }

  /** An 8-bit table row with every entry widened. */
  function WidenRow(row: seq<bv8>): (r: seq<bv16>)
    ensures |r| == |row|
    ensures forall c :: 0 <= c < |row| ==> r[c] == WidenEntry(row[c])
    decreases |row|
  {
    if row == [] then [] else WidenRow(row[..|row| - 1]) + [WidenEntry(row[|row| - 1])]
  }

  /** The 8-bit table read as a 16-bit one, row by row. */
  function Widen(t: seq<seq<bv8>>): (r: seq<seq<bv16>>)
    ensures |r| == |t|
    ensures forall j :: 0 <= j < |t| ==> r[j] == WidenRow(t[j])
    decreases |t|
  {
    if t == [] then [] else Widen(t[..|t| - 1]) + [WidenRow(t[|t| - 1])]
  }

  function Narrow(t: seq<seq<bv16>>): (r: seq<seq<bv8>>)
    ensures |r| == |t|
    ensures forall j :: 0 <= j < |t| ==> |r[j]| == |t[j]|
  {
    seq(|t|, j requires 0 <= j < |t| => seq(|t[j]|, c requires 0 <= c < |t[j]| => NarrowEntry(t[j][c])))
  }

  lemma WidenAt(t: seq<seq<bv8>>, j: nat, c: nat)
    requires j < |t| && c < |t[j]|
    ensures Widen(t)[j][c] == t[j][c] as bv16
  {
  }

  /** A 16-bit table whose entries use only the low eight bits survives the
      round trip through the 8-bit table. */
  lemma {:induction false} NarrowWiden(t: seq<seq<bv16>>)
    requires forall j, c :: 0 <= j < |t| && 0 <= c < |t[j]| ==> Fits(t[j][c], 8)
    ensures Widen(Narrow(t)) == t
  {
    var r := Widen(Narrow(t));
    forall j | 0 <= j < |t| ensures r[j] == t[j] {
      forall c | 0 <= c < |t[j]| ensures r[j][c] == t[j][c] {
        LowBitsFitByte(t[j][c]);
        assert r[j][c] == WidenEntry(Narrow(t)[j][c]);
        assert Narrow(t)[j][c] == NarrowEntry(t[j][c]);
      }
    }
  }
}
