/** The bitmap key matcher with the three departures of `KeyFacts` put
    right: the starting mask holds every bit of its width, the closing quote
    checks that the lowest candidate is exactly as long as the key read, and
    a mismatching byte is skipped from itself, so an escape there is taken.
    Proved here: on a plain key it is an exact case-insensitive lookup, and
    on any key it reads exactly one string. */
module KeyFixes {
  import opened Bytes
  import opened Masks
  import opened Order
  import opened Plan
  import opened KeyMatch
  import opened KeyFacts

  lemma FullBits(narrow: bool, k: bv16)
    requires k < 16
    ensures BitAt(if narrow then 0xFF else 0xFFFF, k) <==> k < (if narrow then 8 else 16)
  {
  }

  /** The corrected starting mask, `math.MaxUint8` or `math.MaxUint16`: every bit of the width. */
  function Full(w: Width): (m: bv16)
    ensures forall k :: 0 <= k < 16 ==> (Bit(m, k) <==> k < Bits(w))
  {
    var m: bv16 := if w == W8 then 0xFF else 0xFFFF;
    forall k | 0 <= k < 16 ensures Bit(m, k) <==> k < Bits(w) {
      BitBridge(m, k);
      FullBits(w == W8, k as bv16);
    }
    m
  }

  /** The corrected key loop; `lens[j]` is the length of sorted key `j`. */
  function ScanFixed(m: Matcher, lens: seq<nat>, buf: Bytes, c: nat, keyIdx: nat, mask: bv16): KeyResult
    requires WellFormed(m) && Terminated(buf) && c < |buf| && Live(m, buf, c, keyIdx, mask)
    decreases |buf| - c
  {
    if buf[c] == QUOTE then
      var j := LowestBit(mask);
      KeyOk(c + 1, if j < |lens| && lens[j] == keyIdx then Some(m.sets[j]) else None)
    else if buf[c] == NUL then KeyErr(0, UnexpectedEndOfJSON("string", c))
    else if keyIdx >= |m.table| then SkipAt(buf, c)
    else
      var entry := m.table[keyIdx][Lower(buf[c]) as int];
      var narrowed := mask & entry;
      if narrowed == 0 then SkipAt(buf, c)
      else
        AndFits(mask, entry, |m.sets|);
        ScanFixed(m, lens, buf, c + 1, keyIdx + 1, narrowed)
  }

  /** The corrected key decoder: as `KeyByBitmap`, with the corrected loop. */
  function KeyByBitmapFixed(m: Matcher, lens: seq<nat>, buf: Bytes, cursor: nat): KeyResult
    requires WellFormed(m) && Terminated(buf) && cursor < |buf|
  {
    var s := SkipWhiteSpace(buf, cursor);
    if buf[s] != QUOTE then KeyErr(s, NotAtBeginningOfValue(s))
    else if buf[s + 1] == QUOTE then KeyOk(s + 2, None)
    else if buf[s + 1] == NUL then KeyErr(0, UnexpectedEndOfJSON("string", s + 1))
    else ScanFixed(m, lens, buf, s + 1, 0, Full(m.width))
  }

  lemma FixedQuote(m: Matcher, lens: seq<nat>, buf: Bytes, c: nat, keyIdx: nat, mask: bv16)
    requires WellFormed(m) && Terminated(buf) && c < |buf| && Live(m, buf, c, keyIdx, mask)
    requires buf[c] == QUOTE
    ensures keyIdx > 0
    ensures ScanFixed(m, lens, buf, c, keyIdx, mask) == KeyOk(c + 1,
      if LowestBit(mask) < |lens| && lens[LowestBit(mask)] == keyIdx then Some(m.sets[LowestBit(mask)]) else None)
  {
  }

  lemma FixedPast(m: Matcher, lens: seq<nat>, buf: Bytes, c: nat, keyIdx: nat, mask: bv16)
    requires WellFormed(m) && Terminated(buf) && c < |buf| && Live(m, buf, c, keyIdx, mask)
    requires buf[c] != QUOTE && buf[c] != NUL && keyIdx >= |m.table|
    ensures ScanFixed(m, lens, buf, c, keyIdx, mask) == SkipAt(buf, c)
  {
  }

  lemma FixedAdvance(m: Matcher, lens: seq<nat>, buf: Bytes, c: nat, keyIdx: nat, mask: bv16, entry: bv16)
    requires WellFormed(m) && Terminated(buf) && c < |buf| && Live(m, buf, c, keyIdx, mask)
    requires buf[c] != QUOTE && buf[c] != NUL && keyIdx < |m.table|
    requires entry == m.table[keyIdx][Lower(buf[c]) as int] && Fits(mask & entry, |m.sets|)
    ensures mask & entry == 0 ==> ScanFixed(m, lens, buf, c, keyIdx, mask) == SkipAt(buf, c)
    ensures mask & entry != 0 ==>
      ScanFixed(m, lens, buf, c, keyIdx, mask) == ScanFixed(m, lens, buf, c + 1, keyIdx + 1, mask & entry)
  {
  }

  /** The corrected answer for the key `k`: the lowest candidate left after
      all of `k`, when it is exactly as long as `k`. */
  function LookupFixed(m: Matcher, lens: seq<nat>, k: Bytes): Option<FieldSet>
    requires WellFormed(m)
  {
    if |k| == 0 || |k| > |m.table| then None
    else
      var mask := CandMask(m, Full(m.width), k, |k|);
      if mask == 0 then None
      else
        CandFits(m, Full(m.width), k, |k|);
        var j := LowestBit(mask);
        if j < |lens| && lens[j] == |k| then Some(m.sets[j]) else None
  }

  lemma {:induction false} FixedPlainFrom(m: Matcher, lens: seq<nat>, buf: Bytes, a: nat, e: nat, i: nat)
    requires WellFormed(m) && Terminated(buf) && PlainKey(buf, a, e)
    requires i <= e - a && i <= |m.table|
    requires i == 0 || CandMask(m, Full(m.width), buf[a..e], i) != 0
    requires i == 0 || Fits(CandMask(m, Full(m.width), buf[a..e], i), |m.sets|)
    ensures ScanFixed(m, lens, buf, a + i, i, CandMask(m, Full(m.width), buf[a..e], i))
      == KeyOk(e + 1, LookupFixed(m, lens, buf[a..e]))
    decreases e - a - i, 1
  {
    var k := buf[a..e];
    var mask := CandMask(m, Full(m.width), k, i);
    if i == e - a {
      FixedPlainDone(m, lens, buf, a, e);
    } else if i < |m.table| {
      FixedPlainStep(m, lens, buf, a, e, i);
    } else {
      assert buf[a + i] == k[i];
      FixedPast(m, lens, buf, a + i, i, mask);
      SkipPlain(buf, a + i, e);
      FixedLong(m, lens, k);
    }
  }

  lemma {:induction false} FixedPlainStep(m: Matcher, lens: seq<nat>, buf: Bytes, a: nat, e: nat, i: nat)
    requires WellFormed(m) && Terminated(buf) && PlainKey(buf, a, e)
    requires i < e - a && i < |m.table|
    requires i == 0 || CandMask(m, Full(m.width), buf[a..e], i) != 0
    requires i == 0 || Fits(CandMask(m, Full(m.width), buf[a..e], i), |m.sets|)
    ensures ScanFixed(m, lens, buf, a + i, i, CandMask(m, Full(m.width), buf[a..e], i))
      == KeyOk(e + 1, LookupFixed(m, lens, buf[a..e]))
    decreases e - a - i, 0
  {
    var k := buf[a..e];
    var mask := CandMask(m, Full(m.width), k, i);
    assert buf[a + i] == k[i];
    var entry := m.table[i][Lower(buf[a + i]) as int];
    AndFits(mask, entry, |m.sets|);
    FixedAdvance(m, lens, buf, a + i, i, mask, entry);
    assert CandMask(m, Full(m.width), k, i + 1) == mask & entry;
    if mask & entry == 0 {
      SkipPlain(buf, a + i, e);
      FixedGone(m, lens, k, i + 1);
    } else {
      FixedPlainFrom(m, lens, buf, a, e, i + 1);
    }
  }

  lemma FixedGone(m: Matcher, lens: seq<nat>, k: Bytes, i: nat)
    requires WellFormed(m) && i <= |k| && i <= |m.table| && CandMask(m, Full(m.width), k, i) == 0
    ensures LookupFixed(m, lens, k) == None
  {
    if |k| <= |m.table| {
      CandZeroStays(m, Full(m.width), k, i, |k|);
    }
  }

  lemma FixedLong(m: Matcher, lens: seq<nat>, k: Bytes)
    requires WellFormed(m) && |k| > |m.table|
    ensures LookupFixed(m, lens, k) == None
  {
  }

  lemma FixedPlainDone(m: Matcher, lens: seq<nat>, buf: Bytes, a: nat, e: nat)
    requires WellFormed(m) && Terminated(buf) && PlainKey(buf, a, e) && e - a <= |m.table|
    requires CandMask(m, Full(m.width), buf[a..e], e - a) != 0
    requires Fits(CandMask(m, Full(m.width), buf[a..e], e - a), |m.sets|)
    ensures ScanFixed(m, lens, buf, e, e - a, CandMask(m, Full(m.width), buf[a..e], e - a))
      == KeyOk(e + 1, LookupFixed(m, lens, buf[a..e]))
  {
    var k := buf[a..e];
    var mask := CandMask(m, Full(m.width), k, |k|);
    FixedQuote(m, lens, buf, e, |k|, mask);
  }

  /** The corrected key decoder on `"k"` answers `LookupFixed(k)` and resumes
      just past the closing quote. */
  lemma FixedPlain(m: Matcher, lens: seq<nat>, buf: Bytes, cursor: nat, a: nat, e: nat)
    requires WellFormed(m) && Terminated(buf) && cursor < |buf| && PlainKey(buf, a, e)
    requires SkipWhiteSpace(buf, cursor) == a - 1 && buf[a - 1] == QUOTE
    ensures KeyByBitmapFixed(m, lens, buf, cursor) == KeyOk(e + 1, LookupFixed(m, lens, buf[a..e]))
  {
    FixedPlainFrom(m, lens, buf, a, e, 0);
  }

  /** The corrected lookup is exact: a key that lower-cases to sorted key `i`
      finds its field set, and a key that lower-cases to no key finds none. */
  lemma FixedFinds(m: Matcher, keys: seq<Bytes>, lens: seq<nat>, k: Bytes)
    requires Sound(m, keys) && 1 <= |k|
    requires |lens| == |keys| && forall i :: 0 <= i < |keys| ==> lens[i] == |keys[i]|
    ensures forall i :: 0 <= i < |keys| && keys[i] == LowerString(k) ==> LookupFixed(m, lens, k) == Some(m.sets[i])
    ensures LowerString(k) !in keys ==> LookupFixed(m, lens, k) == None
  {
    var n := |k|;
    var start := Full(m.width);
    forall i | 0 <= i < |keys| && keys[i] == LowerString(k)
      ensures LookupFixed(m, lens, k) == Some(m.sets[i])
    {
      assert Agrees(keys, k, n, i);
      CandBit(m, keys, start, k, n, i);
      var mask := CandMask(m, start, k, n);
      if mask == 0 {
        ZeroBit(i);
      }
      var j := LowestBit(mask);
      CandBit(m, keys, start, k, n, j);
      if j < i {
        EarlierCannotAgree(keys, k, i, j);
      }
    }
    if LookupFixed(m, lens, k).Some? {
      var mask := CandMask(m, start, k, n);
      var j := LowestBit(mask);
      CandBit(m, keys, start, k, n, j);
      assert keys[j] == LowerString(k);
    }
  }

  /** What a key decoder reads, without the field it names. */
  function Strip(r: KeyResult): (s: KeyResult)
    ensures s.KeyOk? <==> r.KeyOk?
    ensures s.cursor == r.cursor
    ensures s.KeyOk? ==> s.field == None
    ensures s.KeyErr? ==> s.err == r.err
  {
    if r.KeyOk? then KeyOk(r.cursor, None) else r
  }

  /** With no key holding a backslash, the corrected key loop reads exactly
      the rest of the string, as the skip loop does from the same byte. */
  lemma {:induction false} FixedReadsString(m: Matcher, lens: seq<nat>, buf: Bytes, c: nat, keyIdx: nat, mask: bv16)
    requires WellFormed(m) && NoEscapeColumn(m) && Terminated(buf) && c < |buf| && Live(m, buf, c, keyIdx, mask)
    ensures Strip(ScanFixed(m, lens, buf, c, keyIdx, mask)) == SkipAt(buf, c)
    decreases |buf| - c
  {
    if buf[c] == QUOTE {
      FixedQuote(m, lens, buf, c, keyIdx, mask);
    } else if buf[c] != NUL {
      if keyIdx >= |m.table| {
        FixedPast(m, lens, buf, c, keyIdx, mask);
        SkipStops(buf, c);
      } else {
        var entry := m.table[keyIdx][Lower(buf[c]) as int];
        AndFits(mask, entry, |m.sets|);
        FixedAdvance(m, lens, buf, c, keyIdx, mask, entry);
        if mask & entry != 0 {
          LowerKeepsDelimiters(buf[c]);
          assert buf[c] != BACKSLASH;
          FixedReadsString(m, lens, buf, c + 1, keyIdx + 1, mask & entry);
        } else {
          SkipStops(buf, c);
        }
      }
    }
  }

  /** `scanString` in outline: whitespace, the opening quote, then the skip
      loop to the closing quote. */
  function StringToken(buf: Bytes, cursor: nat): KeyResult
    requires Terminated(buf) && cursor < |buf|
  {
    var s := SkipWhiteSpace(buf, cursor);
    if buf[s] != QUOTE then KeyErr(s, NotAtBeginningOfValue(s))
    else SkipAt(buf, s + 1)
  }

  /** The corrected key decoder reads one string, no more and no less. */
  lemma FixedReadsToken(m: Matcher, lens: seq<nat>, buf: Bytes, cursor: nat)
    requires WellFormed(m) && NoEscapeColumn(m) && Terminated(buf) && cursor < |buf|
    ensures Strip(KeyByBitmapFixed(m, lens, buf, cursor)) == StringToken(buf, cursor)
  {
    var s := SkipWhiteSpace(buf, cursor);
    if buf[s] == QUOTE && buf[s + 1] != QUOTE && buf[s + 1] != NUL {
      FixedReadsString(m, lens, buf, s + 1, 0, Full(m.width));
    }
  }

  /** A table built from keys with no backslash has no candidate for one. */
  lemma NoEscapeKeys(m: Matcher, keys: seq<Bytes>)
    requires WellFormed(m) && Encodes(m.table, keys)
    requires forall i, j :: 0 <= i < |keys| && 0 <= j < |keys[i]| ==> keys[i][j] != BACKSLASH
    ensures NoEscapeColumn(m)
  {
    forall r | 0 <= r < |m.table| && |m.table[r]| == 256 ensures m.table[r][BACKSLASH as int] == 0 {
      var column := m.table[r][BACKSLASH as int];
      forall b | 0 <= b < 16 ensures !Bit(column, b) {
        EncodesBit(m.table, keys, r, BACKSLASH as int, b);
        if b < |keys| && r < |keys[b]| {
          assert (keys[b][r] as nat == BACKSLASH as nat) == (keys[b][r] == BACKSLASH);
        }
      }
      NoBitsIsZero(m.table[r][BACKSLASH as int]);
    }
  }
}
