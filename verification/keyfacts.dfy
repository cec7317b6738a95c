/** What the bitmap key decoders answer, stated against the keys the bitmap
    encodes: which field a key of plain bytes finds, that the decoder stops
    just past the closing quote, and the three ways the source's answer
    departs from an exact, case-insensitive key lookup (see `KeyFixes` for
    the corrected matcher). */
module KeyFacts {
  import opened Bytes
  import opened Masks
  import opened Order
  import opened Plan
  import opened KeyMatch

  /** The matcher encodes `keys`: sorted, one field set each, none longer
      than the table, no more than the mask has bits. */
  ghost predicate Sound(m: Matcher, keys: seq<Bytes>) {
    && WellFormed(m)
    && Encodes(m.table, keys)
    && StrictlySorted(keys)
    && |keys| <= |m.sets|
    && |keys| <= Bits(m.width)
    && (forall i :: 0 <= i < |keys| ==> |keys[i]| <= |m.table|)
  }

  /** A decoder that passed `tryOptimize` holds a sound matcher over its sorted keys. */
  lemma ValidSound(fieldMap: map<Bytes, FieldSet>, st: Optimized, p: KeyPlan)
    requires ValidOf(fieldMap, st) && st.kind != DecodeKeyFn
    requires p.keyDecoder == st.kind && p.Table() == st.Table() && p.sortedFieldSets == st.sets
    ensures Sound(MatcherOf(p), st.keys)
  {
    ValidWellFormed(fieldMap, st, MatcherOf(p));
  }

  /** Key `b` begins with the first `n` bytes of `k`, lower-cased. */
  ghost predicate Agrees(keys: seq<Bytes>, k: Bytes, n: nat, b: nat)
    requires n <= |k|
  {
    b < |keys| && n <= |keys[b]| && forall j :: 0 <= j < n ==> keys[b][j] == Lower(k[j])
  }

  /** The candidate mask after the first `n` bytes of `k`, from `start`. */
  function CandMask(m: Matcher, start: bv16, k: Bytes, n: nat): bv16
    requires WellFormed(m) && n <= |k| && n <= |m.table|
  {
    if n == 0 then start
    else CandMask(m, start, k, n - 1) & m.table[n - 1][Lower(k[n - 1]) as int]
  }

  lemma AgreesStep(keys: seq<Bytes>, k: Bytes, n: nat, b: nat)
    requires 1 <= n <= |k|
    ensures Agrees(keys, k, n, b) <==>
      (n == 1 || Agrees(keys, k, n - 1, b)) && Records(keys, n - 1, Lower(k[n - 1]) as nat, b)
  {
    if b < |keys| && n - 1 < |keys[b]| {
      assert (keys[b][n - 1] as nat == Lower(k[n - 1]) as nat) == (keys[b][n - 1] == Lower(k[n - 1]));
    }
  }

  /** After at least one byte, bit `b` of the mask is set exactly when `b`
      is set in the starting mask and key `b` begins with those bytes. */
  lemma {:induction false} CandBit(m: Matcher, keys: seq<Bytes>, start: bv16, k: Bytes, n: nat, b: nat)
    requires WellFormed(m) && Encodes(m.table, keys)
    requires 1 <= n <= |k| && n <= |m.table| && b < 16
    ensures Bit(CandMask(m, start, k, n), b) <==> Bit(start, b) && Agrees(keys, k, n, b)
  {
    var prev := CandMask(m, start, k, n - 1);
    var entry := m.table[n - 1][Lower(k[n - 1]) as int];
    AndBit(prev, entry, b);
    EncodesBit(m.table, keys, n - 1, Lower(k[n - 1]) as int, b);
    if n > 1 {
      CandBit(m, keys, start, k, n - 1, b);
    }
    AgreesStep(keys, k, n, b);
  }

  /** After at least one byte every candidate names a field set. */
  lemma CandFits(m: Matcher, start: bv16, k: Bytes, n: nat)
    requires WellFormed(m) && 1 <= n <= |k| && n <= |m.table|
    ensures Fits(CandMask(m, start, k, n), |m.sets|)
  {
    AndFits(CandMask(m, start, k, n - 1), m.table[n - 1][Lower(k[n - 1]) as int], |m.sets|);
  }

  /** Candidates once all gone stay gone. */
  lemma {:induction false} CandZeroStays(m: Matcher, start: bv16, k: Bytes, i: nat, j: nat)
    requires WellFormed(m) && i <= j <= |k| && j <= |m.table|
    requires CandMask(m, start, k, i) == 0
    ensures CandMask(m, start, k, j) == 0
    decreases j - i
  {
    if i < j {
      CandZeroStays(m, start, k, i, j - 1);
    }
  }

  /** `buf[a..e]` is a key of at least one byte holding no quote, backslash
      or nul, and the quote at `e` closes it. */
  ghost predicate PlainKey(buf: Bytes, a: nat, e: nat) {
    && a < e < |buf| && buf[e] == QUOTE
    && forall j :: a <= j < e ==> buf[j] != QUOTE && buf[j] != BACKSLASH && buf[j] != NUL
  }

  /** The skip loop over plain bytes stops just past the closing quote. */
  lemma {:induction false} SkipPlain(buf: Bytes, d: nat, e: nat)
    requires Terminated(buf) && d <= e < |buf| && buf[e] == QUOTE
    requires forall j :: d <= j < e ==> buf[j] != QUOTE && buf[j] != BACKSLASH && buf[j] != NUL
    ensures SkipAt(buf, d) == KeyOk(e + 1, None)
    decreases e - d
  {
    if d < e {
      SkipPlain(buf, d + 1, e);
    }
  }

  /** The source's answer for the key `k`: the field set of the lowest
      candidate left after all of `k`, when the key is no longer than the
      table and a candidate is left. */
  function Lookup(m: Matcher, k: Bytes): Option<FieldSet>
    requires WellFormed(m)
  {
    if |k| == 0 || |k| > |m.table| then None
    else
      var mask := CandMask(m, Top(m.width), k, |k|);
      if mask == 0 then None
      else
        CandFits(m, Top(m.width), k, |k|);
        Some(m.sets[LowestBit(mask)])
  }

  lemma {:induction false} ScanPlainFrom(m: Matcher, buf: Bytes, a: nat, e: nat, i: nat)
    requires WellFormed(m) && Terminated(buf) && PlainKey(buf, a, e)
    requires i <= e - a && i <= |m.table|
    requires i == 0 || CandMask(m, Top(m.width), buf[a..e], i) != 0
    requires i == 0 || Fits(CandMask(m, Top(m.width), buf[a..e], i), |m.sets|)
    ensures Scan(m, buf, a + i, i, CandMask(m, Top(m.width), buf[a..e], i)) == KeyOk(e + 1, Lookup(m, buf[a..e]))
    decreases e - a - i, 1
  {
    var k := buf[a..e];
    var mask := CandMask(m, Top(m.width), k, i);
    if i == e - a {
      ScanPlainDone(m, buf, a, e);
    } else if i < |m.table| {
      ScanPlainStep(m, buf, a, e, i);
    } else {
      assert buf[a + i] == k[i];
      ScanPast(m, buf, a + i, i, mask);
      SkipPlain(buf, a + i + 1, e);
      LookupLong(m, k);
    }
  }

  /** One byte of the key inside the table. */
  lemma {:induction false} ScanPlainStep(m: Matcher, buf: Bytes, a: nat, e: nat, i: nat)
    requires WellFormed(m) && Terminated(buf) && PlainKey(buf, a, e)
    requires i < e - a && i < |m.table|
    requires i == 0 || CandMask(m, Top(m.width), buf[a..e], i) != 0
    requires i == 0 || Fits(CandMask(m, Top(m.width), buf[a..e], i), |m.sets|)
    ensures Scan(m, buf, a + i, i, CandMask(m, Top(m.width), buf[a..e], i)) == KeyOk(e + 1, Lookup(m, buf[a..e]))
    decreases e - a - i, 0
  {
    if CandMask(m, Top(m.width), buf[a..e], i + 1) == 0 {
      ScanPlainGone(m, buf, a, e, i);
    } else {
      ScanPlainOn(m, buf, a, e, i);
      ScanPlainFrom(m, buf, a, e, i + 1);
    }
  }

  /** Some candidate survives byte `i`: the loop goes on with the narrowed mask. */
  lemma ScanPlainOn(m: Matcher, buf: Bytes, a: nat, e: nat, i: nat)
    requires WellFormed(m) && Terminated(buf) && PlainKey(buf, a, e)
    requires i < e - a && i < |m.table|
    requires i == 0 || CandMask(m, Top(m.width), buf[a..e], i) != 0
    requires i == 0 || Fits(CandMask(m, Top(m.width), buf[a..e], i), |m.sets|)
    requires CandMask(m, Top(m.width), buf[a..e], i + 1) != 0
    ensures Fits(CandMask(m, Top(m.width), buf[a..e], i + 1), |m.sets|)
    ensures Scan(m, buf, a + i, i, CandMask(m, Top(m.width), buf[a..e], i)) ==
      Scan(m, buf, a + i + 1, i + 1, CandMask(m, Top(m.width), buf[a..e], i + 1))
  {
    var mask := CandMask(m, Top(m.width), buf[a..e], i);
    var entry := m.table[i][Lower(buf[a + i]) as int];
    CandNext(m, buf, a, e, i);
    AndFits(mask, entry, |m.sets|);
    Advance(m, buf, a + i, i, mask, entry);
  }

  /** The candidates after byte `i` of a plain key are those before it
      narrowed by the table entry for that byte. */
  lemma CandNext(m: Matcher, buf: Bytes, a: nat, e: nat, i: nat)
    requires WellFormed(m) && a + i < e <= |buf| && i < |m.table|
    ensures CandMask(m, Top(m.width), buf[a..e], i + 1) ==
      CandMask(m, Top(m.width), buf[a..e], i) & m.table[i][Lower(buf[a + i]) as int]
  {
    assert buf[a..e][i] == buf[a + i];
  }

  /** The candidates run out at byte `i`: the rest of the key is skipped
      and no field is named. */
  lemma ScanPlainGone(m: Matcher, buf: Bytes, a: nat, e: nat, i: nat)
    requires WellFormed(m) && Terminated(buf) && PlainKey(buf, a, e)
    requires i < e - a && i < |m.table|
    requires i == 0 || CandMask(m, Top(m.width), buf[a..e], i) != 0
    requires i == 0 || Fits(CandMask(m, Top(m.width), buf[a..e], i), |m.sets|)
    requires CandMask(m, Top(m.width), buf[a..e], i + 1) == 0
    ensures Scan(m, buf, a + i, i, CandMask(m, Top(m.width), buf[a..e], i)) == KeyOk(e + 1, Lookup(m, buf[a..e]))
  {
    var mask := CandMask(m, Top(m.width), buf[a..e], i);
    var entry := m.table[i][Lower(buf[a + i]) as int];
    CandNext(m, buf, a, e, i);
    AndFits(mask, entry, |m.sets|);
    Advance(m, buf, a + i, i, mask, entry);
    SkipPlain(buf, a + i + 1, e);
    LookupGone(m, buf[a..e], i + 1);
  }

  /** No candidate left part way through the key: no field. */
  lemma LookupGone(m: Matcher, k: Bytes, i: nat)
    requires WellFormed(m) && i <= |k| && i <= |m.table| && CandMask(m, Top(m.width), k, i) == 0
    ensures Lookup(m, k) == None
  {
    if |k| <= |m.table| {
      CandZeroStays(m, Top(m.width), k, i, |k|);
    }
  }

  /** A key longer than the table: no field. */
  lemma LookupLong(m: Matcher, k: Bytes)
    requires WellFormed(m) && |k| > |m.table|
    ensures Lookup(m, k) == None
  {
  }

  lemma ScanPlainDone(m: Matcher, buf: Bytes, a: nat, e: nat)
    requires WellFormed(m) && Terminated(buf) && PlainKey(buf, a, e) && e - a <= |m.table|
    requires CandMask(m, Top(m.width), buf[a..e], e - a) != 0
    requires Fits(CandMask(m, Top(m.width), buf[a..e], e - a), |m.sets|)
    ensures Scan(m, buf, e, e - a, CandMask(m, Top(m.width), buf[a..e], e - a))
      == KeyOk(e + 1, Lookup(m, buf[a..e]))
  {
    var k := buf[a..e];
    var mask := CandMask(m, Top(m.width), k, |k|);
    ScanQuote(m, buf, e, |k|, mask);
  }

  /** The key loop on a plain key answers `Lookup`, and returns the cursor
      just past the closing quote. */
  lemma ScanPlain(m: Matcher, buf: Bytes, a: nat, e: nat)
    requires WellFormed(m) && Terminated(buf) && PlainKey(buf, a, e)
    ensures Scan(m, buf, a, 0, Top(m.width)) == KeyOk(e + 1, Lookup(m, buf[a..e]))
  {
    ScanPlainFrom(m, buf, a, e, 0);
  }

  /** The whole key decoder on `"k"` (after optional whitespace) answers
      `Lookup(k)` and resumes just past the closing quote. */
  lemma KeyByBitmapPlain(m: Matcher, buf: Bytes, cursor: nat, a: nat, e: nat)
    requires WellFormed(m) && Terminated(buf) && cursor < |buf| && PlainKey(buf, a, e)
    requires SkipWhiteSpace(buf, cursor) == a - 1 && buf[a - 1] == QUOTE
    ensures KeyByBitmap(m, buf, cursor) == KeyOk(e + 1, Lookup(m, buf[a..e]))
  {
    ScanPlain(m, buf, a, e);
  }

  /** A key that lower-cases to key `i` cannot begin an earlier key: the
      earlier key would sort after it. */
  lemma EarlierCannotAgree(keys: seq<Bytes>, k: Bytes, i: nat, j: nat)
    requires StrictlySorted(keys) && j < i < |keys| && keys[i] == LowerString(k)
    ensures !Agrees(keys, k, |k|, j)
  {
    if Agrees(keys, k, |k|, j) {
      assert keys[i] == keys[j][..|k|];
      PrefixLessEq(keys[i], keys[j]);
      LessIrreflexive(keys[j]);
      LessAsymmetric(keys[j], keys[i]);
    }
  }

  /** A string sorts no later than any string it begins. */
  lemma PrefixLessEq(a: Bytes, b: Bytes)
    requires |a| <= |b| && a == b[..|a|]
    ensures LessEq(a, b)
  {
    if |a| < |b| {
      PrefixLess(a, b);
    } else {
      assert b[..|a|] == b;
    }
  }

  /** The key decoder on `"k"`, for a plain `k` equal (ignoring ASCII case)
      to sorted key `i` below the top bit, names field set `i` and resumes
      just past the closing quote. */
  lemma KeyFound(m: Matcher, keys: seq<Bytes>, buf: Bytes, cursor: nat, a: nat, e: nat, i: nat)
    requires Sound(m, keys) && Terminated(buf) && cursor < |buf| && PlainKey(buf, a, e)
    requires SkipWhiteSpace(buf, cursor) == a - 1 && buf[a - 1] == QUOTE
    requires i < |keys| && i < Bits(m.width) - 1 && keys[i] == LowerString(buf[a..e])
    ensures KeyByBitmap(m, buf, cursor) == KeyOk(e + 1, Some(m.sets[i]))
  {
    KeyByBitmapPlain(m, buf, cursor, a, e);
    ExactKeyFound(m, keys, buf[a..e], i);
  }

  /** A key equal (case-insensitively) to sorted key `i`, for `i` below the
      top bit of the mask, finds that key's field set. */
  lemma ExactKeyFound(m: Matcher, keys: seq<Bytes>, k: Bytes, i: nat)
    requires Sound(m, keys) && 1 <= |k| && i < |keys| && keys[i] == LowerString(k)
    requires i < Bits(m.width) - 1
    ensures Lookup(m, k) == Some(m.sets[i])
  {
    var start := Top(m.width);
    var n := |k|;
    assert Agrees(keys, k, n, i);
    CandBit(m, keys, start, k, n, i);
    var mask := CandMask(m, start, k, n);
    if mask == 0 {
      ZeroBit(i);
    }
    var j := LowestBit(mask);
    CandBit(m, keys, start, k, n, j);
    if j < i {
      EarlierCannotAgree(keys, k, i, j);
    }
  }

  /** Finding: with exactly 8 (or 16) keys, the last sorted key is never
      found, because the starting mask `math.MaxInt8` (`math.MaxInt16`)
      leaves its bit out. */
  lemma LastKeyMissed(m: Matcher, keys: seq<Bytes>, k: Bytes)
    requires Sound(m, keys) && |keys| == Bits(m.width) && 1 <= |k|
    requires LowerString(k) == keys[|keys| - 1]
    ensures Lookup(m, k) == None
  {
    var n := |k|;
    if n <= |m.table| {
      var mask := CandMask(m, Top(m.width), k, n);
      if mask != 0 {
        var j := LowestBit(mask);
        CandBit(m, keys, Top(m.width), k, n, j);
        EarlierCannotAgree(keys, k, |keys| - 1, j);
      }
    }
  }

  /** Finding: a key that is only a proper prefix of sorted key `i` still
      finds a field, whether or not any field has that key. */
  lemma PrefixKeyFound(m: Matcher, keys: seq<Bytes>, k: Bytes, i: nat)
    requires Sound(m, keys) && i < |keys| && i < Bits(m.width) - 1
    requires 1 <= |k| < |keys[i]| && LowerString(k) == keys[i][..|k|]
    ensures Lookup(m, k).Some?
  {
    var start := Top(m.width);
    var n := |k|;
    assert Agrees(keys, k, n, i);
    CandBit(m, keys, start, k, n, i);
    if CandMask(m, start, k, n) == 0 {
      ZeroBit(i);
    }
  }

  /** Sorted key `j` is the first that begins with all of `k` (lower-cased),
      and its bit is inside the starting mask. */
  ghost predicate FirstAgreeing(m: Matcher, keys: seq<Bytes>, k: Bytes, j: nat)
    requires 1 <= |k|
  {
    && j < Bits(m.width) - 1
    && Agrees(keys, k, |k|, j)
    && forall j': nat :: j' < j ==> !Agrees(keys, k, |k|, j')
  }

  /** What `Lookup` answers, key by key: the field set of the first sorted
      key below the top bit that begins with `k` (ignoring ASCII case), and
      no field exactly when there is none. */
  lemma LookupFirstAgreeing(m: Matcher, keys: seq<Bytes>, k: Bytes)
    requires Sound(m, keys) && 1 <= |k|
    ensures forall j: nat :: FirstAgreeing(m, keys, k, j) ==> j < |m.sets| && Lookup(m, k) == Some(m.sets[j])
    ensures Lookup(m, k) == None <==>
      forall j: nat :: j < Bits(m.width) - 1 ==> !Agrees(keys, k, |k|, j)
    ensures Lookup(m, k) != None ==> exists j: nat :: FirstAgreeing(m, keys, k, j)
  {
    if |k| > |m.table| {
      forall j: nat | j < Bits(m.width) - 1 ensures !Agrees(keys, k, |k|, j) {
        if j < |keys| {
          assert |keys[j]| <= |m.table|;
        }
      }
    } else {
      var start := Top(m.width);
      var mask := CandMask(m, start, k, |k|);
      forall j: nat | j < Bits(m.width) - 1 ensures Bit(mask, j) <==> Agrees(keys, k, |k|, j) {
        CandBit(m, keys, start, k, |k|, j);
      }
      if mask == 0 {
        forall j: nat | j < Bits(m.width) - 1 ensures !Agrees(keys, k, |k|, j) {
          ZeroBit(j);
        }
      } else {
        var l := LowestBit(mask);
        CandBit(m, keys, start, k, |k|, l);
        assert FirstAgreeing(m, keys, k, l);
      }
    }
  }

  /** The key decoder stops only just past a closing quote, and never past
      the end of the buffer; the skip loop names no field. */
  lemma {:induction false} SkipStops(buf: Bytes, d: nat)
    requires Terminated(buf) && d < |buf|
    ensures var r := SkipAt(buf, d);
      r.KeyOk? ==> d < r.cursor < |buf| && buf[r.cursor - 1] == QUOTE && r.field == None
    decreases |buf| - d
  {
    if buf[d] == BACKSLASH && buf[d + 1] != NUL {
      SkipStops(buf, d + 2);
    } else if buf[d] != QUOTE && buf[d] != BACKSLASH && buf[d] != NUL {
      SkipStops(buf, d + 1);
    }
  }

  lemma {:induction false} ScanStops(m: Matcher, buf: Bytes, c: nat, keyIdx: nat, mask: bv16)
    requires WellFormed(m) && Terminated(buf) && c < |buf| && Live(m, buf, c, keyIdx, mask)
    ensures var r := Scan(m, buf, c, keyIdx, mask);
      r.KeyOk? ==> c < r.cursor < |buf| && buf[r.cursor - 1] == QUOTE
    decreases |buf| - c
  {
    if buf[c] == QUOTE {
      ScanQuote(m, buf, c, keyIdx, mask);
    } else if buf[c] != NUL {
      if keyIdx >= |m.table| {
        ScanPast(m, buf, c, keyIdx, mask);
        SkipStops(buf, c + 1);
      } else {
        var entry := m.table[keyIdx][Lower(buf[c]) as int];
        AndFits(mask, entry, |m.sets|);
        Advance(m, buf, c, keyIdx, mask, entry);
        if mask & entry == 0 {
          SkipStops(buf, c + 1);
        } else {
          ScanStops(m, buf, c + 1, keyIdx + 1, mask & entry);
        }
      }
    }
  }

  /** The field the key loop names is one of the matcher's field sets. */
  lemma {:induction false} ScanNames(m: Matcher, buf: Bytes, c: nat, keyIdx: nat, mask: bv16)
    requires WellFormed(m) && Terminated(buf) && c < |buf| && Live(m, buf, c, keyIdx, mask)
    ensures var r := Scan(m, buf, c, keyIdx, mask);
      r.KeyOk? && r.field.Some? ==> r.field.value in m.sets
    decreases |buf| - c
  {
    if buf[c] == QUOTE {
      ScanQuote(m, buf, c, keyIdx, mask);
    } else if buf[c] != NUL {
      if keyIdx >= |m.table| {
        ScanPast(m, buf, c, keyIdx, mask);
        SkipStops(buf, c + 1);
      } else {
        var entry := m.table[keyIdx][Lower(buf[c]) as int];
        AndFits(mask, entry, |m.sets|);
        Advance(m, buf, c, keyIdx, mask, entry);
        if mask & entry == 0 {
          SkipStops(buf, c + 1);
        } else {
          ScanNames(m, buf, c + 1, keyIdx + 1, mask & entry);
        }
      }
    }
  }

  /** A key the decoder reads ends at a quote after the cursor (without a
      closing quote it reports an error), and the field it names is one of
      the matcher's field sets. */
  lemma KeyByBitmapStops(m: Matcher, buf: Bytes, cursor: nat)
    requires WellFormed(m) && Terminated(buf) && cursor < |buf|
    ensures var r := KeyByBitmap(m, buf, cursor);
      r.KeyOk? ==> cursor < r.cursor < |buf| && buf[r.cursor - 1] == QUOTE && (r.field.Some? ==> r.field.value in m.sets)
  {
    var s := SkipWhiteSpace(buf, cursor);
    if buf[s] == QUOTE {
      var c := s + 1;
      if buf[c] != QUOTE && buf[c] != NUL {
        ScanStops(m, buf, c, 0, Top(m.width));
        ScanNames(m, buf, c, 0, Top(m.width));
      }
    }
  }

  /** The key loop never looks at an escape: the table has no candidate for
      a backslash. */
  ghost predicate NoEscapeColumn(m: Matcher) {
    forall r :: 0 <= r < |m.table| && |m.table[r]| == 256 ==> m.table[r][BACKSLASH as int] == 0
  }

  /** Finding: both skip loops, the one after a mismatch and the one for a
      key longer than every struct key, step past the byte at the cursor
      before looking at it, so a backslash there is not taken as an escape.
      The key `\\` (an escaped backslash), whose first byte no key has,
      then runs past its closing quote to the end of the input, where reading
      the whole string stops at that quote. */
  lemma EscapedKeyOverrun(m: Matcher)
    requires WellFormed(m) && NoEscapeColumn(m)
    ensures Scan(m, [BACKSLASH, BACKSLASH, QUOTE, NUL], 0, 0, Top(m.width))
      == KeyErr(0, UnexpectedEndOfJSON("string", 3))
    ensures SkipAt([BACKSLASH, BACKSLASH, QUOTE, NUL], 0) == KeyOk(3, None)
  {
    var buf: Bytes := [BACKSLASH, BACKSLASH, QUOTE, NUL];
    assert SkipAt(buf, 2) == KeyOk(3, None);
    assert SkipAt(buf, 3) == KeyErr(0, UnexpectedEndOfJSON("string", 3));
  }
}
