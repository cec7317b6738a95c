/** `decodeKeyByBitmapInt8` and `decodeKeyByBitmapInt16`: read an object key
    and find its field through the key bitmap, one byte at a time, without
    building the key. Both are modelled once over a `Width`; the 8-bit table
    is read widened. `KeyByBitmap` and its helpers are the specification, the
    method `DecodeKeyByBitmap` the loop of the source. */
module KeyMatch {
  import opened Bytes
  import opened Masks
  import opened Plan
  import opened Tables

  /** What a key decoder returns: the cursor after the key and the field it
      names (`None` for a key the struct does not have), or an error with the
      cursor the source returns beside it. */
  datatype KeyResult =
    | KeyOk(cursor: nat, field: Option<FieldSet>)
    | KeyErr(cursor: nat, err: Error)

  /** What a bitmap key decoder reads from the struct decoder: the key bitmap
      (widened when it is the 8-bit one), its width, and the field sets in
      key order. */
  datatype Matcher = Matcher(table: seq<seq<bv16>>, width: Width, sets: seq<FieldSet>)

  /** Every row has an entry per byte value, and every entry names only
      indexes of field sets. */
  ghost predicate WellFormed(m: Matcher) {
    && (forall r :: 0 <= r < |m.table| ==> |m.table[r]| == 256)
    && (forall r, c :: 0 <= r < |m.table| && 0 <= c < 256 ==> Fits(m.table[r][c], |m.sets|))
  }

  lemma AndFits(a: bv16, b: bv16, n: nat)
    requires Fits(b, n)
    ensures Fits(a & b, n)
  {
    var both := a & b;
    forall k | 0 <= k < 16 && Bit(both, k) ensures k < n {
      AndBit(a, b, k);
    }
  }

  /** The key decoder on `buf` from `cursor`: skip whitespace, then expect the
      opening quote. */
  function KeyByBitmap(m: Matcher, buf: Bytes, cursor: nat): KeyResult
    requires WellFormed(m) && Terminated(buf) && cursor < |buf|
  {
    var s := SkipWhiteSpace(buf, cursor);
    if buf[s] == QUOTE then Opened(m, buf, s + 1)
    else KeyErr(s, NotAtBeginningOfValue(s))
  }

  /** Just after the opening quote: an empty key names no field. */
  function Opened(m: Matcher, buf: Bytes, c: nat): KeyResult
    requires WellFormed(m) && Terminated(buf) && c < |buf|
  {
    if buf[c] == QUOTE then KeyOk(c + 1, None)
    else if buf[c] == NUL then KeyErr(0, UnexpectedEndOfJSON("string", c))
    else Scan(m, buf, c, 0, Top(m.width))
  }

  /** The state of the key loop is live: at the first key byte (neither a
      quote nor the end) the mask is still the starting one; after it, some
      candidate is left and every candidate names a field set. */
  ghost predicate Live(m: Matcher, buf: Bytes, c: nat, keyIdx: nat, mask: bv16)
    requires c < |buf|
  {
    if keyIdx == 0 then buf[c] != QUOTE && buf[c] != NUL
    else mask != 0 && Fits(mask, |m.sets|)
  }

  /** The key loop at `c` after `keyIdx` key bytes, with candidates `mask`.
      The closing quote resolves to the field set of the lowest candidate.
      At any other byte: past the table, or with no candidate left, the rest
      of the string is skipped; otherwise the candidates narrow to the keys
      with this byte (lower-cased) at this position. */
  function Scan(m: Matcher, buf: Bytes, c: nat, keyIdx: nat, mask: bv16): KeyResult
    requires WellFormed(m) && Terminated(buf) && c < |buf| && Live(m, buf, c, keyIdx, mask)
    decreases |buf| - c
  {
    if buf[c] == QUOTE then KeyOk(c + 1, Some(m.sets[LowestBit(mask)]))
    else if buf[c] == NUL then KeyErr(0, UnexpectedEndOfJSON("string", c))
    else if keyIdx >= |m.table| then SkipAt(buf, c + 1)
    else
      var entry := m.table[keyIdx][Lower(buf[c]) as int];
      var narrowed := mask & entry;
      if narrowed == 0 then SkipAt(buf, c + 1)
      else
        AndFits(mask, entry, |m.sets|);
        Scan(m, buf, c + 1, keyIdx + 1, narrowed)
  }

  /** The skip loop of the source, looking at `d` first: up to and past the
      next quote, a backslash taking the byte after it along. */
  function SkipAt(buf: Bytes, d: nat): KeyResult
    requires Terminated(buf) && d < |buf|
    decreases |buf| - d
  {
    if buf[d] == QUOTE then KeyOk(d + 1, None)
    else if buf[d] == BACKSLASH then
      if buf[d + 1] == NUL then KeyErr(0, UnexpectedEndOfJSON("string", d + 1))
      else SkipAt(buf, d + 2)
    else if buf[d] == NUL then KeyErr(0, UnexpectedEndOfJSON("string", d))
    else SkipAt(buf, d + 1)
  }

  /** The matcher a key plan holds. */
  function MatcherOf(p: KeyPlan): Matcher {
    Matcher(p.Table(), p.Width(), p.sortedFieldSets)
  }

  /** The plan invariant makes the matcher well formed. */
  lemma ValidWellFormed(fieldMap: map<Bytes, FieldSet>, st: Optimized, m: Matcher)
    requires ValidOf(fieldMap, st) && st.kind != DecodeKeyFn
    requires m.table == st.Table() && m.sets == st.sets
    ensures WellFormed(m)
  {
    forall r, c | 0 <= r < |m.table| && 0 <= c < 256 ensures Fits(m.table[r][c], |m.sets|) {
      forall k | 0 <= k < 16 && Bit(m.table[r][c], k) ensures k < |m.sets| {
        EncodesBit(m.table, st.keys, r, c, k);
      }
    }
  }

  /** The source's resolution of a candidate mask, `bitHashTable[(x * DeBruijn64) >> 58]`
      for `x` its lowest set bit, looks up the hash slot of that bit. */
  lemma ResolveSlot(mask: bv16)
    requires mask != 0
    ensures (((mask & -mask) as bv64 * DeBruijn64) >> 58) as int == HashSlot(LowestBit(mask))
  {
    var k := LowestBit(mask);
    IsolateLowest(mask);
    WidenSingle(k);
    SlotOfBit(k);
  }

  lemma WidenSingle(k: nat)
    requires k < 16
    ensures ((1 as bv16) << k) as bv64 == (1 as bv64) << k
  {
  }

  /** `decodeKeyByBitmapInt8` and `decodeKeyByBitmapInt16` on decoder `d`. */
  method DecodeKeyByBitmap(tables: Tables, d: StructDecoder, buf: Bytes, cursor: nat) returns (r: KeyResult)
    requires tables.Ready() && d.Valid() && d.keyDecoder != DecodeKeyFn
    requires Terminated(buf) && cursor < |buf|
    ensures WellFormed(MatcherOf(d.Snapshot()))
    ensures r == KeyByBitmap(MatcherOf(d.Snapshot()), buf, cursor)
  {
    var p := d.Snapshot();
    ValidWellFormed(d.fieldMap, d.State(), MatcherOf(p));
    r := MatchKey(tables, p, buf, cursor);
  }

  /** One key byte against the table entry `entry` of its column. */
  lemma Advance(m: Matcher, buf: Bytes, c: nat, keyIdx: nat, mask: bv16, entry: bv16)
    requires WellFormed(m) && Terminated(buf) && c < |buf| && Live(m, buf, c, keyIdx, mask)
    requires buf[c] != QUOTE && buf[c] != NUL && keyIdx < |m.table|
    requires entry == m.table[keyIdx][Lower(buf[c]) as int] && Fits(mask & entry, |m.sets|)
    ensures mask & entry == 0 ==> Scan(m, buf, c, keyIdx, mask) == SkipAt(buf, c + 1)
    ensures mask & entry != 0 ==> Scan(m, buf, c, keyIdx, mask) == Scan(m, buf, c + 1, keyIdx + 1, mask & entry)
  {
  }

  /** At the closing quote the lowest candidate is resolved. */
  lemma ScanQuote(m: Matcher, buf: Bytes, c: nat, keyIdx: nat, mask: bv16)
    requires WellFormed(m) && Terminated(buf) && c < |buf| && Live(m, buf, c, keyIdx, mask)
    requires buf[c] == QUOTE
    ensures keyIdx > 0 && Scan(m, buf, c, keyIdx, mask) == KeyOk(c + 1, Some(m.sets[LowestBit(mask)]))
  {
  }

  /** A key byte past the end of the table skips the rest of the string. */
  lemma ScanPast(m: Matcher, buf: Bytes, c: nat, keyIdx: nat, mask: bv16)
    requires WellFormed(m) && Terminated(buf) && c < |buf| && Live(m, buf, c, keyIdx, mask)
    requires buf[c] != QUOTE && buf[c] != NUL && keyIdx >= |m.table|
    ensures Scan(m, buf, c, keyIdx, mask) == SkipAt(buf, c + 1)
  {
  }

  /** The lookup tables are initialised and the plan is a bitmap plan whose
      table entries name field sets that exist. */
  ghost predicate Usable(tables: Tables, p: KeyPlan)
    reads tables, tables.bitHashTable, tables.largeToSmallTable
  {
    tables.Ready() && p.keyDecoder != DecodeKeyFn && WellFormed(MatcherOf(p))
  }

  /** The key decoder on the fields of the decoder: whitespace, the opening
      quote, the empty key, then the key loop. */
  method MatchKey(tables: Tables, p: KeyPlan, buf: Bytes, cursor: nat) returns (r: KeyResult)
    requires Usable(tables, p)
    requires Terminated(buf) && cursor < |buf|
    ensures r == KeyByBitmap(MatcherOf(p), buf, cursor)
  {
    var c := cursor;
    while IsSpace(buf[c])
      invariant cursor <= c < |buf|
      invariant SkipWhiteSpace(buf, c) == SkipWhiteSpace(buf, cursor)
      decreases |buf| - c
    {
      c := c + 1;
    }
    if buf[c] != QUOTE {
      return KeyErr(c, NotAtBeginningOfValue(c));
    }
    c := c + 1;
    if buf[c] == QUOTE {
      return KeyOk(c + 1, None);
    }
    if buf[c] == NUL {
      return KeyErr(0, UnexpectedEndOfJSON("string", c));
    }
    r := ScanKey(tables, p, buf, c);
  }

  /** The key loop, from the first key byte at `c`: narrow the candidates
      byte by byte, resolve at the closing quote, skip when none is left. */
  method ScanKey(tables: Tables, p: KeyPlan, buf: Bytes, start: nat) returns (r: KeyResult)
    requires Usable(tables, p)
    requires Terminated(buf) && start < |buf| && buf[start] != QUOTE && buf[start] != NUL
    ensures r == Scan(MatcherOf(p), buf, start, 0, Top(MatcherOf(p).width))
  {
    ghost var m := MatcherOf(p);
    var w := if p.keyDecoder == BitmapInt8 then W8 else W16;
    var curBit: bv16 := if w == W8 then 0x7F else 0x7FFF;
    var keyIdx := 0;
    var c := start;
    var keyBitmapLen := if w == W8 then |p.keyBitmapInt8| else |p.keyBitmapInt16|;
    while true
      invariant c < |buf| && keyBitmapLen == |m.table|
      invariant Live(m, buf, c, keyIdx, curBit)
      invariant Scan(m, buf, start, 0, Top(m.width)) == Scan(m, buf, c, keyIdx, curBit)
      decreases |buf| - c
    {
      var ch := buf[c];
      if ch == QUOTE {
        var field := ResolveField(tables, p, curBit);
        return KeyOk(c + 1, Some(field));
      }
      if ch == NUL {
        return KeyErr(0, UnexpectedEndOfJSON("string", c));
      }
      if keyIdx >= keyBitmapLen {
        r := SkipString(buf, c);
        return;
      }
      var entry := Entry(tables, p, keyIdx, ch);
      var narrowed := curBit & entry;
      assert entry == m.table[keyIdx][Lower(buf[c]) as int];
      AndFits(curBit, entry, |m.sets|);
      Advance(m, buf, c, keyIdx, curBit, entry);
      if narrowed == 0 {
        r := SkipString(buf, c);
        return;
      }
      curBit := narrowed;
      keyIdx := keyIdx + 1;
      c := c + 1;
    }
  }

  /** `bitmap[keyIdx][largeToSmallTable[c]]` in the table of the decoder's width. */
  method Entry(tables: Tables, p: KeyPlan, keyIdx: nat, ch: Byte) returns (entry: bv16)
    requires Usable(tables, p)
    requires keyIdx < |MatcherOf(p).table|
    ensures entry == MatcherOf(p).table[keyIdx][Lower(ch) as int]
  {
    var lc := tables.largeToSmallTable[ch as int];
    if p.keyDecoder == BitmapInt8 {
      WidenAt(p.keyBitmapInt8, keyIdx, lc as int);
      entry := p.keyBitmapInt8[keyIdx][lc as int] as bv16;
    } else {
      entry := p.keyBitmapInt16[keyIdx][lc as int];
    }
  }

  /** The closing quote: the field set of the lowest candidate, found through
      the de Bruijn hash of the isolated lowest bit. */
  method ResolveField(tables: Tables, p: KeyPlan, curBit: bv16) returns (field: FieldSet)
    requires tables.Ready() && curBit != 0 && Fits(curBit, |p.sortedFieldSets|)
    ensures field == p.sortedFieldSets[LowestBit(curBit)]
  {
    var slot := HashOfLowest(curBit);
    var fieldSetIndex := tables.bitHashTable[slot];
    field := p.sortedFieldSets[fieldSetIndex];
  }

  /** `((m & -m) * deBruijn64) >> 58`: the hash slot of the lowest set bit. */
  method HashOfLowest(m: bv16) returns (slot: nat)
    requires m != 0
    ensures slot == HashSlot(LowestBit(m))
  {
    var x := (m & -m) as bv64;
    ResolveSlot(m);
    slot := ((x * DeBruijn64) >> 58) as nat;
  }

  /** The skip loops of the source, entered at `c`: from the byte after `c`
      to the end of the string. */
  method SkipString(buf: Bytes, c: nat) returns (r: KeyResult)
    requires Terminated(buf) && c + 1 < |buf|
    ensures r == SkipAt(buf, c + 1)
  {
    var cursor := c;
    while true
      invariant cursor + 1 < |buf|
      invariant SkipAt(buf, cursor + 1) == SkipAt(buf, c + 1)
      decreases |buf| - cursor
    {
      cursor := cursor + 1;
      var ch := buf[cursor];
      if ch == QUOTE {
        return KeyOk(cursor + 1, None);
      } else if ch == BACKSLASH {
        cursor := cursor + 1;
        if buf[cursor] == NUL {
          return KeyErr(0, UnexpectedEndOfJSON("string", cursor));
        }
      } else if ch == NUL {
        return KeyErr(0, UnexpectedEndOfJSON("string", cursor));
      }
    }
  }
}
