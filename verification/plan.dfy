/** The per-type key plan of the struct decoder: the field map it is built
    with, and what `tryOptimize` adds to it (lower-cased sorted keys, a
    per-position key bitmap of 8- or 16-bit masks and the field sets in key
    order). */
module Plan {
  import opened Bytes
  import opened Masks
  import opened Order

  /** `structFieldSet`: the decoder of the field (an identity the child
      decoders are looked up by), its offset in the record, and whether the
      key came from a tag. */
  datatype FieldSet = FieldSet(dec: nat, offset: nat, isTaggedKey: bool)

  /** Which of the three key decoders `keyDecoder` holds. */
  datatype KeyDecoderKind = DecodeKeyFn | BitmapInt8 | BitmapInt16

  const AllowOptimizeMaxKeyLen: nat := 64
  const AllowOptimizeMaxFieldLen: nat := 16

  /** The keys of the field map after ASCII lower-casing. */
  ghost function LoweredKeys(fieldMap: map<Bytes, FieldSet>): set<Bytes> {
    set k | k in fieldMap :: LowerString(k)
  }

  /** The field map may use a bitmap: at most 16 lower-cased keys, none longer than 64 bytes. */
  ghost predicate Eligible(fieldMap: map<Bytes, FieldSet>) {
    && |LoweredKeys(fieldMap)| <= AllowOptimizeMaxFieldLen
    && forall k :: k in LoweredKeys(fieldMap) ==> |k| <= AllowOptimizeMaxKeyLen
  }

  /** `lowered` maps every lower-cased key to the field set of one of the keys
      that lower to it (which one is up to the map's iteration order). */
  ghost predicate LoweredFrom(lowered: map<Bytes, FieldSet>, fieldMap: map<Bytes, FieldSet>) {
    && lowered.Keys == LoweredKeys(fieldMap)
    && forall lk :: lk in lowered ==>
         exists k :: k in fieldMap && LowerString(k) == lk && lowered[lk] == fieldMap[k]
  }

  /** `n` is the length of the longest key in `keys` (0 when there is none). */
  ghost predicate IsMaxLen(n: nat, keys: set<Bytes>) {
    && (forall k :: k in keys ==> |k| <= n)
    && (keys == {} ==> n == 0)
    && (keys != {} ==> exists k :: k in keys && |k| == n)
  }

  predicate NoDuplicates(s: seq<Bytes>) {
    forall i, j :: 0 <= i < j < |s| ==> s[i] != s[j]
  }

  /** Key `b` has byte `c` at position `r`. */
  predicate Records(keys: seq<Bytes>, r: nat, c: nat, b: nat) {
    b < |keys| && r < |keys[b]| && keys[b][r] as nat == c
  }

  /** The mask with only bit `b` set. */
  function Single(b: nat): bv16
    requires b < 16
  {
    (1 as bv16) << b
  }

  /** The mask of the first `n` keys at position `r` and byte `c`: bit `b`
      for each key `b < n` with byte `c` at position `r`. */
  function KeyColumn(keys: seq<Bytes>, r: nat, c: nat, n: nat): bv16
    requires n <= |keys| && n <= 16
  {
    if n == 0 then 0
    else KeyColumn(keys, r, c, n - 1) | (if Records(keys, r, c, n - 1) then Single(n - 1) else 0)
  }

  /** Bit `b` of a key column is set exactly when key `b` is one of the first
      `n` and has byte `c` at position `r`. */
  lemma {:induction false} KeyColumnBit(keys: seq<Bytes>, r: nat, c: nat, n: nat, b: nat)
    requires n <= |keys| && n <= 16 && b < 16
    ensures Bit(KeyColumn(keys, r, c, n), b) <==> b < n && Records(keys, r, c, b)
  {
    if n == 0 {
      ZeroBit(b);
    } else {
      var prev := KeyColumn(keys, r, c, n - 1);
      KeyColumnBit(keys, r, c, n - 1, b);
      if Records(keys, r, c, n - 1) {
        SetBit(prev, n - 1, b);
      } else {
        assert KeyColumn(keys, r, c, n) == prev;
      }
    }
  }

  /** `bitmap` is the key bitmap of `keys`: one row of 256 masks per key
      position, each the key column of all the keys. */
  ghost predicate Encodes(bitmap: seq<seq<bv16>>, keys: seq<Bytes>) {
    && |keys| <= 16
    && (forall r :: 0 <= r < |bitmap| ==> |bitmap[r]| == 256)
    && (forall r, c {:trigger KeyColumn(keys, r, c, |keys|)} :: 0 <= r < |bitmap| && 0 <= c < 256 ==> bitmap[r][c] == KeyColumn(keys, r, c, |keys|))
  }

  /** In an encoding table, bit `b` of `bitmap[r][c]` is set exactly when key
      `b` has byte `c` at position `r`. */
  lemma EncodesBit(bitmap: seq<seq<bv16>>, keys: seq<Bytes>, r: nat, c: nat, b: nat)
    requires Encodes(bitmap, keys) && r < |bitmap| && c < 256 && b < 16
    ensures Bit(bitmap[r][c], b) <==> Records(keys, r, c, b)
  {
    KeyColumnBit(keys, r, c, |keys|, b);
  }

  /** The mask at `r`, `c` while the builder is at byte `j` of key `i`. */
  function Partial(keys: seq<Bytes>, r: nat, c: nat, i: nat, j: nat): bv16
    requires i <= |keys| && i <= 16
  {
    if i < |keys| && i < 16 && r < j && Records(keys, r, c, i)
    then KeyColumn(keys, r, c, i) | Single(i)
    else KeyColumn(keys, r, c, i)
  }

  /** Keys `0 .. i - 1` and the first `j` bytes of key `i` are in the table. */
  ghost predicate Filled(t: seq<seq<bv16>>, keys: seq<Bytes>, i: nat, j: nat)
    requires i <= |keys| && i <= 16
  {
    && (forall r :: 0 <= r < |t| ==> |t[r]| == 256)
    && (forall r, c {:trigger Partial(keys, r, c, i, j)} :: 0 <= r < |t| && 0 <= c < 256 ==> t[r][c] == Partial(keys, r, c, i, j))
  }

  /** One step of the inner loop of the bitmap builder: or-ing bit `i` into
      `t[j][keys[i][j]]`, described cell by cell, records byte `j` of key `i`. */
  lemma MarkCells(t: seq<seq<bv16>>, t': seq<seq<bv16>>, keys: seq<Bytes>, i: nat, j: nat, x: nat)
    requires i < |keys| && i < 16 && j < |keys[i]| && j < |t| && x == keys[i][j] as int
    requires Filled(t, keys, i, j)
    requires |t'| == |t| && forall r :: 0 <= r < |t| ==> |t'[r]| == |t[r]|
    requires forall r, c {:trigger t'[r][c]} :: 0 <= r < |t| && 0 <= c < |t[r]| ==> t'[r][c] == if r == j && c == x then t[r][c] | Single(i) else t[r][c]
    ensures Filled(t', keys, i, j + 1)
  {
    forall r, c | 0 <= r < |t'| && 0 <= c < 256 ensures t'[r][c] == Partial(keys, r, c, i, j + 1) {
      MarkCell(keys, r, c, i, j, r == j && c == x, t[r][c], t'[r][c]);
    }
  }

  /** `MarkCells` at one cell: or-ing bit `i` into the cell of byte `j` of
      key `i`, and nowhere else, moves the cell from `Partial(.., j)` to
      `Partial(.., j + 1)`. */
  lemma MarkCell(keys: seq<Bytes>, r: nat, c: nat, i: nat, j: nat, hit: bool, cell: bv16, cell': bv16)
    requires i < |keys| && i < 16 && j < |keys[i]|
    requires hit == (r == j && c == keys[i][j] as int)
    requires cell == Partial(keys, r, c, i, j)
    requires cell' == if hit then cell | Single(i) else cell
    ensures cell' == Partial(keys, r, c, i, j + 1)
  {
    if hit {
      assert Records(keys, r, c, i) && !(r < j);
      assert cell == KeyColumn(keys, r, c, i);
    } else {
      assert (r < j + 1 && Records(keys, r, c, i)) == (r < j && Records(keys, r, c, i));
    }
  }

  /** Or-ing `v` into cell `x` of row `j` changes that cell and no other. */
  lemma CellUpdate(t: seq<seq<bv16>>, t': seq<seq<bv16>>, j: nat, x: nat, v: bv16)
    requires j < |t| && x < |t[j]| && t' == t[j := t[j][x := t[j][x] | v]]
    ensures |t'| == |t| && forall r :: 0 <= r < |t| ==> |t'[r]| == |t[r]|
    ensures forall r, c {:trigger t'[r][c]} :: 0 <= r < |t| && 0 <= c < |t[r]| ==> t'[r][c] == if r == j && c == x then t[r][c] | v else t[r][c]
  {
  }

  /** The all-zero table `make` returns holds no key yet. */
  lemma EmptyFilled(t: seq<seq<bv16>>, keys: seq<Bytes>)
    requires forall r :: 0 <= r < |t| ==> |t[r]| == 256
    requires forall r, c :: 0 <= r < |t| && 0 <= c < 256 ==> t[r][c] == 0
    ensures Filled(t, keys, 0, 0)
  {
  }

  /** Once all of key `i` is recorded, the table is filled up to key `i + 1`. */
  lemma NextKey(t: seq<seq<bv16>>, keys: seq<Bytes>, i: nat)
    requires i < |keys| && i < 16 && Filled(t, keys, i, |keys[i]|)
    ensures Filled(t, keys, i + 1, 0)
  {
    forall r, c | 0 <= r < |t| && 0 <= c < 256 ensures t[r][c] == Partial(keys, r, c, i + 1, 0) {
      assert t[r][c] == Partial(keys, r, c, i, |keys[i]|);
      if !Records(keys, r, c, i) {
        assert KeyColumn(keys, r, c, i + 1) == KeyColumn(keys, r, c, i) | 0;
      }
    }
  }

  /** The bitmap loops of `tryOptimize`: for each key `i` in sorted order and
      each of its bytes `j`, set bit `i` of `bitmap[j][key[j]]`; then append
      the key's field set. */
  method BuildBitmap(keys: seq<Bytes>, lowered: map<Bytes, FieldSet>, maxKeyLen: nat)
    returns (bitmap: seq<seq<bv16>>, sets: seq<FieldSet>)
    requires |keys| <= 16
    requires forall i :: 0 <= i < |keys| ==> |keys[i]| <= maxKeyLen && keys[i] in lowered
    ensures |bitmap| == maxKeyLen && Encodes(bitmap, keys)
    ensures |sets| == |keys|
    ensures forall i :: 0 <= i < |keys| ==> sets[i] == lowered[keys[i]]
  {
    bitmap := seq(maxKeyLen, _ => seq(256, _ => 0));
    EmptyFilled(bitmap, keys);
    sets := [];
    for i := 0 to |keys|
      invariant |bitmap| == maxKeyLen && Filled(bitmap, keys, i, 0)
      invariant |sets| == i
      invariant forall k :: 0 <= k < i ==> sets[k] == lowered[keys[k]]
    {
      var key := keys[i];
      for j := 0 to |key|
        invariant |bitmap| == maxKeyLen && Filled(bitmap, keys, i, j)
      {
        var c := key[j] as int;
        var t := bitmap;
        bitmap := bitmap[j := bitmap[j][c := bitmap[j][c] | ((1 as bv16) << i)]];
        CellUpdate(t, bitmap, j, c, (1 as bv16) << i);
        MarkCells(t, bitmap, keys, i, j, c);
      }
      NextKey(bitmap, keys, i);
      sets := sets + [lowered[key]];
    }
    FilledEncodes(bitmap, keys);
  }

  /** With every key recorded, the table is the key bitmap. */
  lemma FilledEncodes(t: seq<seq<bv16>>, keys: seq<Bytes>)
    requires |keys| <= 16 && Filled(t, keys, |keys|, 0)
    ensures Encodes(t, keys)
  {
    forall r, c | 0 <= r < |t| && 0 <= c < 256 ensures t[r][c] == KeyColumn(keys, r, c, |keys|) {
      assert t[r][c] == Partial(keys, r, c, |keys|, 0);
    }
  }

  /** A table that encodes at most eight keys uses only the low eight bits. */
  lemma EncodesFitsByte(bitmap: seq<seq<bv16>>, keys: seq<Bytes>)
    requires Encodes(bitmap, keys) && |keys| <= 8
    ensures forall r, c :: 0 <= r < |bitmap| && 0 <= c < |bitmap[r]| ==> Fits(bitmap[r][c], 8)
  {
    forall r, c | 0 <= r < |bitmap| && 0 <= c < |bitmap[r]| ensures Fits(bitmap[r][c], 8) {
      forall k | 0 <= k < 16 && Bit(bitmap[r][c], k) ensures k < 8 {
        EncodesBit(bitmap, keys, r, c, k);
      }
    }
  }

  /** The 16-bit table, or the 8-bit table widened, as `keyDecoder` selects. */
  function TableOf(kind: KeyDecoderKind, bitmap8: seq<seq<bv8>>, bitmap16: seq<seq<bv16>>): seq<seq<bv16>> {
    if kind == BitmapInt8 then Widen(bitmap8) else bitmap16
  }

  /** What the eligible path of `tryOptimize` leaves in the decoder: the
      kind of key decoder, both tables (the one not chosen as it was) and the
      field sets, with the lower-cased map and the sorted keys it built them
      from (locals of `tryOptimize`). */
  datatype Optimized = Optimized(
    lowered: map<Bytes, FieldSet>,
    keys: seq<Bytes>,
    kind: KeyDecoderKind,
    bitmap8: seq<seq<bv8>>,
    bitmap16: seq<seq<bv16>>,
    sets: seq<FieldSet>)
  {
    function Table(): seq<seq<bv16>> {
      TableOf(kind, bitmap8, bitmap16)
    }
  }

  /** The fields of the decoder the key decoders read, as one value. */
  datatype KeyPlan = KeyPlan(
    fieldMap: map<Bytes, FieldSet>,
    keyDecoder: KeyDecoderKind,
    keyBitmapInt8: seq<seq<bv8>>,
    keyBitmapInt16: seq<seq<bv16>>,
    sortedFieldSets: seq<FieldSet>)
  {
    function Table(): seq<seq<bv16>> {
      TableOf(keyDecoder, keyBitmapInt8, keyBitmapInt16)
    }

    function Width(): Width {
      if keyDecoder == BitmapInt8 then W8 else W16
    }
  }

  /** `structDecoder`. */
  class StructDecoder {
    const fieldMap: map<Bytes, FieldSet>
    const structName: Bytes
    const fieldName: Bytes
    var isTriedOptimize: bool
    var keyBitmapInt8: seq<seq<bv8>>
    var keyBitmapInt16: seq<seq<bv16>>
    var sortedFieldSets: seq<FieldSet>
    var keyDecoder: KeyDecoderKind
    /** The keys `tryOptimize` sorted (a local there, kept to state what the bitmap holds). */
    ghost var sortedKeys: seq<Bytes>
    /** The lower-cased field map `tryOptimize` built (likewise a local there). */
    ghost var lowered: map<Bytes, FieldSet>

    /** `newStructDecoder`: no plan yet, keys go through the exact lookup. */
    constructor NewStructDecoder(structName: Bytes, fieldName: Bytes, fieldMap: map<Bytes, FieldSet>)
      ensures this.fieldMap == fieldMap && this.structName == structName && this.fieldName == fieldName
      ensures !isTriedOptimize && keyDecoder == DecodeKeyFn
      ensures keyBitmapInt8 == [] && keyBitmapInt16 == [] && sortedFieldSets == []
      ensures Valid()
    {
      this.fieldMap := fieldMap;
      this.structName := structName;
      this.fieldName := fieldName;
      isTriedOptimize := false;
      keyBitmapInt8 := [];
      keyBitmapInt16 := [];
      sortedFieldSets := [];
      keyDecoder := DecodeKeyFn;
      sortedKeys := [];
      lowered := map[];
    }

    function Snapshot(): KeyPlan
      reads this
    {
      KeyPlan(fieldMap, keyDecoder, keyBitmapInt8, keyBitmapInt16, sortedFieldSets)
    }

    function Table(): seq<seq<bv16>>
      reads this
    {
      TableOf(keyDecoder, keyBitmapInt8, keyBitmapInt16)
    }

    /** What a bitmap key decoder relies on: the table encodes the sorted
        lower-cased keys, every key has its field set, and the 8-bit table is
        chosen only for at most eight keys. */
    ghost predicate Valid()
      reads this
    {
      ValidOf(fieldMap, State())
    }

    /** The fields `tryOptimize` sets, with the ghost record of its locals. */
    ghost function State(): Optimized
      reads this
    {
      Optimized(lowered, sortedKeys, keyDecoder, keyBitmapInt8, keyBitmapInt16, sortedFieldSets)
    }

    /** `tryOptimize`. */
    method TryOptimize()
      modifies this
      ensures old(isTriedOptimize) ==> unchanged(this)
      ensures !old(isTriedOptimize) && !Eligible(fieldMap) ==>
        && isTriedOptimize
        && keyDecoder == old(keyDecoder)
        && keyBitmapInt8 == old(keyBitmapInt8) && keyBitmapInt16 == old(keyBitmapInt16)
        && sortedFieldSets == old(sortedFieldSets)
        && sortedKeys == old(sortedKeys)
      ensures !old(isTriedOptimize) && Eligible(fieldMap) ==>
        && !isTriedOptimize
        && PlanOf(fieldMap, State(), old(sortedFieldSets))
        && (keyDecoder == BitmapInt8 ==> keyBitmapInt16 == old(keyBitmapInt16))
        && (keyDecoder == BitmapInt16 ==> keyBitmapInt8 == old(keyBitmapInt8))
      ensures old(Valid()) ==> Valid()
    {
      if isTriedOptimize {
        return;
      }
      var fm := LowerKeys(fieldMap);
      EligibleIff(fm, fieldMap);
      if |fm| > AllowOptimizeMaxFieldLen {
        isTriedOptimize := true;
        return;
      }
      var ok, keys, maxKeyLen := CollectKeys(fm);
      if !ok {
        isTriedOptimize := true;
        return;
      }
      var sorted, kind, bitmap8, bitmap16, sets :=
        MakePlan(fieldMap, fm, keys, maxKeyLen, keyBitmapInt8, keyBitmapInt16, sortedFieldSets);
      Install(fm, sorted, kind, bitmap8, bitmap16, sets);
      if old(Valid()) {
        PlanValid(fieldMap, old(State()), State());
      }
    }

    /** The stores at the end of the eligible path of `tryOptimize`. */
    method Install(lowered: map<Bytes, FieldSet>, sortedKeys: seq<Bytes>, kind: KeyDecoderKind,
                   bitmap8: seq<seq<bv8>>, bitmap16: seq<seq<bv16>>, sets: seq<FieldSet>)
      modifies this
      ensures State() == Optimized(lowered, sortedKeys, kind, bitmap8, bitmap16, sets)
      ensures isTriedOptimize == old(isTriedOptimize)
    {
      this.lowered := lowered;
      this.sortedKeys := sortedKeys;
      keyDecoder := kind;
      keyBitmapInt8 := bitmap8;
      keyBitmapInt16 := bitmap16;
      sortedFieldSets := sets;
    }
  }

  /** The work of the eligible path, on values. */
  method MakePlan(fieldMap: map<Bytes, FieldSet>, fm: map<Bytes, FieldSet>, keys: seq<Bytes>, maxKeyLen: nat,
                  old8: seq<seq<bv8>>, old16: seq<seq<bv16>>, before: seq<FieldSet>)
    returns (sorted: seq<Bytes>, kind: KeyDecoderKind, bitmap8: seq<seq<bv8>>, bitmap16: seq<seq<bv16>>,
             sets: seq<FieldSet>)
    requires LoweredFrom(fm, fieldMap) && |fm| <= AllowOptimizeMaxFieldLen
    requires NoDuplicates(keys) && (forall k :: k in keys <==> k in fm)
    requires |keys| == |fm| && IsMaxLen(maxKeyLen, fm.Keys)
    ensures PlanOf(fieldMap, Optimized(fm, sorted, kind, bitmap8, bitmap16, sets), before)
    ensures kind == BitmapInt8 ==> bitmap16 == old16
    ensures kind == BitmapInt16 ==> bitmap8 == old8
  {
    sorted := SortStrings(keys);
    SortedKeys(fm, fieldMap, keys, maxKeyLen);
    var bitmap, added := BuildBitmap(sorted, fm, maxKeyLen);
    kind := if |sorted| <= 8 then BitmapInt8 else BitmapInt16;
    if |sorted| <= 8 {
      EncodesFitsByte(bitmap, sorted);
      NarrowWiden(bitmap);
      bitmap8, bitmap16 := Narrow(bitmap), old16;
    } else {
      bitmap8, bitmap16 := old8, bitmap;
    }
    sets := before + added;
    PlanBuilt(fieldMap, Optimized(fm, sorted, kind, bitmap8, bitmap16, sets), bitmap, before, added);
  }

  /** Field set `f` belongs to a key of `fieldMap` that lower-cases to `lk`. */
  ghost predicate SetOfKey(fieldMap: map<Bytes, FieldSet>, lk: Bytes, f: FieldSet) {
    exists k :: k in fieldMap && LowerString(k) == lk && fieldMap[k] == f
  }

  /** What a bitmap key decoder relies on, on values (see `StructDecoder.Valid`):
      before any plan there are no sorted field sets; with a plan, the sorted
      keys are exactly the lower-cased keys of `fieldMap`, the table encodes
      them, and the field set at each key's index is the field set of a key
      of `fieldMap` that lower-cases to it. */
  ghost predicate ValidOf(fieldMap: map<Bytes, FieldSet>, st: Optimized) {
    && (st.kind == DecodeKeyFn ==> st.sets == [])
    && (st.kind != DecodeKeyFn ==>
      && |st.keys| <= 16
      && (st.kind == BitmapInt8 ==> |st.keys| <= 8)
      && StrictlySorted(st.keys)
      && (forall k :: k in st.keys <==> k in LoweredKeys(fieldMap))
      && Encodes(st.Table(), st.keys)
      && |st.keys| <= |st.sets|
      && (forall i :: 0 <= i < |st.keys| ==> |st.keys[i]| <= |st.Table()|)
      && (forall i :: 0 <= i < |st.keys| ==> SetOfKey(fieldMap, st.keys[i], st.sets[i])))
  }

  /** A plan `tryOptimize` builds on a valid decoder is one the bitmap key
      decoders can use. On a second call the field sets are appended behind
      those of the first, whose keys are the same, so index `i` still names
      a field set of key `i`. */
  lemma PlanValid(fieldMap: map<Bytes, FieldSet>, st0: Optimized, st: Optimized)
    requires ValidOf(fieldMap, st0)
    requires PlanOf(fieldMap, st, st0.sets) && |st.lowered| <= AllowOptimizeMaxFieldLen
    ensures ValidOf(fieldMap, st)
  {
    PlanShape(fieldMap, st, st0.sets);
    if st0.kind == DecodeKeyFn {
      PlanSetsFresh(fieldMap, st);
    } else {
      PlanSetsKept(fieldMap, st0, st);
    }
  }

  /** A plan of at most 16 keys has the shape the bitmap key decoders need. */
  lemma PlanShape(fieldMap: map<Bytes, FieldSet>, st: Optimized, before: seq<FieldSet>)
    requires PlanOf(fieldMap, st, before) && |st.lowered| <= AllowOptimizeMaxFieldLen
    ensures st.kind != DecodeKeyFn && |st.keys| <= 16 && (st.kind == BitmapInt8 ==> |st.keys| <= 8)
    ensures forall k :: k in st.keys <==> k in LoweredKeys(fieldMap)
    ensures |st.keys| <= |st.sets|
    ensures forall i :: 0 <= i < |st.keys| ==> |st.keys[i]| <= |st.Table()|
  {
    forall i | 0 <= i < |st.keys| ensures |st.keys[i]| <= |st.Table()| {
      assert st.keys[i] in st.lowered.Keys;
    }
  }

  /** On the first plan, field set `i` is the lowered map's entry for key `i`. */
  lemma PlanSetsFresh(fieldMap: map<Bytes, FieldSet>, st: Optimized)
    requires PlanOf(fieldMap, st, [])
    ensures forall i :: 0 <= i < |st.keys| ==> SetOfKey(fieldMap, st.keys[i], st.sets[i])
  {
    forall i | 0 <= i < |st.keys| ensures SetOfKey(fieldMap, st.keys[i], st.sets[i]) {
      assert st.keys[i] in st.lowered;
      assert st.sets[0 + i] == st.lowered[st.keys[i]];
      LoweredEntry(st.lowered, fieldMap, st.keys[i]);
    }
  }

  /** Each entry of the lowered map is the field set of a key lowering to it. */
  lemma LoweredEntry(lowered: map<Bytes, FieldSet>, fieldMap: map<Bytes, FieldSet>, lk: Bytes)
    requires LoweredFrom(lowered, fieldMap) && lk in lowered
    ensures SetOfKey(fieldMap, lk, lowered[lk])
  {
    var k :| k in fieldMap && LowerString(k) == lk && lowered[lk] == fieldMap[k];
  }

  /** On a later plan, the sorted keys are those of the earlier one and the
      first field sets are kept. */
  lemma PlanSetsKept(fieldMap: map<Bytes, FieldSet>, st0: Optimized, st: Optimized)
    requires ValidOf(fieldMap, st0) && st0.kind != DecodeKeyFn
    requires PlanOf(fieldMap, st, st0.sets)
    ensures forall i :: 0 <= i < |st.keys| ==> SetOfKey(fieldMap, st.keys[i], st.sets[i])
  {
    assert forall k :: k in st.keys <==> k in LoweredKeys(fieldMap);
    StrictlySortedUnique(st0.keys, st.keys);
    forall i | 0 <= i < |st.keys| ensures SetOfKey(fieldMap, st.keys[i], st.sets[i]) {
      assert st.sets[i] == st.sets[..|st0.sets|][i];
    }
  }

  /** The plan `tryOptimize` builds from `fieldMap`, given the field sets
      `before` it started: `lowered` is the lower-cased map, `keys` its keys
      in ascending order, the table has one row per byte of the longest key
      and encodes the keys, the 8-bit kind is chosen for at most eight keys,
      and each key's field set is appended to `before` in key order. */
  ghost predicate PlanOf(fieldMap: map<Bytes, FieldSet>, st: Optimized, before: seq<FieldSet>) {
    && LoweredFrom(st.lowered, fieldMap)
    && StrictlySorted(st.keys)
    && (forall k :: k in st.keys <==> k in st.lowered)
    && |st.keys| == |st.lowered|
    && st.kind == (if |st.keys| <= 8 then BitmapInt8 else BitmapInt16)
    && IsMaxLen(|st.Table()|, st.lowered.Keys)
    && Encodes(st.Table(), st.keys)
    && |st.sets| == |before| + |st.keys|
    && st.sets[..|before|] == before
    && (forall i :: 0 <= i < |st.keys| ==> st.sets[|before| + i] == st.lowered[st.keys[i]])
  }

  lemma PlanBuilt(fieldMap: map<Bytes, FieldSet>, st: Optimized, bitmap: seq<seq<bv16>>,
                  before: seq<FieldSet>, added: seq<FieldSet>)
    requires LoweredFrom(st.lowered, fieldMap)
    requires StrictlySorted(st.keys)
    requires forall k :: k in st.keys <==> k in st.lowered
    requires |st.keys| == |st.lowered|
    requires st.kind == (if |st.keys| <= 8 then BitmapInt8 else BitmapInt16)
    requires st.Table() == bitmap && IsMaxLen(|bitmap|, st.lowered.Keys) && Encodes(bitmap, st.keys)
    requires st.sets == before + added
    requires |added| == |st.keys| && forall i :: 0 <= i < |st.keys| ==> added[i] == st.lowered[st.keys[i]]
    ensures PlanOf(fieldMap, st, before)
  {
    assert st.sets[..|before|] == before;
  }

  /** What sorting the collected keys gives: the lower-cased keys, each once, in ascending order. */
  lemma SortedKeys(fm: map<Bytes, FieldSet>, fieldMap: map<Bytes, FieldSet>, keys: seq<Bytes>, maxKeyLen: nat)
    requires LoweredFrom(fm, fieldMap) && |fm| <= AllowOptimizeMaxFieldLen
    requires NoDuplicates(keys) && (forall k :: k in keys <==> k in fm)
    requires |keys| == |fm| && IsMaxLen(maxKeyLen, fm.Keys)
    ensures StrictlySorted(SortStrings(keys))
    ensures forall k :: k in SortStrings(keys) <==> k in fm
    ensures |SortStrings(keys)| == |fm| <= AllowOptimizeMaxFieldLen
    ensures forall i :: 0 <= i < |keys| ==> SortStrings(keys)[i] in fm && |SortStrings(keys)[i]| <= maxKeyLen
  {
    var sorted := SortStrings(keys);
    SortDistinct(keys);
    SameElements(keys, sorted);
  }

  /** The two checks of `tryOptimize`, made on the lower-cased map, decide eligibility. */
  lemma EligibleIff(fm: map<Bytes, FieldSet>, fieldMap: map<Bytes, FieldSet>)
    requires LoweredFrom(fm, fieldMap)
    ensures Eligible(fieldMap) <==>
      |fm| <= AllowOptimizeMaxFieldLen && forall k :: k in fm ==> |k| <= AllowOptimizeMaxKeyLen
  {
    assert |fm.Keys| == |fm|;
  }

  /** The lower-casing loop of `tryOptimize`, in the field map's (unspecified) iteration order. */
  method LowerKeys(fieldMap: map<Bytes, FieldSet>) returns (fm: map<Bytes, FieldSet>)
    ensures LoweredFrom(fm, fieldMap)
  {
    fm := map[];
    var rest := fieldMap.Keys;
    while rest != {}
      invariant rest <= fieldMap.Keys
      invariant fm.Keys == set k | k in fieldMap && k !in rest :: LowerString(k)
      invariant forall lk :: lk in fm ==>
                  exists k :: k in fieldMap && LowerString(k) == lk && fm[lk] == fieldMap[k]
      decreases rest
    {
      var k :| k in rest;
      fm := fm[LowerString(k) := fieldMap[k]];
      rest := rest - {k};
    }
  }

  /** The key-collecting loop of `tryOptimize`: the keys in iteration order
      and the longest length, or `ok == false` at a key longer than 64 bytes. */
  method CollectKeys(fm: map<Bytes, FieldSet>) returns (ok: bool, keys: seq<Bytes>, maxKeyLen: nat)
    ensures ok <==> forall k :: k in fm ==> |k| <= AllowOptimizeMaxKeyLen
    ensures ok ==> NoDuplicates(keys) && (forall k :: k in keys <==> k in fm)
    ensures ok ==> |keys| == |fm| && IsMaxLen(maxKeyLen, fm.Keys)
  {
    maxKeyLen := 0;
    keys := [];
    var rest := fm.Keys;
    while rest != {}
      invariant rest <= fm.Keys
      invariant forall k :: k in keys <==> k in fm && k !in rest
      invariant NoDuplicates(keys)
      invariant IsMaxLen(maxKeyLen, fm.Keys - rest)
      invariant forall k :: k in keys ==> |k| <= AllowOptimizeMaxKeyLen
      decreases rest
    {
      var key :| key in rest;
      if |key| > AllowOptimizeMaxKeyLen {
        return false, keys, maxKeyLen;
      }
      if maxKeyLen < |key| {
        maxKeyLen := |key|;
      }
      keys := keys + [key];
      rest := rest - {key};
    }
    KeysCount(keys, fm.Keys);
    return true, keys, maxKeyLen;
  }

  /** A duplicate-free sequence with exactly the elements of `s` has `|s|` entries. */
  lemma {:induction false} KeysCount(keys: seq<Bytes>, s: set<Bytes>)
    requires NoDuplicates(keys)
    requires forall k :: k in keys <==> k in s
    ensures |keys| == |s|
  {
    if |keys| > 0 {
      var last := keys[|keys| - 1];
      var init := keys[..|keys| - 1];
      assert forall k :: k in init <==> k in s - {last} by {
        forall k ensures k in init <==> k in s - {last} {
          if k in init {
            var m :| 0 <= m < |init| && init[m] == k;
            assert keys[m] == k;
          }
          if k in s - {last} {
            assert k in keys;
            var m :| 0 <= m < |keys| && keys[m] == k;
            assert m < |keys| - 1;
            assert init[m] == k;
          }
        }
      }
      KeysCount(init, s - {last});
    }
  }

  /** A permutation has the same elements. */
  lemma SameElements(a: seq<Bytes>, b: seq<Bytes>)
    requires multiset(a) == multiset(b)
    ensures forall k :: k in a <==> k in b
  {
    forall k ensures k in a <==> k in b {
      assert k in a <==> k in multiset(a);
      assert k in b <==> k in multiset(b);
    }
  }
}
