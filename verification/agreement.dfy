/** The bitmap key decoders against `decodeKey`: on a decoder that passed
    `tryOptimize`, a plain key of the field map whose lower-cased form is
    the only one of its kind and whose sorted position is below the top bit
    of the starting mask names the same field set either way, and so a
    one-member object is decoded the same way by both engines. */
module Agreement {
  import opened Bytes
  import opened Masks
  import opened Plan
  import opened KeyMatch
  import opened KeyFacts
  import opened Decoder
  import opened DecodeFacts

  /** No other key of the field map lowers to the same bytes as `k`. */
  ghost predicate OnlyLowering(fieldMap: map<Bytes, FieldSet>, k: Bytes) {
    forall k' :: k' in fieldMap && LowerString(k') == LowerString(k) ==> k' == k
  }

  /** The field set the bitmap keeps for sorted key `i` is the field set of
      the field-map key that lowers to it. */
  lemma SortedSetIsField(d: StructDecoder, k: Bytes, i: nat)
    requires d.Valid() && d.keyDecoder != DecodeKeyFn
    requires k in d.fieldMap && OnlyLowering(d.fieldMap, k)
    requires i < |d.sortedKeys| && d.sortedKeys[i] == LowerString(k)
    ensures i < |d.sortedFieldSets| && d.sortedFieldSets[i] == d.fieldMap[k]
  {
    var st := d.State();
    assert SetOfKey(d.fieldMap, st.keys[i], st.sets[i]);
    var k' :| k' in d.fieldMap && LowerString(k') == st.keys[i] && d.fieldMap[k'] == st.sets[i];
  }

  /** For the plain key `"k"` at `c`, the key decoder the struct decoder
      holds and the exact lookup of `decodeKey` both name the field set of
      `k` and resume just past the closing quote. */
  lemma KeyDecodersAgree(env: Env, d: StructDecoder, buf: Bytes, c: nat, a: nat, e: nat, i: nat)
    requires Behaves(env) && d.Valid() && d.keyDecoder != DecodeKeyFn
    requires Terminated(buf) && c < |buf| && PlainKey(buf, a, e)
    requires SkipWhiteSpace(buf, c) == a - 1 && buf[a - 1] == QUOTE
    requires env.decodeString(buf, c) == Done(e + 1, buf[a..e])
    requires buf[a..e] in d.fieldMap && OnlyLowering(d.fieldMap, buf[a..e])
    requires i < |d.sortedKeys| && d.sortedKeys[i] == LowerString(buf[a..e])
    requires i < Bits(d.Snapshot().Width()) - 1
    ensures Keyable(KeysOf(d.Snapshot()))
    ensures KeyOf(env, KeysOf(d.Snapshot()), buf, c) == DecodeKey(env, d.fieldMap, buf, c)
    ensures DecodeKey(env, d.fieldMap, buf, c) == KeyOk(e + 1, Some(d.fieldMap[buf[a..e]]))
  {
    var m := MatcherOf(d.Snapshot());
    ValidSound(d.fieldMap, d.State(), d.Snapshot());
    KeyFound(m, d.sortedKeys, buf, c, a, e, i);
    KeyOfBitmap(env, m, buf, c);
    SortedSetIsField(d, buf[a..e], i);
  }

  /** A member whose key is such a key: the turn of the member loop with the
      decoder's key decoder is the turn with the exact lookup, whatever
      follows the key (missing colon, value error, `,` or `}`). */
  lemma TurnsAgree(env: Env, d: StructDecoder, buf: Bytes, c: nat, a: nat, e: nat, i: nat, p: nat, mem: Memory)
    requires Behaves(env) && d.Valid() && d.keyDecoder != DecodeKeyFn
    requires Terminated(buf) && c < |buf| && PlainKey(buf, a, e)
    requires SkipWhiteSpace(buf, c) == a - 1 && buf[a - 1] == QUOTE
    requires env.decodeString(buf, c) == Done(e + 1, buf[a..e])
    requires buf[a..e] in d.fieldMap && OnlyLowering(d.fieldMap, buf[a..e])
    requires i < |d.sortedKeys| && d.sortedKeys[i] == LowerString(buf[a..e])
    requires i < Bits(d.Snapshot().Width()) - 1
    ensures Keyable(KeysOf(d.Snapshot()))
    ensures MemberTurn(env, KeysOf(d.Snapshot()), buf, c, p, mem) == MemberTurn(env, ByMap(d.fieldMap), buf, c, p, mem)
  {
    KeyDecodersAgree(env, d, buf, c, a, e, i);
  }

  /** The text at `cursor` is `{"k":v}`: the opening brace at `s`, the
      plain key `k` closed by the quote at `e`, the colon right after it, `v`
      as the child decoder of field set `f` reads it up to `vc`, then `}`. */
  ghost predicate OneMemberObject(env: Env, buf: Bytes, cursor: nat, s: nat, k: Bytes, e: nat,
                                  f: FieldSet, vc: nat, v: Bytes) {
    && Terminated(buf) && cursor < |buf| && SkipWhiteSpace(buf, cursor) == s
    && buf[s] == LBRACE && PlainKey(buf, s + 2, e) && buf[s + 1] == QUOTE && k == buf[s + 2..e]
    && e + 1 < |buf| && buf[e + 1] == COLON
    && env.decodeString(buf, s + 1) == Done(e + 1, k)
    && env.child(f.dec, buf, e + 2) == Done(vc, v)
    && vc < |buf| && buf[SkipWhiteSpace(buf, vc)] == RBRACE
  }

  /** `{"k":v}` for such a key: the decoder that passed `tryOptimize` stores
      `v`, as the field's child decoder reads it, at `p + fieldMap[k].offset`
      and ends just past the `}`, the result `OneMemberExact` gives for the
      exact lookup of `decodeKey`. */
  lemma OneMemberOptimized(env: Env, d: StructDecoder, buf: Bytes, cursor: nat, p: nat, mem: Memory,
                        s: nat, k: Bytes, e: nat, i: nat, vc: nat, v: Bytes)
    requires Behaves(env) && d.Valid() && d.keyDecoder != DecodeKeyFn
    requires k in d.fieldMap && OnlyLowering(d.fieldMap, k)
    requires OneMemberObject(env, buf, cursor, s, k, e, d.fieldMap[k], vc, v)
    requires i < |d.sortedKeys| && d.sortedKeys[i] == LowerString(k)
    requires i < Bits(d.Snapshot().Width()) - 1
    ensures Keyable(KeysOf(d.Snapshot()))
    ensures DecodeSpec(env, KeysOf(d.Snapshot()), buf, cursor, p, mem)
         == Ok(SkipWhiteSpace(buf, vc) + 1, mem[p + d.fieldMap[k].offset := v])
  {
    var plan := d.Snapshot();
    assert plan.fieldMap == d.fieldMap && plan.keyDecoder == d.keyDecoder;
    SnapshotFacts(d, k, i);
    OneMemberPlan(env, plan, d.sortedKeys, buf, cursor, p, mem, s, k, e, i, vc, v);
  }

  /** What `OneMemberOptimized` needs of a valid decoder, on its snapshot. */
  lemma SnapshotFacts(d: StructDecoder, k: Bytes, i: nat)
    requires d.Valid() && d.keyDecoder != DecodeKeyFn
    requires k in d.fieldMap && OnlyLowering(d.fieldMap, k)
    requires i < |d.sortedKeys| && d.sortedKeys[i] == LowerString(k)
    ensures Sound(MatcherOf(d.Snapshot()), d.sortedKeys)
    ensures i < |d.Snapshot().sortedFieldSets| && d.Snapshot().sortedFieldSets[i] == d.Snapshot().fieldMap[k]
  {
    ValidSound(d.fieldMap, d.State(), d.Snapshot());
    SortedSetIsField(d, k, i);
  }

  /** `OneMemberOptimized` on the plan's values: a sound matcher whose field
      set at `i` is the field set of `k`. */
  lemma OneMemberPlan(env: Env, plan: KeyPlan, keys: seq<Bytes>, buf: Bytes, cursor: nat, p: nat, mem: Memory,
                   s: nat, k: Bytes, e: nat, i: nat, vc: nat, v: Bytes)
    requires Behaves(env) && plan.keyDecoder != DecodeKeyFn && Sound(MatcherOf(plan), keys)
    requires k in plan.fieldMap && OneMemberObject(env, buf, cursor, s, k, e, plan.fieldMap[k], vc, v)
    requires i < |keys| && keys[i] == LowerString(k) && i < Bits(plan.Width()) - 1
    requires i < |plan.sortedFieldSets| && plan.sortedFieldSets[i] == plan.fieldMap[k]
    ensures Keyable(KeysOf(plan))
    ensures DecodeSpec(env, KeysOf(plan), buf, cursor, p, mem)
         == Ok(SkipWhiteSpace(buf, vc) + 1, mem[p + plan.fieldMap[k].offset := v])
  {
    var m := MatcherOf(plan);
    BitmapKeyAt(env, m, keys, buf, cursor, e, i);
    assert KeysOf(plan) == ByBitmap(m);
    OneMember(env, KeysOf(plan), buf, cursor, p, mem, e + 1, plan.fieldMap[k], vc, v);
  }

  /** `{"k":v}` with `k` a key of the field map, decoded with the exact
      lookup of `decodeKey`: `v` is stored at `p + fieldMap[k].offset`. */
  lemma OneMemberExact(env: Env, fieldMap: map<Bytes, FieldSet>, buf: Bytes, cursor: nat, p: nat, mem: Memory,
                  s: nat, k: Bytes, e: nat, vc: nat, v: Bytes)
    requires Behaves(env) && k in fieldMap && OneMemberObject(env, buf, cursor, s, k, e, fieldMap[k], vc, v)
    ensures DecodeSpec(env, ByMap(fieldMap), buf, cursor, p, mem)
         == Ok(SkipWhiteSpace(buf, vc) + 1, mem[p + fieldMap[k].offset := v])
  {
    assert SkipWhiteSpace(buf, e + 1) == e + 1;
    OneMemberByMap(env, fieldMap, buf, cursor, p, mem, k, e + 1, vc, v);
  }
}
