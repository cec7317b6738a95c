/** What the buffer engine `decode` does, over all inputs: the `null`
    literal, the bytes that cannot start a value, where a successful object
    ends, what it writes, and how a member reaches its field, through the
    exact lookup or through the bitmap. */
module DecodeFacts {
  import opened Bytes
  import opened Masks
  import opened Plan
  import opened KeyMatch
  import opened KeyFacts
  import opened Decoder

  /** `decode` writes only at the addresses of the record's fields and
      keeps everything else. */
  lemma DecodeWritesFields(env: Env, keys: Keys, buf: Bytes, cursor: nat, p: nat, mem: Memory)
    requires Behaves(env) && Keyable(keys) && Terminated(buf) && cursor < |buf|
    ensures var r := DecodeSpec(env, keys, buf, cursor, p, mem);
      r.Ok? ==> OnlyAt(mem, r.mem, Addresses(keys, p))
  {
    var s := SkipWhiteSpace(buf, cursor);
    if buf[s] == LOWER_N {
      assert OnlyAt(mem, mem, Addresses(keys, p));
    } else if buf[s] == LBRACE && |buf| >= 2 {
      MembersWriteFields(env, keys, buf, s + 1, p, mem);
      ObjectIsMembers(env, keys, buf, cursor, p, mem);
    }
  }

  /** After `{` the member loop starts at the next byte. */
  lemma ObjectIsMembers(env: Env, keys: Keys, buf: Bytes, cursor: nat, p: nat, mem: Memory)
    requires Behaves(env) && Keyable(keys) && Terminated(buf) && cursor < |buf|
    requires buf[SkipWhiteSpace(buf, cursor)] == LBRACE
    ensures DecodeSpec(env, keys, buf, cursor, p, mem) == Members(env, keys, buf, SkipWhiteSpace(buf, cursor) + 1, p, mem)
  {
  }

  /** `null` succeeds exactly when the three bytes after the `n` are `ull`;
      it then moves past them and writes nothing. Too few bytes is an
      unexpected end, a wrong byte an invalid character. */
  lemma NullLiteralIff(env: Env, keys: Keys, buf: Bytes, cursor: nat, p: nat, mem: Memory)
    requires Behaves(env) && Keyable(keys) && Terminated(buf) && cursor < |buf|
    requires buf[SkipWhiteSpace(buf, cursor)] == LOWER_N
    ensures var s := SkipWhiteSpace(buf, cursor);
      var r := DecodeSpec(env, keys, buf, cursor, p, mem);
      && (r.Ok? <==> s + 3 < |buf| && buf[s + 1] == LOWER_U && buf[s + 2] == LOWER_L && buf[s + 3] == LOWER_L)
      && (r.Ok? ==> r == Ok(s + 4, mem))
      && (s + 3 >= |buf| ==> r == Fail(UnexpectedEndOfJSON("null", s)))
      && (s + 3 < |buf| && !r.Ok? ==> r.err.InvalidCharacter? && r.err.offset == s)
  {
  }

  /** Any byte other than `n` or `{` (after whitespace) is not the start of
      a value the struct decoder accepts. */
  lemma NotAtValue(env: Env, keys: Keys, buf: Bytes, cursor: nat, p: nat, mem: Memory)
    requires Behaves(env) && Keyable(keys) && Terminated(buf) && cursor < |buf|
    requires buf[SkipWhiteSpace(buf, cursor)] != LOWER_N && buf[SkipWhiteSpace(buf, cursor)] != LBRACE
    ensures DecodeSpec(env, keys, buf, cursor, p, mem) == Fail(NotAtBeginningOfValue(SkipWhiteSpace(buf, cursor)))
  {
  }

  /** A decoded object ends just past a `}`: the end of the buffer is never
      reached, because the nul sentinel is neither `,` nor `}`. */
  lemma ObjectEndsAtBrace(env: Env, keys: Keys, buf: Bytes, cursor: nat, p: nat, mem: Memory)
    requires Behaves(env) && Keyable(keys) && Terminated(buf) && cursor < |buf|
    requires buf[SkipWhiteSpace(buf, cursor)] != LOWER_N
    ensures var r := DecodeSpec(env, keys, buf, cursor, p, mem);
      r.Ok? ==> buf[SkipWhiteSpace(buf, cursor)] == LBRACE && After(buf, r.cursor, RBRACE)
  {
  }

  /** `{}` has no special case: the byte after `{` goes to the key decoder,
      and a bitmap key decoder rejects `}`. */
  lemma BitmapRejectsEmptyObject(env: Env, m: Matcher, buf: Bytes, cursor: nat, p: nat, mem: Memory)
    requires Behaves(env) && WellFormed(m) && Terminated(buf) && cursor < |buf|
    requires buf[SkipWhiteSpace(buf, cursor)] == LBRACE && buf[SkipWhiteSpace(buf, cursor) + 1] == RBRACE
    ensures DecodeSpec(env, ByBitmap(m), buf, cursor, p, mem) == Fail(NotAtBeginningOfValue(SkipWhiteSpace(buf, cursor) + 1))
  {
    var s := SkipWhiteSpace(buf, cursor);
    assert SkipWhiteSpace(buf, s + 1) == s + 1;
    assert KeyOf(env, ByBitmap(m), buf, s + 1) == KeyErr(s + 1, NotAtBeginningOfValue(s + 1));
  }

  /** A key not followed (after whitespace) by `:` fails the turn with
      "colon after object key" at the offset where the colon was expected. */
  lemma MissingColon(env: Env, keys: Keys, buf: Bytes, c: nat, p: nat, mem: Memory, kc: nat, f: Option<FieldSet>)
    requires Behaves(env) && Keyable(keys) && Terminated(buf) && c < |buf|
    requires KeyOf(env, keys, buf, c) == KeyOk(kc, f)
    requires buf[SkipWhiteSpace(buf, kc)] != COLON
    ensures MemberTurn(env, keys, buf, c, p, mem)
         == Stop(Fail(Expected("colon after object key", SkipWhiteSpace(buf, kc))))
  {
  }

  /** A `:` is never the last byte of a nul-terminated buffer, so the
      "object value after colon" exit of the member loop is never taken:
      the value decoder always runs just past the colon, and an error it
      gives is the turn's error. */
  lemma ColonHasValue(env: Env, kc: nat, f: Option<FieldSet>, buf: Bytes, c: nat, p: nat, mem: Memory)
    requires Behaves(env) && Terminated(buf) && c <= kc < |buf|
    requires buf[SkipWhiteSpace(buf, kc)] == COLON
    ensures SkipWhiteSpace(buf, kc) + 1 < |buf|
    ensures var v := Member(env, f, buf, SkipWhiteSpace(buf, kc) + 1, p, mem);
      v.Fail? ==> AfterKey(env, KeyOk(kc, f), buf, c, p, mem) == Stop(v)
  {
  }

  /** A value followed (after whitespace) by a byte other than `}` or `,`
      fails the turn with "comma after object element" at that byte. */
  lemma MissingComma(env: Env, keys: Keys, buf: Bytes, c: nat, p: nat, mem: Memory,
                     kc: nat, f: Option<FieldSet>, vc: nat, mem': Memory)
    requires Behaves(env) && Keyable(keys) && Terminated(buf) && c < |buf|
    requires KeyOf(env, keys, buf, c) == KeyOk(kc, f)
    requires buf[SkipWhiteSpace(buf, kc)] == COLON
    requires Member(env, f, buf, SkipWhiteSpace(buf, kc) + 1, p, mem) == Ok(vc, mem')
    requires buf[SkipWhiteSpace(buf, vc)] != RBRACE && buf[SkipWhiteSpace(buf, vc)] != COMMA
    ensures MemberTurn(env, keys, buf, c, p, mem)
         == Stop(Fail(Expected("comma after object element", SkipWhiteSpace(buf, vc))))
  {
    CommaAfterValue(env, kc, f, buf, c, p, mem, vc, mem');
  }

  /** The same, once the key decoder has given `kc`. */
  lemma CommaAfterValue(env: Env, kc: nat, f: Option<FieldSet>, buf: Bytes, c: nat, p: nat, mem: Memory,
                        vc: nat, mem': Memory)
    requires Behaves(env) && Terminated(buf) && c <= kc < |buf|
    requires buf[SkipWhiteSpace(buf, kc)] == COLON
    requires Member(env, f, buf, SkipWhiteSpace(buf, kc) + 1, p, mem) == Ok(vc, mem')
    requires buf[SkipWhiteSpace(buf, vc)] != RBRACE && buf[SkipWhiteSpace(buf, vc)] != COMMA
    ensures AfterKey(env, KeyOk(kc, f), buf, c, p, mem)
         == Stop(Fail(Expected("comma after object element", SkipWhiteSpace(buf, vc))))
  {
  }

  /** A key that names no field has its value skipped; the buffer engine
      never reports an unknown field, and the record is unchanged. */
  lemma UnknownKeySkipped(env: Env, keys: Keys, buf: Bytes, c: nat, p: nat, mem: Memory, kc: nat, vc: nat)
    requires Behaves(env) && Keyable(keys) && Terminated(buf) && c < |buf|
    requires KeyOf(env, keys, buf, c) == KeyOk(kc, None)
    requires buf[SkipWhiteSpace(buf, kc)] == COLON && SkipWhiteSpace(buf, kc) + 1 < |buf|
    requires env.skipValue(buf, SkipWhiteSpace(buf, kc) + 1) == Done(vc, ())
    ensures var next := SkipWhiteSpace(buf, vc);
      var t := MemberTurn(env, keys, buf, c, p, mem);
      && (buf[next] == RBRACE ==> t == Stop(Ok(next + 1, mem)))
      && (buf[next] == COMMA ==> t == Next(next + 1, mem))
  {
    SkippedValue(env, buf, c, p, mem, kc, vc);
  }

  lemma SkippedValue(env: Env, buf: Bytes, c: nat, p: nat, mem: Memory, kc: nat, vc: nat)
    requires Behaves(env) && Terminated(buf) && c <= kc < |buf|
    requires buf[SkipWhiteSpace(buf, kc)] == COLON && SkipWhiteSpace(buf, kc) + 1 < |buf|
    requires env.skipValue(buf, SkipWhiteSpace(buf, kc) + 1) == Done(vc, ())
    ensures var next := SkipWhiteSpace(buf, vc);
      var t := AfterKey(env, KeyOk(kc, None), buf, c, p, mem);
      && (buf[next] == RBRACE ==> t == Stop(Ok(next + 1, mem)))
      && (buf[next] == COMMA ==> t == Next(next + 1, mem))
  {
  }

  /** `{"k":v}`: when the key decoder names field `f`, the child decoder of
      `f` stores `v` at the field's address, and `decode` ends past the `}`. */
  lemma OneMember(env: Env, kd: Keys, buf: Bytes, cursor: nat, p: nat, mem: Memory,
                  kc: nat, f: FieldSet, vc: nat, v: Bytes)
    requires Behaves(env) && Keyable(kd) && Terminated(buf) && cursor < |buf|
    requires buf[SkipWhiteSpace(buf, cursor)] == LBRACE
    requires KeyOf(env, kd, buf, SkipWhiteSpace(buf, cursor) + 1) == KeyOk(kc, Some(f))
    requires buf[SkipWhiteSpace(buf, kc)] == COLON
    requires env.child(f.dec, buf, SkipWhiteSpace(buf, kc) + 1) == Done(vc, v)
    requires buf[SkipWhiteSpace(buf, vc)] == RBRACE
    ensures DecodeSpec(env, kd, buf, cursor, p, mem) == Ok(SkipWhiteSpace(buf, vc) + 1, mem[p + f.offset := v])
  {
    var s := SkipWhiteSpace(buf, cursor);
    FieldValue(env, f, buf, s + 1, p, mem, kc, vc, v);
    ObjectIsMembers(env, kd, buf, cursor, p, mem);
  }

  lemma FieldValue(env: Env, f: FieldSet, buf: Bytes, c: nat, p: nat, mem: Memory, kc: nat, vc: nat, v: Bytes)
    requires Behaves(env) && Terminated(buf) && c <= kc < |buf|
    requires buf[SkipWhiteSpace(buf, kc)] == COLON
    requires env.child(f.dec, buf, SkipWhiteSpace(buf, kc) + 1) == Done(vc, v)
    requires buf[SkipWhiteSpace(buf, vc)] == RBRACE
    ensures AfterKey(env, KeyOk(kc, Some(f)), buf, c, p, mem) == Stop(Ok(SkipWhiteSpace(buf, vc) + 1, mem[p + f.offset := v]))
  {
    var colon := SkipWhiteSpace(buf, kc);
    assert colon + 1 < |buf|;
    var m := Member(env, Some(f), buf, colon + 1, p, mem);
    assert m == Ok(vc, mem[p + f.offset := v]);
    assert buf[SkipWhiteSpace(buf, m.cursor)] == RBRACE;
  }

  /** `{"k":v}` with the exact lookup: when the string decoder reads the key
      `k` of the field map, the child decoder of its field stores `v` at the
      field's address. */
  lemma OneMemberByMap(env: Env, fieldMap: map<Bytes, FieldSet>, buf: Bytes, cursor: nat, p: nat, mem: Memory,
                       k: Bytes, kc: nat, vc: nat, v: Bytes)
    requires Behaves(env) && Terminated(buf) && cursor < |buf|
    requires buf[SkipWhiteSpace(buf, cursor)] == LBRACE
    requires env.decodeString(buf, SkipWhiteSpace(buf, cursor) + 1) == Done(kc, k) && k in fieldMap
    requires buf[SkipWhiteSpace(buf, kc)] == COLON
    requires env.child(fieldMap[k].dec, buf, SkipWhiteSpace(buf, kc) + 1) == Done(vc, v)
    requires buf[SkipWhiteSpace(buf, vc)] == RBRACE
    ensures DecodeSpec(env, ByMap(fieldMap), buf, cursor, p, mem)
         == Ok(SkipWhiteSpace(buf, vc) + 1, mem[p + fieldMap[k].offset := v])
  {
    var s := SkipWhiteSpace(buf, cursor);
    assert KeyOf(env, ByMap(fieldMap), buf, s + 1) == KeyOk(kc, Some(fieldMap[k]));
    OneMember(env, ByMap(fieldMap), buf, cursor, p, mem, kc, fieldMap[k], vc, v);
  }

  lemma KeyOfBitmap(env: Env, m: Matcher, buf: Bytes, c: nat)
    requires Behaves(env) && WellFormed(m) && Terminated(buf) && c < |buf|
    ensures KeyOf(env, ByBitmap(m), buf, c) == KeyByBitmap(m, buf, c)
  {
  }

  /** `{"k":v}` with a bitmap: when the plain key `k` equals (ignoring ASCII
      case) sorted key `i`, and `i` is below the top bit of the mask, the
      child decoder of field set `i` stores `v` at that field's address. */
  lemma OneMemberByBitmap(env: Env, m: Matcher, keys: seq<Bytes>, buf: Bytes, cursor: nat, p: nat, mem: Memory,
                          e: nat, i: nat, vc: nat, v: Bytes)
    requires Behaves(env) && Sound(m, keys) && Terminated(buf) && cursor < |buf|
    requires buf[SkipWhiteSpace(buf, cursor)] == LBRACE && buf[SkipWhiteSpace(buf, cursor) + 1] == QUOTE
    requires PlainKey(buf, SkipWhiteSpace(buf, cursor) + 2, e) && buf[e + 1] == COLON
    requires i < |keys| && i < Bits(m.width) - 1 && keys[i] == LowerString(buf[SkipWhiteSpace(buf, cursor) + 2..e])
    requires env.child(m.sets[i].dec, buf, e + 2) == Done(vc, v)
    requires buf[SkipWhiteSpace(buf, vc)] == RBRACE
    ensures DecodeSpec(env, ByBitmap(m), buf, cursor, p, mem)
         == Ok(SkipWhiteSpace(buf, vc) + 1, mem[p + m.sets[i].offset := v])
  {
    BitmapKeyAt(env, m, keys, buf, cursor, e, i);
    OneMember(env, ByBitmap(m), buf, cursor, p, mem, e + 1, m.sets[i], vc, v);
  }

  lemma BitmapKeyAt(env: Env, m: Matcher, keys: seq<Bytes>, buf: Bytes, cursor: nat, e: nat, i: nat)
    requires Behaves(env) && Sound(m, keys) && Terminated(buf) && cursor < |buf|
    requires buf[SkipWhiteSpace(buf, cursor)] == LBRACE && buf[SkipWhiteSpace(buf, cursor) + 1] == QUOTE
    requires PlainKey(buf, SkipWhiteSpace(buf, cursor) + 2, e)
    requires i < |keys| && i < Bits(m.width) - 1 && keys[i] == LowerString(buf[SkipWhiteSpace(buf, cursor) + 2..e])
    ensures Keyable(ByBitmap(m))
    ensures KeyOf(env, ByBitmap(m), buf, SkipWhiteSpace(buf, cursor) + 1) == KeyOk(e + 1, Some(m.sets[i]))
  {
    var s := SkipWhiteSpace(buf, cursor);
    KeyFound(m, keys, buf, s + 1, s + 2, e, i);
    KeyOfBitmap(env, m, buf, s + 1);
  }
}
