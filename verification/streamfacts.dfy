/** What the stream engine `decodeStream` does, over all inputs and all
    collaborators that only consume input. */
module StreamFacts {
  import opened Bytes
  import opened Plan
  import opened Decoder
  import opened Streams

  /** A byte other than nul at the cursor is the first byte of the input
      ahead, and advancing consumes exactly it. */
  lemma AdvanceTakesOne(st: StreamState)
    requires CharOf(st) != NUL
    ensures Ahead(st) == [CharOf(st)] + Ahead(Advance(st))
  {
    assert st.data[st.cursor..] == [st.data[st.cursor]] + st.data[st.cursor + 1..];
  }

  /** `skipWhiteSpace` consumes only whitespace: what it leaves ahead is the
      input ahead before, less a prefix of whitespace bytes. */
  lemma {:induction false} SkipsOnlyWhiteSpace(st: StreamState)
    ensures var a := Ahead(st); var b := Ahead(SkipOf(st));
      && a[|a| - |b|..] == b
      && forall k :: 0 <= k < |a| - |b| ==> IsSpace(a[k])
    decreases |Ahead(st)|, |st.chunks|
  {
    var c := CharOf(st);
    if IsSpace(c) {
      var next := Advance(st);
      AdvanceTakesOne(st);
      SkipsOnlyWhiteSpace(next);
      assert SkipOf(st) == SkipOf(next);
      SpaceThenSpaces(c, Ahead(next), Ahead(SkipOf(st)));
    } else if c == NUL && st.chunks != [] {
      var next := ReadOf(st).1;
      SkipsOnlyWhiteSpace(next);
      assert SkipOf(st) == SkipOf(next);
    }
  }

  /** A whitespace byte in front of whitespace and then `b` is whitespace and
      then `b`. */
  lemma SpaceThenSpaces(c: Byte, a: Bytes, b: Bytes)
    requires IsSpace(c) && |b| <= |a| && a[|a| - |b|..] == b
    requires forall k :: 0 <= k < |a| - |b| ==> IsSpace(a[k])
    ensures var a' := [c] + a;
      && a'[|a'| - |b|..] == b
      && forall k :: 0 <= k < |a'| - |b| ==> IsSpace(a'[k])
  {
    var a' := [c] + a;
    assert a'[|a'| - |b|..] == a[|a| - |b|..];
    forall k | 0 <= k < |a'| - |b|
      ensures IsSpace(a'[k])
    {
      if k > 0 {
        assert a'[k] == a[k - 1];
      }
    }
  }

  /** `{}` (after whitespace) ends `decodeStream` just past the `}`, with
      nothing written. */
  lemma StreamEmptyObject(env: StreamEnv, fieldMap: map<Bytes, FieldSet>, disallow: bool,
                          st: StreamState, p: nat, mem: Memory)
    requires StreamBehaves(env)
    requires CharOf(SkipOf(st)) == LBRACE && CharOf(Advance(SkipOf(st))) == RBRACE
    ensures DecodeStreamSpec(env, fieldMap, disallow, st, p, mem) == Got(Advance(Advance(SkipOf(st))), mem)
  {
  }

  /** A byte other than `n`, `{` or nul is not the start of a value the
      stream engine accepts; the error carries the offset in the whole
      input. */
  lemma StreamNotAtValue(env: StreamEnv, fieldMap: map<Bytes, FieldSet>, disallow: bool,
                         st: StreamState, p: nat, mem: Memory)
    requires StreamBehaves(env)
    requires CharOf(SkipOf(st)) !in {LOWER_N, LBRACE, NUL}
    ensures DecodeStreamSpec(env, fieldMap, disallow, st, p, mem)
         == Err(NotAtBeginningOfValue(TotalOffset(SkipOf(st))))
  {
  }

  /** At the end of the input `decodeStream` reports nothing itself: the
      nul branch reads (in vain), steps past the end without checking for
      `{`, and hands the stream to the key decoder one byte past the end. */
  lemma EndOfInputGoesToKeyDecoder(env: StreamEnv, fieldMap: map<Bytes, FieldSet>, disallow: bool,
                                   st: StreamState, p: nat, mem: Memory)
    requires StreamBehaves(env)
    requires SkipOf(st).cursor >= |SkipOf(st).data|
    ensures DecodeStreamSpec(env, fieldMap, disallow, st, p, mem)
         == StreamMembers(env, fieldMap, disallow, Advance(SkipOf(st)), p, mem)
    ensures var k := env.decodeStreamByte(StreamState([], 0, TotalOffset(SkipOf(st)) + 1, []));
      k.Err? ==> DecodeStreamSpec(env, fieldMap, disallow, st, p, mem) == Err(k.err)
  {
    var s1 := SkipOf(st);
    assert ReadOf(s1).1 == s1;
    assert ResetOf(Advance(s1)) == StreamState([], 0, TotalOffset(s1) + 1, []);
  }

  /** A key the field map does not hold ends the turn with the
      unknown-field error when unknown fields are disallowed. */
  lemma UnknownFieldRejected(env: StreamEnv, fieldMap: map<Bytes, FieldSet>, st: StreamState, p: nat, mem: Memory,
                             s1: StreamState, key: Bytes)
    requires StreamBehaves(env)
    requires env.decodeStreamByte(ResetOf(st)) == Got(s1, key) && key !in fieldMap
    requires CharOf(Refill(SkipOf(s1))) == COLON && CharOf(Advance(Refill(SkipOf(s1)))) != NUL
    ensures StreamTurn(env, fieldMap, true, st, p, mem) == Halt(Err(UnknownField(key)))
  {
  }

  /** Otherwise such a key has its value skipped and nothing is written. */
  lemma UnknownFieldSkipped(env: StreamEnv, fieldMap: map<Bytes, FieldSet>, st: StreamState, p: nat, mem: Memory,
                            key: Bytes, s5: StreamState)
    requires StreamBehaves(env)
    requires key !in fieldMap && env.skipValue(st) == Got(s5, ())
    ensures AfterColon(env, fieldMap, false, key, st, p, mem) == AfterValue(s5, mem)
  {
  }

  /** A key missing its `:` is reported at the offset where the colon was
      expected. */
  lemma StreamMissingColon(env: StreamEnv, fieldMap: map<Bytes, FieldSet>, disallow: bool,
                           st: StreamState, p: nat, mem: Memory, s1: StreamState, key: Bytes)
    requires StreamBehaves(env)
    requires env.decodeStreamByte(ResetOf(st)) == Got(s1, key)
    requires CharOf(Refill(SkipOf(s1))) != COLON
    ensures StreamTurn(env, fieldMap, disallow, st, p, mem)
         == Halt(Err(Expected("colon after object key", TotalOffset(Refill(SkipOf(s1))))))
  {
  }

  /** A `:` at the very end of the input (a nul at the cursor and no chunk
      left to read) is reported as a missing value at the offset after it. */
  lemma StreamNoValueAfterColon(env: StreamEnv, fieldMap: map<Bytes, FieldSet>, disallow: bool,
                                st: StreamState, p: nat, mem: Memory, s1: StreamState, key: Bytes)
    requires StreamBehaves(env)
    requires env.decodeStreamByte(ResetOf(st)) == Got(s1, key)
    requires CharOf(Refill(SkipOf(s1))) == COLON
    requires CharOf(Advance(Refill(SkipOf(s1)))) == NUL && Advance(Refill(SkipOf(s1))).chunks == []
    ensures StreamTurn(env, fieldMap, disallow, st, p, mem)
         == Halt(Err(Expected("object value after colon", TotalOffset(Advance(Refill(SkipOf(s1)))))))
  {
  }

  /** After a member's value, a byte other than `}` or `,` (past whitespace,
      refilling as needed) is reported at its offset. */
  lemma StreamMissingComma(env: StreamEnv, fieldMap: map<Bytes, FieldSet>, disallow: bool,
                           key: Bytes, st: StreamState, p: nat, mem: Memory, s5: StreamState, mem': Memory)
    requires StreamBehaves(env)
    requires StreamMember(env, fieldMap, disallow, key, st, p, mem) == Got(s5, mem')
    requires CharOf(Refill(SkipOf(s5))) != RBRACE && CharOf(Refill(SkipOf(s5))) != COMMA
    ensures AfterColon(env, fieldMap, disallow, key, st, p, mem)
         == Halt(Err(Expected("comma after object element", TotalOffset(Refill(SkipOf(s5))))))
  {
  }

  /** `"k":v}` with `k` in the field map: the child decoder of the field
      stores `v` at its address and the object ends past the `}`. */
  lemma StreamStoresField(env: StreamEnv, fieldMap: map<Bytes, FieldSet>, disallow: bool,
                          st: StreamState, p: nat, mem: Memory, s1: StreamState, key: Bytes, s5: StreamState, v: Bytes)
    requires StreamBehaves(env)
    requires env.decodeStreamByte(ResetOf(st)) == Got(s1, key) && key in fieldMap
    requires CharOf(Refill(SkipOf(s1))) == COLON && CharOf(Advance(Refill(SkipOf(s1)))) != NUL
    requires env.child(fieldMap[key].dec, Advance(Refill(SkipOf(s1)))) == Got(s5, v)
    requires CharOf(Refill(SkipOf(s5))) == RBRACE
    ensures StreamTurn(env, fieldMap, disallow, st, p, mem)
         == Halt(Got(Advance(Refill(SkipOf(s5))), mem[p + fieldMap[key].offset := v]))
  {
    var s4 := Advance(Refill(SkipOf(s1)));
    assert StreamMember(env, fieldMap, disallow, key, s4, p, mem) == Got(s5, mem[p + fieldMap[key].offset := v]);
    assert AfterColon(env, fieldMap, disallow, key, s4, p, mem)
        == Halt(Got(Advance(Refill(SkipOf(s5))), mem[p + fieldMap[key].offset := v]));
  }

  /** A turn writes at most the address of the field its key names. */
  lemma TurnWritesFields(env: StreamEnv, fieldMap: map<Bytes, FieldSet>, disallow: bool,
                         st: StreamState, p: nat, mem: Memory)
    requires StreamBehaves(env)
    ensures var t := StreamTurn(env, fieldMap, disallow, st, p, mem);
      && (t.Again? ==> OnlyAt(mem, t.mem, Addresses(ByMap(fieldMap), p)))
      && (t.Halt? && t.result.Got? ==> OnlyAt(mem, t.result.value, Addresses(ByMap(fieldMap), p)))
  {
    var k := env.decodeStreamByte(ResetOf(st));
    if k.Got? {
      var key := k.value;
      FieldAddress(ByMap(fieldMap), FieldOf(fieldMap, key), p);
      AfterKeyWrites(env, fieldMap, disallow, key, k.st, p, mem);
      var t := AfterStreamKey(env, fieldMap, disallow, key, k.st, p, mem);
      var at := MemberAt(FieldOf(fieldMap, key), p);
      if t.Again? {
        OnlyAtWithin(mem, t.mem, at, Addresses(ByMap(fieldMap), p));
      } else if t.result.Got? {
        OnlyAtWithin(mem, t.result.value, at, Addresses(ByMap(fieldMap), p));
      }
    }
  }

  lemma AfterKeyWrites(env: StreamEnv, fieldMap: map<Bytes, FieldSet>, disallow: bool,
                       key: Bytes, st: StreamState, p: nat, mem: Memory)
    requires StreamBehaves(env)
    ensures var t := AfterStreamKey(env, fieldMap, disallow, key, st, p, mem);
      var at := MemberAt(FieldOf(fieldMap, key), p);
      && (t.Again? ==> OnlyAt(mem, t.mem, at))
      && (t.Halt? && t.result.Got? ==> OnlyAt(mem, t.result.value, at))
  {
    var s2 := Refill(SkipOf(st));
    if CharOf(s2) == COLON {
      var s3 := Advance(s2);
      var rd := if CharOf(s3) == NUL then ReadOf(s3) else (true, s3);
      if rd.0 {
        ValueWrites(env, fieldMap, disallow, key, rd.1, p, mem);
      }
    }
  }

  lemma ValueWrites(env: StreamEnv, fieldMap: map<Bytes, FieldSet>, disallow: bool,
                    key: Bytes, st: StreamState, p: nat, mem: Memory)
    requires StreamBehaves(env)
    ensures var t := AfterColon(env, fieldMap, disallow, key, st, p, mem);
      var at := MemberAt(FieldOf(fieldMap, key), p);
      && (t.Again? ==> OnlyAt(mem, t.mem, at))
      && (t.Halt? && t.result.Got? ==> OnlyAt(mem, t.result.value, at))
  {
  }

  /** `decodeStream` writes only at the addresses of the record's fields
      and keeps everything else. */
  lemma StreamWritesFields(env: StreamEnv, fieldMap: map<Bytes, FieldSet>, disallow: bool,
                           st: StreamState, p: nat, mem: Memory)
    requires StreamBehaves(env)
    ensures var r := DecodeStreamSpec(env, fieldMap, disallow, st, p, mem);
      r.Got? ==> OnlyAt(mem, r.value, Addresses(ByMap(fieldMap), p))
  {
    var s1 := SkipOf(st);
    var c := CharOf(s1);
    if c == LOWER_N || c == NUL || c == LBRACE {
      var s2 := Advance(if c == NUL then ReadOf(s1).1 else s1);
      if c != LOWER_N && CharOf(s2) != RBRACE {
        MembersWrite(env, fieldMap, disallow, s2, p, mem);
      }
    }
  }

  lemma {:induction false} MembersWrite(env: StreamEnv, fieldMap: map<Bytes, FieldSet>, disallow: bool,
                                        st: StreamState, p: nat, mem: Memory)
    requires StreamBehaves(env)
    ensures var r := StreamMembers(env, fieldMap, disallow, st, p, mem);
      r.Got? ==> OnlyAt(mem, r.value, Addresses(ByMap(fieldMap), p))
    decreases |Ahead(st)|
  {
    TurnWritesFields(env, fieldMap, disallow, st, p, mem);
    var t := StreamTurn(env, fieldMap, disallow, st, p, mem);
    if t.Again? {
      MembersWrite(env, fieldMap, disallow, t.st, p, t.mem);
      var r := StreamMembers(env, fieldMap, disallow, t.st, p, t.mem);
      if r.Got? {
        OnlyAtThen(mem, t.mem, r.value, Addresses(ByMap(fieldMap), p));
      }
    }
  }
}
