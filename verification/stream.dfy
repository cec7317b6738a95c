/** The stream engine of the struct decoder: `decodeStream`, which reads
    from a stream that refills its buffer from a reader instead of from one
    nul-terminated buffer. The stream type itself (stream.go) is not part of
    this model: its buffer, cursor, offset, `char`, `read`, `reset` and
    `skipWhiteSpace` are written here as `decodeStream` uses them. */
module Streams {
  import opened Bytes
  import opened Plan
  import opened Decoder

  /** What the stream holds: the bytes buffered so far (every position past
      them reads as nul), the cursor into them, how many bytes earlier
      resets dropped from the front, and what the reader delivers on each
      later read. */
  datatype StreamState = StreamState(data: Bytes, cursor: nat, offset: nat, chunks: seq<Bytes>)

  /** `s.char()`: the byte at the cursor, nul past the buffered bytes. */
  function CharOf(st: StreamState): (c: Byte)
    ensures c != NUL ==> st.cursor < |st.data| && c == st.data[st.cursor]
  {
    if st.cursor < |st.data| then st.data[st.cursor] else NUL
  }

  /** `s.totalOffset()`: the position of the cursor in the whole input. */
  function TotalOffset(st: StreamState): nat {
    st.offset + st.cursor
  }

  /** The reader's chunks, one after another. */
  function Flatten(chunks: seq<Bytes>): Bytes {
    if chunks == [] then [] else chunks[0] + Flatten(chunks[1..])
  }

  /** The input not consumed yet: the buffered bytes from the cursor on,
      then everything the reader still holds. */
  function Ahead(st: StreamState): Bytes {
    (if st.cursor <= |st.data| then st.data[st.cursor..] else []) + Flatten(st.chunks)
  }

  /** `n` nul bytes: what a buffer holds past its data. */
  function Nuls(n: nat): (r: Bytes)
    ensures |r| == n && forall k :: 0 <= k < n ==> r[k] == NUL
  {
    seq(n, _ => NUL)
  }

  /** `s.read()`: false once the reader is exhausted; otherwise the next
      chunk is appended to the buffered bytes (behind the nul positions the
      cursor has already passed, if any). */
  function ReadOf(st: StreamState): (r: (bool, StreamState))
    ensures r.0 <==> st.chunks != []
    ensures !r.0 ==> r.1 == st
    ensures r.0 ==> |r.1.chunks| < |st.chunks|
    ensures r.1.cursor == st.cursor && r.1.offset == st.offset
    ensures Ahead(r.1) == Ahead(st)
  {
    if st.chunks == [] then (false, st)
    else
      var padded := if st.cursor <= |st.data| then st.data else st.data + Nuls(st.cursor - |st.data|);
      assert padded[st.cursor..] + st.chunks[0] == (padded + st.chunks[0])[st.cursor..];
      (true, st.(data := padded + st.chunks[0], chunks := st.chunks[1..]))
  }

  /** `s.reset()`: drop the bytes before the cursor, counting them in the
      offset. */
  function ResetOf(st: StreamState): (r: StreamState)
    ensures r.cursor == 0 && TotalOffset(r) == TotalOffset(st)
    ensures Ahead(r) == Ahead(st)
    ensures CharOf(r) == CharOf(st)
  {
    StreamState(if st.cursor <= |st.data| then st.data[st.cursor..] else [], 0, st.offset + st.cursor, st.chunks)
  }

  /** `s.cursor++`: one byte consumed, unless the cursor is already past
      the input. */
  function Advance(st: StreamState): (r: StreamState)
    ensures TotalOffset(r) == TotalOffset(st) + 1 && r.offset == st.offset
    ensures CharOf(st) != NUL ==> |Ahead(r)| + 1 == |Ahead(st)|
    ensures |Ahead(r)| <= |Ahead(st)|
  {
    st.(cursor := st.cursor + 1)
  }

  /** `s.skipWhiteSpace()`: past spaces, tabs, line feeds and carriage
      returns, reading more at a nul until the reader is exhausted. */
  function SkipOf(st: StreamState): (r: StreamState)
    ensures !IsSpace(CharOf(r))
    ensures CharOf(r) == NUL ==> r.chunks == []
    ensures r.offset == st.offset && st.cursor <= r.cursor
    ensures |Ahead(r)| <= |Ahead(st)|
    decreases |Ahead(st)|, |st.chunks|
  {
    var c := CharOf(st);
    if IsSpace(c) then SkipOf(Advance(st))
    else if c == NUL && st.chunks != [] then SkipOf(ReadOf(st).1)
    else st
  }

  /** `if s.char() == nul { s.read() }`. */
  function Refill(st: StreamState): (r: StreamState)
    ensures CharOf(st) != NUL ==> r == st
    ensures r.cursor == st.cursor && r.offset == st.offset && Ahead(r) == Ahead(st)
  {
    if CharOf(st) == NUL then ReadOf(st).1 else st
  }

  /** What a collaborator working on the stream gives back: the stream
      after it, and what it read. */
  datatype Step<T> = Got(st: StreamState, value: T) | Err(err: Error)

  /** A collaborator consumes input and never puts any back. */
  predicate Consumes<T>(st: StreamState, o: Step<T>) {
    o.Got? ==> |Ahead(o.st)| <= |Ahead(st)|
  }

  /** The code `decodeStream` calls and this model does not contain: the
      string decoder's `decodeStreamByte`, `skipValue`, `nullBytes`, and a
      field's own `decodeStream`, which yields the value it stores at the
      field's address. */
  datatype StreamEnv = StreamEnv(
    decodeStreamByte: StreamState -> Step<Bytes>,
    skipValue: StreamState -> Step<()>,
    nullBytes: StreamState -> Step<()>,
    child: (nat, StreamState) -> Step<Bytes>)

  ghost predicate StreamBehaves(env: StreamEnv) {
    && (forall st: StreamState :: Consumes(st, env.decodeStreamByte(st)))
    && (forall st: StreamState :: Consumes(st, env.skipValue(st)))
    && (forall st: StreamState :: Consumes(st, env.nullBytes(st)))
    && (forall dec: nat, st: StreamState :: Consumes(st, env.child(dec, st)))
  }

  /** `decodeStream`: whitespace, then `null`, or an object opened by `{`
      or (as the code is written) by a nul; `{}` ends at once. */
  function DecodeStreamSpec(env: StreamEnv, fieldMap: map<Bytes, FieldSet>, disallow: bool,
                            st: StreamState, p: nat, mem: Memory): (r: Step<Memory>)
    requires StreamBehaves(env)
    ensures r.Got? && CharOf(SkipOf(st)) != LOWER_N ==> After(r.st.data, r.st.cursor, RBRACE)
  {
    var s1 := SkipOf(st);
    var c := CharOf(s1);
    if c == LOWER_N then
      (match env.nullBytes(s1)
       case Err(e) => Err(e)
       case Got(s2, _) => Got(s2, mem))
    else if c != NUL && c != LBRACE then Err(NotAtBeginningOfValue(TotalOffset(s1)))
    else
      var s2 := Advance(if c == NUL then ReadOf(s1).1 else s1);
      if CharOf(s2) == RBRACE then Got(Advance(s2), mem)
      else StreamMembers(env, fieldMap, disallow, s2, p, mem)
  }

  /** Where one turn of the stream's member loop leaves off. */
  datatype Round = Halt(result: Step<Memory>) | Again(st: StreamState, mem: Memory)

  /** The stream's member loop; every turn consumes at least the `:`. */
  function StreamMembers(env: StreamEnv, fieldMap: map<Bytes, FieldSet>, disallow: bool,
                         st: StreamState, p: nat, mem: Memory): (r: Step<Memory>)
    requires StreamBehaves(env)
    ensures r.Got? ==> After(r.st.data, r.st.cursor, RBRACE)
    decreases |Ahead(st)|
  {
    match StreamTurn(env, fieldMap, disallow, st, p, mem)
    case Halt(r) => r
    case Again(st', mem') => StreamMembers(env, fieldMap, disallow, st', p, mem')
  }

  /** One turn: reset, the key from the string decoder, then the rest. */
  function StreamTurn(env: StreamEnv, fieldMap: map<Bytes, FieldSet>, disallow: bool,
                      st: StreamState, p: nat, mem: Memory): (t: Round)
    requires StreamBehaves(env)
    ensures t.Again? ==> |Ahead(t.st)| < |Ahead(st)|
    ensures t.Halt? && t.result.Got? ==> After(t.result.st.data, t.result.st.cursor, RBRACE)
  {
    var s0 := ResetOf(st);
    match env.decodeStreamByte(s0)
    case Err(e) => Halt(Err(e))
    case Got(s1, key) => AfterStreamKey(env, fieldMap, disallow, key, s1, p, mem)
  }

  /** The rest of a turn once the key has been read: `:` and at least one
      more byte, then the value. */
  function AfterStreamKey(env: StreamEnv, fieldMap: map<Bytes, FieldSet>, disallow: bool,
                          key: Bytes, st: StreamState, p: nat, mem: Memory): (t: Round)
    requires StreamBehaves(env)
    ensures t.Again? ==> |Ahead(t.st)| < |Ahead(st)|
    ensures t.Halt? && t.result.Got? ==> After(t.result.st.data, t.result.st.cursor, RBRACE)
  {
    var s2 := Refill(SkipOf(st));
    if CharOf(s2) != COLON then Halt(Err(Expected("colon after object key", TotalOffset(s2))))
    else
      var s3 := Advance(s2);
      var rd := if CharOf(s3) == NUL then ReadOf(s3) else (true, s3);
      if !rd.0 then Halt(Err(Expected("object value after colon", TotalOffset(rd.1))))
      else AfterColon(env, fieldMap, disallow, key, rd.1, p, mem)
  }

  /** The value of a member, then `}` or `,`. */
  function AfterColon(env: StreamEnv, fieldMap: map<Bytes, FieldSet>, disallow: bool,
                      key: Bytes, st: StreamState, p: nat, mem: Memory): (t: Round)
    requires StreamBehaves(env)
    ensures t.Again? ==> |Ahead(t.st)| <= |Ahead(st)|
    ensures t.Halt? && t.result.Got? ==> After(t.result.st.data, t.result.st.cursor, RBRACE)
  {
    match StreamMember(env, fieldMap, disallow, key, st, p, mem)
    case Err(e) => Halt(Err(e))
    case Got(s, mem') => AfterValue(s, mem')
  }

  /** After a value: `}` ends the object, `,` starts the next member. */
  function AfterValue(st: StreamState, mem: Memory): (t: Round)
    ensures t.Again? ==> |Ahead(t.st)| <= |Ahead(st)| && t.mem == mem
    ensures t.Halt? && t.result.Got? ==> After(t.result.st.data, t.result.st.cursor, RBRACE) && t.result.value == mem
  {
    var s := Refill(SkipOf(st));
    if CharOf(s) == RBRACE then Halt(Got(Advance(s), mem))
    else if CharOf(s) != COMMA then Halt(Err(Expected("comma after object element", TotalOffset(s))))
    else Again(Advance(s), mem)
  }

  /** The field a key names: the exact lookup in the field map. */
  function FieldOf(fieldMap: map<Bytes, FieldSet>, key: Bytes): (f: Option<FieldSet>)
    ensures f.Some? <==> key in fieldMap
    ensures f.Some? ==> f.value == fieldMap[key]
  {
    if key in fieldMap then Some(fieldMap[key]) else None
  }

  /** One member's value: the field's own decoder stores it at the field's
      address; a key that names no field is an error when unknown fields
      are disallowed, and its value is skipped otherwise. */
  function StreamMember(env: StreamEnv, fieldMap: map<Bytes, FieldSet>, disallow: bool,
                        key: Bytes, st: StreamState, p: nat, mem: Memory): (r: Step<Memory>)
    requires StreamBehaves(env)
    ensures r.Got? ==> |Ahead(r.st)| <= |Ahead(st)|
    ensures r.Got? ==> OnlyAt(mem, r.value, MemberAt(FieldOf(fieldMap, key), p))
    ensures key !in fieldMap && disallow ==> r == Err(UnknownField(key))
  {
    if key in fieldMap then
      (match env.child(fieldMap[key].dec, st)
       case Err(e) => Err(e)
       case Got(s, value) => Got(s, mem[p + fieldMap[key].offset := value]))
    else if disallow then Err(UnknownField(key))
    else
      (match env.skipValue(st)
       case Err(e) => Err(e)
       case Got(s, _) => Got(s, mem))
  }

  /** The stream `decodeStream` works on, updated in place. */
  class Stream {
    var data: Bytes
    var cursor: nat
    var offset: nat
    var chunks: seq<Bytes>
    const disallowUnknownFields: bool

    constructor (chunks: seq<Bytes>, disallowUnknownFields: bool)
      ensures State() == StreamState([], 0, 0, chunks)
      ensures this.disallowUnknownFields == disallowUnknownFields
    {
      data := [];
      cursor := 0;
      offset := 0;
      this.chunks := chunks;
      this.disallowUnknownFields := disallowUnknownFields;
    }

    function State(): StreamState
      reads this
    {
      StreamState(data, cursor, offset, chunks)
    }

    /** Takes over the stream a collaborator left. */
    method Become(st: StreamState)
      modifies this
      ensures State() == st
    {
      data, cursor, offset, chunks := st.data, st.cursor, st.offset, st.chunks;
    }

    method Read() returns (ok: bool)
      modifies this
      ensures (ok, State()) == ReadOf(old(State()))
    {
      if chunks == [] {
        return false;
      }
      if cursor > |data| {
        data := data + Nuls(cursor - |data|);
      }
      data := data + chunks[0];
      chunks := chunks[1..];
      return true;
    }

    method Reset()
      modifies this
      ensures State() == ResetOf(old(State()))
    {
      offset := offset + cursor;
      data := if cursor <= |data| then data[cursor..] else [];
      cursor := 0;
    }

    method SkipWhiteSpace()
      modifies this
      ensures State() == SkipOf(old(State()))
    {
      while true
        invariant SkipOf(State()) == SkipOf(old(State()))
        decreases |Ahead(State())|, |chunks|
      {
        var c := CharOf(State());
        if IsSpace(c) {
          cursor := cursor + 1;
        } else if c == NUL {
          var ok := Read();
          if !ok {
            return;
          }
        } else {
          return;
        }
      }
    }
  }

  /** `(*structDecoder).decodeStream`. */
  method DecodeStream(env: StreamEnv, d: StructDecoder, s: Stream, p: nat, mem: Memory) returns (r: Step<Memory>)
    requires StreamBehaves(env)
    modifies s
    ensures r == DecodeStreamSpec(env, d.fieldMap, s.disallowUnknownFields, old(s.State()), p, mem)
    ensures r.Got? ==> s.State() == r.st
  {
    s.SkipWhiteSpace();
    var c := CharOf(s.State());
    if c == LOWER_N {
      var n := env.nullBytes(s.State());
      if n.Err? {
        return Err(n.err);
      }
      s.Become(n.st);
      return Got(s.State(), mem);
    } else if c == NUL {
      var _ := s.Read();
    } else if c != LBRACE {
      return Err(NotAtBeginningOfValue(TotalOffset(s.State())));
    }
    s.cursor := s.cursor + 1;
    if CharOf(s.State()) == RBRACE {
      s.cursor := s.cursor + 1;
      return Got(s.State(), mem);
    }
    r := DecodeStreamMembers(env, d, s, p, mem);
  }

  /** The member loop of `decodeStream`. */
  method DecodeStreamMembers(env: StreamEnv, d: StructDecoder, s: Stream, p: nat, mem: Memory) returns (r: Step<Memory>)
    requires StreamBehaves(env)
    modifies s
    ensures r == StreamMembers(env, d.fieldMap, s.disallowUnknownFields, old(s.State()), p, mem)
    ensures r.Got? ==> s.State() == r.st
  {
    var m: Memory := mem;
    while true
      invariant StreamMembers(env, d.fieldMap, s.disallowUnknownFields, old(s.State()), p, mem)
             == StreamMembers(env, d.fieldMap, s.disallowUnknownFields, s.State(), p, m)
      decreases |Ahead(s.State())|
    {
      var t := DecodeStreamMember(env, d, s, p, m);
      if t.Halt? {
        return t.result;
      }
      m := t.mem;
    }
  }

  /** The body of the member loop of `decodeStream`. */
  method DecodeStreamMember(env: StreamEnv, d: StructDecoder, s: Stream, p: nat, mem: Memory) returns (t: Round)
    requires StreamBehaves(env)
    modifies s
    ensures t == StreamTurn(env, d.fieldMap, s.disallowUnknownFields, old(s.State()), p, mem)
    ensures t.Again? ==> s.State() == t.st
    ensures t.Halt? && t.result.Got? ==> s.State() == t.result.st
  {
    s.Reset();
    var k := env.decodeStreamByte(s.State());
    if k.Err? {
      return Halt(Err(k.err));
    }
    s.Become(k.st);
    t := DecodeStreamValue(env, d, s, k.value, p, mem);
  }

  /** The member loop after the key: `:` and the byte after it. */
  method DecodeStreamValue(env: StreamEnv, d: StructDecoder, s: Stream, key: Bytes, p: nat, mem: Memory)
    returns (t: Round)
    requires StreamBehaves(env)
    modifies s
    ensures t == AfterStreamKey(env, d.fieldMap, s.disallowUnknownFields, key, old(s.State()), p, mem)
    ensures t.Again? ==> s.State() == t.st
    ensures t.Halt? && t.result.Got? ==> s.State() == t.result.st
  {
    s.SkipWhiteSpace();
    if CharOf(s.State()) == NUL {
      var _ := s.Read();
    }
    if CharOf(s.State()) != COLON {
      return Halt(Err(Expected("colon after object key", TotalOffset(s.State()))));
    }
    s.cursor := s.cursor + 1;
    if CharOf(s.State()) == NUL {
      var ok := s.Read();
      if !ok {
        return Halt(Err(Expected("object value after colon", TotalOffset(s.State()))));
      }
    }
    t := DecodeStreamField(env, d, s, key, p, mem);
  }

  /** The value: the field's decoder, the unknown-field error, or a skip. */
  method DecodeStreamField(env: StreamEnv, d: StructDecoder, s: Stream, key: Bytes, p: nat, mem: Memory)
    returns (t: Round)
    requires StreamBehaves(env)
    modifies s
    ensures t == AfterColon(env, d.fieldMap, s.disallowUnknownFields, key, old(s.State()), p, mem)
    ensures t.Again? ==> s.State() == t.st
    ensures t.Halt? && t.result.Got? ==> s.State() == t.result.st
  {
    var m: Memory;
    if key in d.fieldMap {
      var field := d.fieldMap[key];
      var o := env.child(field.dec, s.State());
      if o.Err? {
        return Halt(Err(o.err));
      }
      s.Become(o.st);
      m := mem[p + field.offset := o.value];
    } else if s.disallowUnknownFields {
      return Halt(Err(UnknownField(key)));
    } else {
      var o := env.skipValue(s.State());
      if o.Err? {
        return Halt(Err(o.err));
      }
      s.Become(o.st);
      m := mem;
    }
    t := DecodeStreamClose(s, m);
  }

  /** `}` or `,` after a value. */
  method DecodeStreamClose(s: Stream, mem: Memory) returns (t: Round)
    modifies s
    ensures t == AfterValue(old(s.State()), mem)
    ensures t.Again? ==> s.State() == t.st
    ensures t.Halt? && t.result.Got? ==> s.State() == t.result.st
  {
    s.SkipWhiteSpace();
    if CharOf(s.State()) == NUL {
      var _ := s.Read();
    }
    var c := CharOf(s.State());
    if c == RBRACE {
      s.cursor := s.cursor + 1;
      return Halt(Got(s.State(), mem));
    }
    if c != COMMA {
      return Halt(Err(Expected("comma after object element", TotalOffset(s.State()))));
    }
    s.cursor := s.cursor + 1;
    return Again(s.State(), mem);
  }
}
