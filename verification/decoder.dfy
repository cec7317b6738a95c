/** `decodeKey` and the buffer engine `decode` of the struct decoder. The code
    they call but that is not part of this model (the string decoder,
    `skipValue`, the child decoders of the fields) is a parameter `env` of
    functions, constrained by `Behaves`: on success each resumes at or after
    its cursor, before the end of the buffer. The record being filled is a
    map from addresses to the value the child decoder stored there. */
module Decoder {
  import opened Bytes
  import opened Plan
  import opened Tables
  import opened KeyMatch
  import opened KeyFacts

  /** What a collaborator returns: the cursor after what it read and a
      value, or an error. */
  datatype Outcome<T> = Done(cursor: nat, value: T) | Failed(err: Error)

  /** The collaborators: `stringDecoder.decodeByte`, `skipValue`, and the
      `decode` of the field decoder with a given identity. */
  datatype Env = Env(
    decodeString: (Bytes, nat) -> Outcome<Bytes>,
    skipValue: (Bytes, nat) -> Outcome<()>,
    child: (nat, Bytes, nat) -> Outcome<Bytes>)

  /** A successful read resumes at or after `c` and inside the buffer. */
  predicate Forward<T>(buf: Bytes, c: nat, o: Outcome<T>) {
    o.Done? ==> c <= o.cursor < |buf|
  }

  ghost predicate Behaves(env: Env) {
    && (forall b: Bytes, c: nat :: Terminated(b) && c < |b| ==> Forward(b, c, env.decodeString(b, c)))
    && (forall b: Bytes, c: nat :: Terminated(b) && c < |b| ==> Forward(b, c, env.skipValue(b, c)))
    && (forall dec: nat, b: Bytes, c: nat :: Terminated(b) && c < |b| ==> Forward(b, c, env.child(dec, b, c)))
  }

  /** The record: what the child decoders stored, by address. */
  type Memory = map<nat, Bytes>

  /** What `decode` returns: the cursor after the value and the record, or
      an error (the source returns cursor 0 beside it). */
  datatype Result = Ok(cursor: nat, mem: Memory) | Fail(err: Error)

  /** `decodeKey`: the key string through the string decoder, then an exact,
      case-sensitive lookup in the field map; a miss names no field. */
  function DecodeKey(env: Env, fieldMap: map<Bytes, FieldSet>, buf: Bytes, cursor: nat): (r: KeyResult)
    requires Behaves(env) && Terminated(buf) && cursor < |buf|
    ensures r.KeyErr? ==> r.cursor == 0
    ensures r.KeyOk? ==> cursor <= r.cursor < |buf|
    ensures r.KeyOk? && r.field.Some? ==> r.field.value in fieldMap.Values
  {
    match env.decodeString(buf, cursor)
    case Failed(e) => KeyErr(0, e)
    case Done(c, key) => KeyOk(c, if key in fieldMap then Some(fieldMap[key]) else None)
  }

  /** The key decoder a struct decoder holds in `keyDecoder`, with what it
      reads: the field map for `decodeKey`, the matcher for the bitmap ones. */
  datatype Keys = ByMap(fieldMap: map<Bytes, FieldSet>) | ByBitmap(matcher: Matcher)

  function KeysOf(plan: KeyPlan): Keys {
    if plan.keyDecoder == DecodeKeyFn then ByMap(plan.fieldMap) else ByBitmap(MatcherOf(plan))
  }

  /** The key decoder can run. */
  ghost predicate Keyable(keys: Keys) {
    keys.ByBitmap? ==> WellFormed(keys.matcher)
  }

  lemma ValidKeyable(d: StructDecoder)
    requires d.Valid()
    ensures Keyable(KeysOf(d.Snapshot()))
  {
    if d.keyDecoder != DecodeKeyFn {
      ValidWellFormed(d.fieldMap, d.State(), MatcherOf(d.Snapshot()));
    }
  }

  /** The field sets the key decoder can name. */
  ghost function Fields(keys: Keys): set<FieldSet> {
    match keys
    case ByMap(fieldMap) => fieldMap.Values
    case ByBitmap(m) => set f | f in m.sets
  }

  /** The addresses of the fields of the record at `p`. */
  ghost function Addresses(keys: Keys, p: nat): set<nat> {
    set f | f in Fields(keys) :: p + f.offset
  }

  /** `d.keyDecoder(d, buf, cursor)`. */
  function KeyOf(env: Env, keys: Keys, buf: Bytes, cursor: nat): (r: KeyResult)
    requires Behaves(env) && Keyable(keys) && Terminated(buf) && cursor < |buf|
    ensures r.KeyOk? ==> cursor <= r.cursor < |buf|
    ensures r.KeyOk? && r.field.Some? ==> r.field.value in Fields(keys)
  {
    match keys
    case ByMap(fieldMap) => DecodeKey(env, fieldMap, buf, cursor)
    case ByBitmap(m) =>
      KeyByBitmapStops(m, buf, cursor);
      KeyByBitmap(m, buf, cursor)
  }

  /** `mem'` differs from `mem` only at addresses in `at`, and has no new
      address outside `at`. */
  ghost predicate OnlyAt(mem: Memory, mem': Memory, at: set<nat>) {
    && (forall a :: a in mem' && a !in at ==> a in mem && mem'[a] == mem[a])
    && (forall a :: a in mem && a !in at ==> a in mem')
  }

  /** `decode`: whitespace, then `null` or an object. */
  function DecodeSpec(env: Env, keys: Keys, buf: Bytes, cursor: nat, p: nat, mem: Memory): (r: Result)
    requires Behaves(env) && Keyable(keys) && Terminated(buf) && cursor < |buf|
    ensures r.Ok? ==> cursor < r.cursor < |buf|
  {
    var s := SkipWhiteSpace(buf, cursor);
    if buf[s] == LOWER_N then NullLiteral(buf, s, mem)
    else if buf[s] != LBRACE then Fail(NotAtBeginningOfValue(s))
    else if |buf| < 2 then Fail(UnexpectedEndOfJSON("object", s))
    else Members(env, keys, buf, s + 1, p, mem)
  }

  /** The `null` literal: four bytes, nothing written. */
  function NullLiteral(buf: Bytes, s: nat, mem: Memory): (r: Result)
    requires Terminated(buf) && s < |buf| && buf[s] == LOWER_N
    ensures r.Ok? ==> r == Ok(s + 4, mem) && r.cursor < |buf|
  {
    if s + 3 >= |buf| then Fail(UnexpectedEndOfJSON("null", s))
    else if buf[s + 1] != LOWER_U then Fail(InvalidCharacter(buf[s + 1], "null", s))
    else if buf[s + 2] != LOWER_L then Fail(InvalidCharacter(buf[s + 2], "null", s))
    else if buf[s + 3] != LOWER_L then Fail(InvalidCharacter(buf[s + 3], "null", s))
    else Ok(s + 4, mem)
  }

  /** Where one turn of the member loop leaves off: the result of `decode`,
      or the cursor after a `,` and the record so far. */
  datatype Turn = Stop(result: Result) | Next(cursor: nat, mem: Memory)

  /** The byte just before `e` is `b`. */
  predicate After(buf: Bytes, e: nat, b: Byte) {
    0 < e <= |buf| && buf[e - 1] == b
  }

  /** One turn of the member loop at `c`: key, `:` and at least one more
      byte, the value (decoded into the field the key names, skipped
      otherwise), then `}` or `,`. */
  function MemberTurn(env: Env, keys: Keys, buf: Bytes, c: nat, p: nat, mem: Memory): (t: Turn)
    requires Behaves(env) && Keyable(keys) && Terminated(buf) && c < |buf|
    ensures t.Next? ==> c < t.cursor < |buf| && After(buf, t.cursor, COMMA)
    ensures t.Stop? && t.result.Ok? ==> c < t.result.cursor < |buf| && After(buf, t.result.cursor, RBRACE)
  {
    AfterKey(env, KeyOf(env, keys, buf, c), buf, c, p, mem)
  }

  /** The rest of a turn once the key decoder, started at `c`, has given
      `k`. */
  function AfterKey(env: Env, k: KeyResult, buf: Bytes, c: nat, p: nat, mem: Memory): (t: Turn)
    requires Behaves(env) && Terminated(buf) && c < |buf|
    requires k.KeyOk? ==> c <= k.cursor < |buf|
    ensures t.Next? ==> c < t.cursor < |buf| && After(buf, t.cursor, COMMA)
    ensures t.Stop? && t.result.Ok? ==> c < t.result.cursor < |buf| && After(buf, t.result.cursor, RBRACE)
  {
    if k.KeyErr? then Stop(Fail(k.err))
    else
      var colon := SkipWhiteSpace(buf, k.cursor);
      if buf[colon] != COLON then Stop(Fail(Expected("colon after object key", colon)))
      else if colon + 1 >= |buf| then Stop(Fail(Expected("object value after colon", colon + 1)))
      else
        var v := Member(env, k.field, buf, colon + 1, p, mem);
        if v.Fail? then Stop(v)
        else
          var next := SkipWhiteSpace(buf, v.cursor);
          if buf[next] == RBRACE then Stop(Ok(next + 1, v.mem))
          else if buf[next] != COMMA then Stop(Fail(Expected("comma after object element", next)))
          else Next(next + 1, v.mem)
  }

  /** A turn writes at most the address of the field its key names. */
  lemma TurnWritesField(env: Env, keys: Keys, buf: Bytes, c: nat, p: nat, mem: Memory)
    requires Behaves(env) && Keyable(keys) && Terminated(buf) && c < |buf|
    ensures var t := MemberTurn(env, keys, buf, c, p, mem);
      && (t.Next? ==> OnlyAt(mem, t.mem, Addresses(keys, p)))
      && (t.Stop? && t.result.Ok? ==> OnlyAt(mem, t.result.mem, Addresses(keys, p)))
  {
    var t := MemberTurn(env, keys, buf, c, p, mem);
    var k := KeyOf(env, keys, buf, c);
    if k.KeyOk? {
      var colon := SkipWhiteSpace(buf, k.cursor);
      if buf[colon] == COLON && colon + 1 < |buf| {
        var v := Member(env, k.field, buf, colon + 1, p, mem);
        if v.Ok? {
          FieldAddress(keys, k.field, p);
          OnlyAtWithin(mem, v.mem, MemberAt(k.field, p), Addresses(keys, p));
          assert t.Next? ==> t.mem == v.mem;
          assert t.Stop? && t.result.Ok? ==> t.result.mem == v.mem;
        }
      }
    }
  }

  /** The member loop from `c`, as long as `c` is inside the buffer;
      leaving the buffer ends it with success. */
  function Members(env: Env, keys: Keys, buf: Bytes, c: nat, p: nat, mem: Memory): (r: Result)
    requires Behaves(env) && Keyable(keys) && Terminated(buf) && c <= |buf|
    ensures r.Ok? && c < |buf| ==> c < r.cursor < |buf| && After(buf, r.cursor, RBRACE)
    decreases |buf| - c
  {
    if c >= |buf| then Ok(c, mem)
    else
      match MemberTurn(env, keys, buf, c, p, mem)
      case Stop(r) => r
      case Next(next, mem') => Members(env, keys, buf, next, p, mem')
  }

  /** The member loop writes only at the addresses of the record's fields,
      and keeps every other address. */
  lemma {:induction false} MembersWriteFields(env: Env, keys: Keys, buf: Bytes, c: nat, p: nat, mem: Memory)
    requires Behaves(env) && Keyable(keys) && Terminated(buf) && c <= |buf|
    ensures var r := Members(env, keys, buf, c, p, mem);
      r.Ok? ==> OnlyAt(mem, r.mem, Addresses(keys, p))
    decreases |buf| - c
  {
    if c < |buf| {
      TurnWritesField(env, keys, buf, c, p, mem);
      var t := MemberTurn(env, keys, buf, c, p, mem);
      if t.Next? {
        MembersWriteFields(env, keys, buf, t.cursor, p, t.mem);
        var r := Members(env, keys, buf, t.cursor, p, t.mem);
        if r.Ok? {
          OnlyAtThen(mem, t.mem, r.mem, Addresses(keys, p));
        }
      }
    }
  }

  /** Where a member's value is stored: the field's address, or nowhere. */
  function MemberAt(field: Option<FieldSet>, p: nat): set<nat> {
    if field.Some? then {p + field.value.offset} else {}
  }

  /** One member's value: decoded by the field's decoder into `p + offset`,
      or skipped when the key names no field. */
  function Member(env: Env, field: Option<FieldSet>, buf: Bytes, c: nat, p: nat, mem: Memory): (r: Result)
    requires Behaves(env) && Terminated(buf) && c < |buf|
    ensures r.Ok? ==> c <= r.cursor < |buf|
    ensures r.Ok? ==> r.mem.Keys == mem.Keys + MemberAt(field, p)
    ensures r.Ok? ==> OnlyAt(mem, r.mem, MemberAt(field, p))
  {
    match field
    case Some(f) =>
      (match env.child(f.dec, buf, c)
       case Failed(e) => Fail(e)
       case Done(next, value) => Ok(next, mem[p + f.offset := value]))
    case None =>
      (match env.skipValue(buf, c)
       case Failed(e) => Fail(e)
       case Done(next, _) => Ok(next, mem))
  }

  /** A field the key decoder names has its address among the record's. */
  lemma FieldAddress(keys: Keys, field: Option<FieldSet>, p: nat)
    requires field.Some? ==> field.value in Fields(keys)
    ensures MemberAt(field, p) <= Addresses(keys, p)
  {
    if field.Some? {
      assert p + field.value.offset in Addresses(keys, p);
    }
  }

  /** Changes confined to `at` stay confined to any larger set. */
  lemma OnlyAtWithin(m0: Memory, m1: Memory, at: set<nat>, within: set<nat>)
    requires at <= within && OnlyAt(m0, m1, at)
    ensures OnlyAt(m0, m1, within)
  {
  }

  /** Changes confined to `at` compose. */
  lemma OnlyAtThen(m0: Memory, m1: Memory, m2: Memory, at: set<nat>)
    requires OnlyAt(m0, m1, at) && OnlyAt(m1, m2, at)
    ensures OnlyAt(m0, m2, at)
  {
  }

  /** `decode` on the decoder `d`: the loop of the source. */
  method Decode(tables: Tables, env: Env, d: StructDecoder, buf: Bytes, cursor: nat, p: nat, mem: Memory)
    returns (r: Result)
    requires tables.Ready() && d.Valid() && Behaves(env)
    requires Terminated(buf) && cursor < |buf|
    ensures Keyable(KeysOf(d.Snapshot()))
    ensures r == DecodeSpec(env, KeysOf(d.Snapshot()), buf, cursor, p, mem)
  {
    ValidKeyable(d);
    ghost var keys := KeysOf(d.Snapshot());
    var buflen := |buf|;
    var c := SkipWhiteSpace(buf, cursor);
    if buf[c] == LOWER_N {
      r := DecodeNull(buf, c, mem);
      return;
    } else if buf[c] != LBRACE {
      return Fail(NotAtBeginningOfValue(c));
    }
    if buflen < 2 {
      return Fail(UnexpectedEndOfJSON("object", c));
    }
    c := c + 1;
    var m: Memory := mem;
    while c < buflen
      invariant c <= buflen
      invariant DecodeSpec(env, keys, buf, cursor, p, mem) == Members(env, keys, buf, c, p, m)
      decreases buflen - c
    {
      var t := DecodeMember(tables, env, d, buf, c, p, m);
      if t.Stop? {
        return t.result;
      }
      c, m := t.cursor, t.mem;
    }
    return Ok(c, m);
  }

  /** The body of the member loop of `decode`. */
  method DecodeMember(tables: Tables, env: Env, d: StructDecoder, buf: Bytes, cursor: nat, p: nat, mem: Memory)
    returns (t: Turn)
    requires tables.Ready() && d.Valid() && Behaves(env)
    requires Terminated(buf) && cursor < |buf|
    ensures Keyable(KeysOf(d.Snapshot()))
    ensures t == MemberTurn(env, KeysOf(d.Snapshot()), buf, cursor, p, mem)
  {
    var buflen := |buf|;
    var k := DecodeKeyWith(tables, env, d, buf, cursor);
    if k.KeyErr? {
      return Stop(Fail(k.err));
    }
    var c := SkipWhiteSpace(buf, k.cursor);
    if buf[c] != COLON {
      return Stop(Fail(Expected("colon after object key", c)));
    }
    c := c + 1;
    if c >= buflen {
      return Stop(Fail(Expected("object value after colon", c)));
    }
    var v := DecodeValue(env, k.field, buf, c, p, mem);
    if v.Fail? {
      return Stop(v);
    }
    c := SkipWhiteSpace(buf, v.cursor);
    if buf[c] == RBRACE {
      return Stop(Ok(c + 1, v.mem));
    }
    if buf[c] != COMMA {
      return Stop(Fail(Expected("comma after object element", c)));
    }
    return Next(c + 1, v.mem);
  }

  /** The `null` branch of `decode`. */
  method DecodeNull(buf: Bytes, c: nat, mem: Memory) returns (r: Result)
    requires Terminated(buf) && c < |buf| && buf[c] == LOWER_N
    ensures r == NullLiteral(buf, c, mem)
  {
    if c + 3 >= |buf| {
      return Fail(UnexpectedEndOfJSON("null", c));
    }
    if buf[c + 1] != LOWER_U {
      return Fail(InvalidCharacter(buf[c + 1], "null", c));
    }
    if buf[c + 2] != LOWER_L {
      return Fail(InvalidCharacter(buf[c + 2], "null", c));
    }
    if buf[c + 3] != LOWER_L {
      return Fail(InvalidCharacter(buf[c + 3], "null", c));
    }
    return Ok(c + 4, mem);
  }

  /** `d.keyDecoder(d, buf, cursor)`: the call through the function the
      decoder holds. */
  method DecodeKeyWith(tables: Tables, env: Env, d: StructDecoder, buf: Bytes, c: nat) returns (k: KeyResult)
    requires tables.Ready() && d.Valid() && Behaves(env)
    requires Terminated(buf) && c < |buf|
    ensures Keyable(KeysOf(d.Snapshot()))
    ensures k == KeyOf(env, KeysOf(d.Snapshot()), buf, c)
  {
    ValidKeyable(d);
    if d.keyDecoder == DecodeKeyFn {
      k := DecodeKey(env, d.fieldMap, buf, c);
    } else {
      k := DecodeKeyByBitmap(tables, d, buf, c);
    }
  }

  /** A member's value: `field.dec.decode` at `p + offset`, or `skipValue`. */
  method DecodeValue(env: Env, field: Option<FieldSet>, buf: Bytes, c: nat, p: nat, mem: Memory) returns (r: Result)
    requires Behaves(env) && Terminated(buf) && c < |buf|
    ensures r == Member(env, field, buf, c, p, mem)
  {
    match field {
      case Some(f) =>
        var value := env.child(f.dec, buf, c);
        if value.Failed? {
          return Fail(value.err);
        }
        return Ok(value.cursor, mem[p + f.offset := value.value]);
      case None =>
        var skipped := env.skipValue(buf, c);
        if skipped.Failed? {
          return Fail(skipped.err);
        }
        return Ok(skipped.cursor, mem);
    }
  }
}
