# go-json struct decoder, modelled in Dafny

This project models the struct decoder of go-json (`decode_struct.go`). The
decoder reads a JSON object into a Go struct. It covers:

- the two lookup tables that `init` fills once: `bitHashTable`, which maps
  a single set bit's de Bruijn hash to the bit's index, and
  `largeToSmallTable` for ASCII lower-casing;
- `structFieldSet` and `structDecoder`, with `newStructDecoder`;
- `tryOptimize`. For a struct with at most 16 lower-cased keys, none longer
  than 64 bytes, it sorts the keys. It then builds a per-position key bitmap
  of 8-bit or 16-bit masks and switches the key decoder to
  `decodeKeyByBitmapInt8` or `decodeKeyByBitmapInt16`;
- the three key decoders:
  - `decodeKey`, the exact lookup of the decoded key in the field map;
  - the two bitmap matchers, modelled once over a mask width;
- the buffer engine `decode`: `null`, or an object whose members are read
  by key decoder, colon, child decoder or `skipValue`, then `,` or `}`;
- the stream engine `decodeStream`, the same loop over a stream that
  refills from a reader.

The input buffer is a byte sequence that ends with a nul byte, as go-json
pads its buffers (`Bytes.Terminated`). Every byte past the data reads as
nul. The record the decoder fills is a map from addresses to stored values.
The collaborators are function values that the model takes as parameters,
constrained to consume input and stay inside the buffer (`Decoder.Behaves`,
`Streams.StreamBehaves`). These collaborators are the string decoder,
`skipValue`, `nullBytes` and the child decoders.

Each engine is specified by a function and implemented by a method whose
`ensures` ties it to that function:

| engine | specification | method |
|---|---|---|
| buffer | `DecodeSpec` | `Decode` |
| stream | `DecodeStreamSpec` | `DecodeStream` |
| key bitmap | `KeyByBitmap` | `DecodeKeyByBitmap` |

Each of these methods reads the `Tables` arrays and the `StructDecoder`
fields as the source does. The lemmas in `KeyFacts`, `DecodeFacts` and
`StreamFacts` state what the specifications mean over all inputs:

- which field a key names;
- which errors appear where;
- that an object always ends just past a `}`;
- that only the addresses of the record's fields are written.

Where the description of the system and the code differ, the model follows
the code:

- `decode` has no special case for `{}`. The byte after `{` goes straight
  to the key decoder, so a bitmap decoder rejects `{}`
  (`DecodeFacts.BitmapRejectsEmptyObject`). Only `decodeStream` checks for
  `}` right after `{`.
- Unknown-field rejection exists only in `decodeStream`. The buffer engine
  always skips unknown keys.
- The model takes `buflen` to count the nul byte that ends the buffer, so
  `buflen` is the length of the byte sequence. Under that reading the check
  `buflen < 2`, the "object value after colon" exit
  (`DecodeFacts.ColonHasValue`) and the final `return cursor, nil` of
  `decode` are never reached. There is no case in which the member loop
  runs off the end after a `,` and returns success: every successful object
  ends just past a `}` (`DecodeFacts.ObjectEndsAtBrace`).

The stream type (stream.go) is not part of this model. Its buffer, cursor,
offset, `char`, `read`, `reset` and `skipWhiteSpace` are written from the
way `decodeStream` uses them (`Streams.StreamState`, class
`Streams.Stream`). A read appends the reader's next chunk.

Modules, one per file:

- `Bytes`: bytes, lower-casing, whitespace, errors.
- `Masks`: bit masks and the lowest set bit.
- `Order`: Go string order and `sort.Strings`.
- `Tables`: `init`.
- `Plan`: the decoder and `tryOptimize`.
- `KeyMatch`: the bitmap key decoders.
- `KeyFacts`: what they answer.
- `KeyFixes`: the corrected matcher.
- `Decoder`: `decodeKey` and `decode`.
- `DecodeFacts`: properties of `decode`.
- `Streams`: `decodeStream`.
- `StreamFacts`: properties of `decodeStream`.
- `Agreement`: the bitmap key decoders against `decodeKey`.

## Model

| member | source | states |
|---|---|---|
| Bytes.LowerString | decode_struct.go:68-72 | `strings.ToLower` on ASCII: same length, each byte lower-cased |
| Bytes.LowerKeepsDelimiters | decode_struct.go:169 | lower-casing never creates or removes a quote, nul or backslash, so the matcher's delimiter tests are unaffected by the table lookup |
| Bytes.SkipWhiteSpace | decode_struct.go:364 | the cursor moves to the first non-whitespace byte at or after it, inside the buffer |
| Bytes.SkipsOnlySpace | decode_struct.go:395 | every byte skipped is whitespace |
| Tables.FillBitHashTable | decode_struct.go:36-39 | after the loop, the slot of bit `i`'s hash `(DeBruijn64 << i) >> 58` holds `i`, for all 64 bits |
| Tables.FilledPlaces | decode_struct.go:36-39 | after `i` rounds of the hash loop, each of the first `i` slots written still holds its bit, because no later round overwrites it |
| Tables.SlotsDistinct | decode_struct.go:36-39 | the 64 hash slots are pairwise distinct, so the table is a perfect inverse of the hash |
| Tables.SlotOfBit | decode_struct.go:144-145 | the matcher's `(x * 0x03F566ED27179461) >> 58` for `x == 1 << k` is the slot of bit `k` |
| Tables.FillLargeToSmallTable | decode_struct.go:40-46 | entry `c` of the lower-casing table is `c` with `A`-`Z` shifted to `a`-`z`, every other byte unchanged |
| Tables.Tables.Init | decode_struct.go:34-47 | `init` leaves both tables ready: 64 hash slots inverting the hash, 256 lower-casing entries |
| Order.SortStrings | decode_struct.go:92 | `sort.Strings` returns a permutation of the keys |
| Order.SortStringsSorted | decode_struct.go:92 | the result is in ascending Go string order |
| Order.SortDistinct | decode_struct.go:92 | distinct keys come out strictly ascending |
| Order.LessTotal | decode_struct.go:92 | Go string order is total: of two distinct strings one is less |
| Order.LessTransitive | decode_struct.go:92 | Go string order is transitive |
| Masks.Top | decode_struct.go:121 | the source's starting mask `math.MaxInt8` (`math.MaxInt16`) holds every bit of its width except the highest |
| Masks.LowestBit | decode_struct.go:143-146 | the index of the lowest set bit: set, and no lower bit set |
| Masks.IsolateLowest | decode_struct.go:144 | `curBit & -curBit` is `1 << LowestBit(curBit)` |
| Masks.NarrowWiden | decode_struct.go:93-103 | a 16-bit table using only the low 8 bits survives storage as the `int8` table |
| Plan.StructDecoder.NewStructDecoder | decode_struct.go:49-57 | a new decoder has the given field map, `decodeKey` as key decoder, no tables and no sorted field sets |
| Plan.StructDecoder.TryOptimize | decode_struct.go:64-116 | already tried: nothing changes. Not eligible (more than 16 lower-cased keys, or one longer than 64 bytes): only `isTriedOptimize` is set. Eligible: the key decoder, table and field sets form the plan `PlanOf`, and the table not chosen is untouched. The plan invariant `Valid` is kept |
| Plan.LowerKeys | decode_struct.go:68-72 | the lower-cased map has exactly the lower-cased keys, each mapped to the field set of one key that lowers to it |
| Plan.EligibleIff | decode_struct.go:74-91 | the two early returns of `tryOptimize` happen exactly when the field map is not eligible |
| Plan.CollectKeys | decode_struct.go:79-91 | succeeds exactly when no key is longer than 64 bytes. Then it yields each lower-cased key once and the longest key's length |
| Plan.SortedKeys | decode_struct.go:92 | the sorted keys are the lower-cased keys, each once, strictly ascending |
| Plan.BuildBitmap | decode_struct.go:93-115 | the table has one row per byte of the longest key. Bit `b` of `bitmap[r][c]` is set exactly when sorted key `b` has byte `c` at position `r`. Field set `i` is the one for sorted key `i` |
| Plan.EncodesBit | decode_struct.go:98 | in a built table, a set bit means exactly that the key has that byte there |
| Plan.EncodesFitsByte | decode_struct.go:93-98 | with at most 8 keys every mask fits in 8 bits |
| Plan.MakePlan | decode_struct.go:92-115 | from the lower-cased keys, builds the sorted keys, the 8-bit kind for at most 8 keys (16-bit otherwise), the encoding table and the field sets appended in key order |
| Plan.PlanValid | decode_struct.go:93-115 | a plan `tryOptimize` builds on a valid decoder is valid again: it has the shape the bitmap key decoders need, and sorted field set `i` is the field set of a field-map key lowering to sorted key `i`. This holds on a repeated call too: a successful run never sets `isTriedOptimize`, so the field sets are appended again behind the first ones |
| Plan.PlanShape | decode_struct.go:74-115 | a plan of at most 16 lower-cased keys installs a bitmap decoder, 8-bit only for at most 8 keys, whose sorted keys are exactly the lower-cased keys, with a field set per key and no key longer than the table |
| Plan.PlanSetsFresh | decode_struct.go:68-111 | on a first run, field set `i` is the field set of a field-map key that lowers to sorted key `i` |
| Plan.PlanSetsKept | decode_struct.go:100 | on a repeated run, which appends behind the earlier field sets, index `i` still names the field set of a key lowering to sorted key `i`, because the sorted keys are the same |
| KeyMatch.ValidWellFormed | decode_struct.go:138-139 | the plan invariant makes every row 256 entries wide, and every candidate names a field set |
| KeyMatch.DecodeKeyByBitmap | decode_struct.go:118-195 | `decodeKeyByBitmapInt8`/`Int16` (lines 201-278 are the same at 16 bits) answer `KeyByBitmap` on the decoder's table, width and field sets |
| KeyMatch.MatchKey | decode_struct.go:123-136 | whitespace, the opening quote, the empty key and the end of input are handled as `KeyByBitmap` says |
| KeyMatch.ScanKey | decode_struct.go:137-190 | the inner key loop answers `Scan` from the starting mask `MaxInt8`/`MaxInt16` |
| KeyMatch.Entry | decode_struct.go:169 | the table entry for position `keyIdx` and the lower-cased byte |
| KeyMatch.ResolveField | decode_struct.go:143-146 | the field set found through `bitHashTable` is the one at the lowest candidate's index |
| KeyMatch.HashOfLowest | decode_struct.go:144-145 | the hash of `curBit & -curBit` is the slot of the lowest candidate |
| KeyMatch.SkipString | decode_struct.go:171-185 | the skip loop answers `SkipAt`: past the next quote, a backslash taking the next byte along, an error at nul |
| KeyFacts.ValidSound | decode_struct.go:93-115 | an optimized decoder's matcher encodes its sorted keys |
| KeyFacts.CandBit | decode_struct.go:169 | after `n` key bytes, candidate `b` is left exactly when it was in the starting mask and sorted key `b` begins with those bytes, lower-cased |
| KeyFacts.CandZeroStays | decode_struct.go:170 | once no candidate is left, none comes back |
| KeyFacts.SkipPlain | decode_struct.go:171-185 | over bytes with no quote, backslash or nul, the skip loop stops just past the closing quote with no field |
| KeyFacts.ScanPlain | decode_struct.go:137-190 | on a plain key the key loop returns just past the closing quote with `Lookup(key)`, the lowest candidate left after all key bytes |
| KeyFacts.KeyByBitmapPlain | decode_struct.go:123-190 | the whole bitmap decoder on `"k"` after whitespace answers `Lookup(k)` |
| KeyFacts.KeyFound | decode_struct.go:118-195 | a plain key equal, ignoring ASCII case, to sorted key `i` (below the last bit of the width) names field set `i` |
| KeyFacts.ExactKeyFound | decode_struct.go:137-148 | `Lookup` of a key equal to sorted key `i` (below the last bit) is field set `i` |
| KeyFacts.LookupFirstAgreeing | decode_struct.go:137-148 | `Lookup(k)` is the field set of the first sorted key below the top bit that begins with `k`, ignoring ASCII case, and names no field exactly when there is no such key |
| KeyFacts.LookupGone | decode_struct.go:170-186 | a key whose candidates run out names no field |
| KeyFacts.LookupLong | decode_struct.go:152-168 | a key longer than the longest struct key names no field |
| KeyFacts.LastKeyMissed | decode_struct.go:121 | with exactly 8 (16) keys, the last sorted key is never found |
| KeyFacts.PrefixKeyFound | decode_struct.go:143-148 | a proper prefix of a struct key finds a field |
| KeyFacts.SkipStops | decode_struct.go:153-167 | the skip loop ends just past a quote inside the buffer, names no field, or fails at nul with cursor 0 |
| KeyFacts.ScanStops | decode_struct.go:140-188 | the key loop ends just past a quote inside the buffer or fails with cursor 0 |
| KeyFacts.ScanNames | decode_struct.go:143-148 | a field the key loop names is one of the decoder's field sets |
| KeyFacts.KeyByBitmapStops | decode_struct.go:123-193 | a key read by the bitmap decoder ends after the cursor, just past a quote, inside the buffer |
| KeyFacts.EscapedKeyOverrun | decode_struct.go:170-185 | the key `\\` (an escaped backslash) runs past its closing quote to the end of input, where reading the string stops at the quote |
| KeyFixes.Full | decode_struct.go:121 | the corrected starting mask holds every bit of the width |
| KeyFixes.FixedPlain | decode_struct.go:123-190 | the corrected decoder on `"k"` answers `LookupFixed(k)` just past the closing quote |
| KeyFixes.FixedFinds | decode_struct.go:137-148 | the corrected lookup is exact, ignoring ASCII case: a key equal to sorted key `i` names field set `i`, any other key names none |
| KeyFixes.FixedReadsString | decode_struct.go:152-186 | with no key holding a backslash, the corrected loop reads to the same place as the skip loop from the first key byte |
| KeyFixes.FixedReadsToken | decode_struct.go:123-193 | the corrected decoder reads exactly one JSON string token |
| KeyFixes.NoEscapeKeys | decode_struct.go:93-99 | a table built from keys with no backslash has no candidate for one |
| Decoder.DecodeKey | decode_struct.go:280-292 | a string decoder error is returned with cursor 0. Otherwise the cursor is at or after the start, and a named field is one of the map's |
| Decoder.ValidKeyable | decode_struct.go:390 | a decoder that passed `tryOptimize` or was never optimized has a runnable key decoder |
| Decoder.KeyOf | decode_struct.go:390 | whichever key decoder is installed resumes inside the buffer and names only the struct's field sets |
| Decoder.DecodeSpec | decode_struct.go:362-426 | on success `decode` resumes after the cursor, inside the buffer |
| Decoder.NullLiteral | decode_struct.go:366-380 | `null` consumes exactly four bytes and writes nothing |
| Decoder.MemberTurn | decode_struct.go:390-423 | a turn that goes on ends just past a `,`, and a turn that ends the object ends just past a `}`, both after the cursor |
| Decoder.AfterKey | decode_struct.go:394-423 | the same, once the key decoder has answered |
| Decoder.TurnWritesField | decode_struct.go:403-415 | a turn writes at most the address of the field its key names |
| Decoder.Members | decode_struct.go:389-424 | a successful member loop ends just past a `}` |
| Decoder.MembersWriteFields | decode_struct.go:389-424 | the member loop writes only the addresses of the record's fields |
| Decoder.Member | decode_struct.go:403-415 | a member's value is stored at `p + offset` of its field and nowhere else, or nowhere for an unknown key |
| Decoder.FieldAddress | decode_struct.go:404 | a named field's address is one of the record's |
| Decoder.Decode | decode_struct.go:362-426 | the method answers `DecodeSpec` |
| Decoder.DecodeMember | decode_struct.go:390-423 | the loop body answers `MemberTurn` |
| Decoder.DecodeNull | decode_struct.go:366-380 | the `null` branch answers `NullLiteral` |
| Decoder.DecodeKeyWith | decode_struct.go:390 | the call through `keyDecoder` answers `KeyOf` |
| Decoder.DecodeValue | decode_struct.go:403-415 | the value step answers `Member` |
| DecodeFacts.DecodeWritesFields | decode_struct.go:362-426 | `decode` writes only the addresses of the record's fields |
| DecodeFacts.ObjectIsMembers | decode_struct.go:381-389 | after `{` the member loop starts at the next byte |
| DecodeFacts.NullLiteralIff | decode_struct.go:366-380 | `null` succeeds exactly when the next three bytes are `ull`, and then returns four bytes on with the record unchanged |
| DecodeFacts.NotAtValue | decode_struct.go:382-383 | any other first byte fails with not-at-beginning-of-value at its offset |
| DecodeFacts.ObjectEndsAtBrace | decode_struct.go:385-425 | a decoded object ends just past a `}`, so the end-of-buffer return is never taken |
| DecodeFacts.BitmapRejectsEmptyObject | decode_struct.go:388-393 | with a bitmap key decoder, `{}` fails at the `}` |
| DecodeFacts.UnknownKeySkipped | decode_struct.go:409-415 | a key naming no field has its value skipped and nothing written |
| DecodeFacts.OneMember | decode_struct.go:388-419 | `{"k":v}` stores the child's value at the field's address and ends past the `}` |
| DecodeFacts.OneMemberByMap | decode_struct.go:280-292 | the same through `decodeKey`, for a key in the field map |
| DecodeFacts.OneMemberByBitmap | decode_struct.go:118-195 | the same through a bitmap decoder, for a plain key equal, ignoring ASCII case, to sorted key `i` |
| DecodeFacts.MissingColon | decode_struct.go:395-398 | a key not followed, after whitespace, by `:` fails the turn with "colon after object key" at that offset |
| DecodeFacts.ColonHasValue | decode_struct.go:399-415 | a `:` is never the last byte of a nul-terminated buffer, so the "object value after colon" exit is never taken: the value decoder runs just past the colon, and its error is the turn's error |
| DecodeFacts.MissingComma | decode_struct.go:416-423 | a value followed, after whitespace, by a byte other than `}` or `,` fails the turn with "comma after object element" at that byte |
| DecodeFacts.CommaAfterValue | decode_struct.go:416-423 | the same, once the key decoder has answered |
| DecodeFacts.BitmapKeyAt | decode_struct.go:390 | the bitmap decoder called after `{` names field set `i` |
| Streams.CharOf | decode_struct.go:296 | `s.char()` is the byte at the cursor, nul past the buffered bytes |
| Streams.ReadOf | decode_struct.go:302 | `s.read()` succeeds exactly when the reader has more. It keeps the cursor, offset and the input ahead |
| Streams.ResetOf | decode_struct.go:315 | `s.reset()` drops consumed bytes, keeping the total offset, the byte at the cursor and the input ahead |
| Streams.Advance | decode_struct.go:309 | `s.cursor++` adds one to the total offset and consumes one byte of input |
| Streams.SkipOf | decode_struct.go:295 | `s.skipWhiteSpace()` stops at a non-whitespace byte, or at nul only when the reader is exhausted |
| Streams.Refill | decode_struct.go:321-323 | reading at nul keeps the input ahead, and does nothing at another byte |
| Streams.DecodeStreamSpec | decode_struct.go:294-360 | a decoded object ends just past a `}` |
| Streams.StreamMembers | decode_struct.go:314-359 | the member loop, ending just past a `}` on success |
| Streams.StreamTurn | decode_struct.go:315-359 | a turn that goes on consumes input, and a turn that ends the object ends just past a `}` |
| Streams.AfterStreamKey | decode_struct.go:320-359 | the same, after the key |
| Streams.AfterColon | decode_struct.go:333-359 | the same, after the colon |
| Streams.AfterValue | decode_struct.go:346-358 | `}` ends the object with the record as it is, and `,` goes on |
| Streams.FieldOf | decode_struct.go:333-334 | the field map lookup: found exactly when the key is in the map |
| Streams.StreamMember | decode_struct.go:333-345 | the value is stored only at its field's address, and an unknown key fails with the unknown-field error when unknown fields are disallowed |
| Streams.Stream.Read | decode_struct.go:302 | the method answers `ReadOf` |
| Streams.Stream.Reset | decode_struct.go:315 | the method answers `ResetOf` |
| Streams.Stream.SkipWhiteSpace | decode_struct.go:295 | the method answers `SkipOf` |
| Streams.DecodeStream | decode_struct.go:294-360 | the method answers `DecodeStreamSpec` and leaves the stream in the state it names |
| Streams.DecodeStreamMembers | decode_struct.go:314-359 | the loop answers `StreamMembers` |
| Streams.DecodeStreamMember | decode_struct.go:315-359 | the loop body answers `StreamTurn` |
| Streams.DecodeStreamValue | decode_struct.go:320-359 | the rest of the body after the key answers `AfterStreamKey` |
| Streams.DecodeStreamField | decode_struct.go:333-359 | the value step answers `AfterColon` |
| Streams.DecodeStreamClose | decode_struct.go:346-358 | the end of the body answers `AfterValue` |
| StreamFacts.AdvanceTakesOne | decode_struct.go:309 | advancing over a byte consumes exactly that byte |
| StreamFacts.SkipsOnlyWhiteSpace | decode_struct.go:295 | `skipWhiteSpace` consumes a prefix made only of whitespace |
| StreamFacts.StreamEmptyObject | decode_struct.go:309-313 | `{}` ends just past the `}` with nothing written |
| StreamFacts.StreamNotAtValue | decode_struct.go:304-307 | a byte other than `n`, `{` or nul fails with not-at-beginning-of-value at the total offset |
| StreamFacts.EndOfInputGoesToKeyDecoder | decode_struct.go:300-309 | at the end of input, `decodeStream` steps past the end without checking for `{` and hands the exhausted stream to the key decoder, whose error it returns |
| StreamFacts.UnknownFieldRejected | decode_struct.go:339-340 | with unknown fields disallowed, a key not in the map fails with the unknown-field error |
| StreamFacts.UnknownFieldSkipped | decode_struct.go:341-344 | otherwise its value is skipped and nothing is written |
| StreamFacts.StreamMissingColon | decode_struct.go:320-325 | a key without `:` fails with "colon after object key" at the total offset |
| StreamFacts.StreamNoValueAfterColon | decode_struct.go:327-332 | a `:` followed by the end of the input fails with "object value after colon" at the offset after it |
| StreamFacts.StreamMissingComma | decode_struct.go:346-357 | after a member's value, a byte other than `}` or `,`, past whitespace and refilling, fails with "comma after object element" at its offset |
| StreamFacts.StreamStoresField | decode_struct.go:333-353 | `"k":v}` for a known key stores the child's value at the field's address and ends past the `}` |
| StreamFacts.TurnWritesFields | decode_struct.go:315-359 | a turn writes only addresses of the record's fields |
| StreamFacts.StreamWritesFields | decode_struct.go:294-360 | `decodeStream` writes only the addresses of the record's fields |
| StreamFacts.MembersWrite | decode_struct.go:314-359 | the same, for the member loop |
| Agreement.SortedSetIsField | decode_struct.go:68-111 | on a decoder that passed `tryOptimize`, sorted field set `i` is the field set of the field-map key `k` lowering to sorted key `i`, when no other key lowers to the same bytes |
| Agreement.KeyDecodersAgree | decode_struct.go:118-195 | for a plain key `"k"` of the field map that is the only key lowering to its lower-cased form, sorted below the top bit, the installed bitmap decoder and `decodeKey` (lines 280-292) both name the field set of `k` and resume just past the closing quote |
| Agreement.TurnsAgree | decode_struct.go:390-423 | for such a key, a turn of the member loop is the same whichever key decoder runs, whatever follows the key |
| Agreement.OneMemberOptimized | decode_struct.go:386-424 | `{"k":v}` for such a key, on a decoder that passed `tryOptimize`: `v`, as the field's child decoder reads it, is stored at `p + fieldMap[k].offset` and `decode` ends just past the `}`, as with `decodeKey` |
| Agreement.OneMemberPlan | decode_struct.go:386-424 | the same, on the values of a plan whose matcher encodes its sorted keys |
| Agreement.OneMemberExact | decode_struct.go:280-292 | `{"k":v}` decoded with `decodeKey`, for any key of the field map: `v` is stored at `p + fieldMap[k].offset` and `decode` ends just past the `}` |

## Left out

- The collaborators are parameters: the string decoders (`decodeByte`, `decodeStreamByte`), `skipValue`, `nullBytes` and the child decoders. Each is constrained only to consume input, and each child decoder writes one value at its field's address.
- The stream type's own code (stream.go) is not part of this model. A read appends the reader's next chunk; the reader's errors and the stream's handling of a nul byte inside the data are not modelled.
- Error values carry their kind, offset and the fixed phrase. The message text and Go's `error` wrapping are not modelled.
- The stream's state after an error is not specified; only results are.
- `strings.ToLower` is modelled on ASCII only; Unicode case mapping of non-ASCII keys is not modelled.
- Go map iteration order in `tryOptimize` is modelled by arbitrary choice. When two keys lower-case to the same key, which field set wins is left open, as in the source.
- `unsafe.Pointer` arithmetic is modelled as addresses in a map from addresses to values. Concurrency is not modelled: the source does not lock `tryOptimize`.
- The `structName` and `fieldName` of a decoder are carried but only used in error text, which is not modelled.
- Streams.ReadOf: a read past the buffered bytes pads with nul bytes up to the cursor before appending; the source's buffer growth is not modelled.
- Decoder.DecodeSpec: its own contract states only where a success resumes. What it decodes is stated by the lemmas in `DecodeFacts`.
- Streams.DecodeStreamSpec: its own contract states only where a success ends. What it decodes is stated by the lemmas in `StreamFacts`.

## Findings

| source | as written | input that shows it | evidently intended | confidence | as-written member | corrected member |
|---|---|---|---|---|---|---|
| decode_struct.go:121 | the candidate mask starts at `math.MaxInt8` (`math.MaxInt16` at line 204), which has only 7 (15) bits, while 8 (16) keys are accepted | a struct with exactly 8 fields, and the JSON key equal to the last key in sorted order: no field is found and the value is skipped | every key is a candidate at the start | high (not executed) | KeyFacts.LastKeyMissed | KeyFixes.FixedFinds |
| decode_struct.go:143-148 | at the closing quote the lowest candidate is returned, whatever its length | fields `ab` and `cd`, JSON key `a`: the value is stored in `ab` | a key names a field only when it equals that field's key, ignoring case, as `decodeKey` does | high (not executed) | KeyFacts.PrefixKeyFound | KeyFixes.FixedFinds |
| decode_struct.go:152-185 | both skip loops, after a mismatch (lines 170-185) and for a key longer than every struct key (lines 152-167), move past the byte at the cursor before looking, so a backslash there is not seen as an escape | key `\\` (an escaped backslash), with no struct key starting with a backslash: the loop takes the second backslash as an escape and runs past the closing quote to the end of input | the rest of the string, from the byte at the cursor, is skipped as a JSON string | medium (not executed) | KeyFacts.EscapedKeyOverrun | KeyFixes.FixedReadsToken |
