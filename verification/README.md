# Replay delta verification

A Dafny model of the replay delta codec, of its fast forms in the native encoder, and of three protocols and two
validators around it, with proofs of what they promise. Dafny 4.11 checks the whole project with
`dafny verify dfyconfig.toml`.

## The codec

A replay is a sequence of ticks, each a JSON value. A chunk stores the first tick whole and every later tick as
a delta against the tick before, with predictions from the tick before that. The model follows the source down
to the bits:

- `Floats` and `FloatOrder` give binary64 and binary32 as bit patterns, with rounding, narrowing, widening,
  subtraction and order; numbers are compared by their 64 bits, so the two zeros differ and 1 and 1.0 do not.
- `Wire`, `Packing`, `Residuals` and `Utf8` are the varints, the interned strings, the bit packing, the float32
  residuals with their cost rule, and the text encoding. The calls made on a writer are a sequence of
  operations; `Emit` gives its bytes and `Table` its dictionary. Two writers that make the same calls emit the
  same bytes.
- `WireFormat` spells the encoding out in literal bytes, with its own formulas for the choices between forms,
  and proves that the encoder writes just that; `WireFacts` says what counts, packed fields, characters and
  rounding are apart from how they are computed; `PrefixFree` that nothing may follow a chunk or be cut off it.
- `Delta` says which calls encode a step between ticks; `Decode` is the reader. `DeltaRoundTrip` and
  `ChunkRoundTrip` prove that reading inverts writing, `WriterRange` that the writer stays in range, and
  `PythonNarrowing`, `PythonDelta` and `PythonChunk` that the two-stage Python form (a delta tree, then its
  writing) makes the same calls, with the exact conditions under which it raises.
- `Buffers` and `ViewerWriter` are the writer and reader as classes and loops, each method proved against those
  functions.

The fast forms are imperative too: `FloatDelta` (the fused float32 array writer), `OrderedDelta` (aligned keys
and a change mask), `ObjectState` (records kept outside the tick), `IncrementalChunk` (a chunk that verifies
each tick as it is written), `Projection` with `ProjectionReuse` and `ProjectionCache` (projection into recycled
trees and records), and `EventBuilder` with `StreamAgreement` (projection of an event stream).
`ProjectionMeaning` says what a projection keeps. `ViewerParts` and `Container` cut ticks into chunks and put
them into one validated file; `ContainerBytes` and `ContainerChecks` describe that file by its bytes, for the
writer and for the validator.

## The protocols and validators

`Promotion` is the alias promotion on revision tokens, `Completion` the write-once completion manifest under
retries and crashes, `Pipeline` the bounded recycle pipeline. Each is a state machine whose invariant is kept by
every step, with safety over all runs. `FastSchema` is the schema compiler against the meaning of the JSON
Schema keywords, on numbers as they are written (`WrittenNumbers`) and with references as JSON Pointers
(`JsonPointer`), with `SchemaLevels` for which schemas compile; `Combat` is the discharge lineage of the combat
collector.

## Where the code falls short of its promise

- The dense array branch of the Python codec looks up the older tick without a length test, in the writer
  (`viewer_delta.py:986-995`) and in the reader (`1174-1186`), while its neighbours and the native writer test
  first. `PythonRefusesGrownList` gives a list on which it raises; `DecodeOfEncode` with the rules `PYTHON` says
  exactly when a chunk is read back, and `GuardedRoundTrip` shows that the guarded lookup is lossless on
  everything.
- The native reader (`viewer.rs:1496-1530`) refuses every dense float tag while the older tick holds an array of
  another length or with other numbers, though its own writer emits such tags. `NativeRefusesNewPair` is a
  family of such chunks; the rules `NATIVE` give the exact condition. Since a chunk verifies itself with that
  reader, `PushState` refuses these ticks.
- The Python narrowing (`viewer_delta.py:475-476`) raises on finite numbers beyond the binary32 range, where the
  native one (`viewer.rs:2107`) gives infinity. The Python encoder therefore raises on finite ticks: on a number
  out of range that it writes, and also on one it only compares or extrapolates, so that ticks inside the range
  fail too (`HugeNumberRaises`, `PowersRaise`). `NumberWrites`, `ExtrapolationWrites`, `BuildAgrees`,
  `TreeAgrees` and `EncodeAgrees` say exactly when; what it does write, its reader returns (`PythonRoundTrip`).
  `Delta` follows the native writer, and so do the fast forms.
- The recursive projection tests required keys on the source, the streaming one on the output. `FlatExact` says
  for which flat plans that makes no difference; a plan whose required fields keep their names and are not null
  is among them, and `StreamIsTree` covers nested plans of that kind.
- The assembler does not check the two limits that the validator puts on the manifest; `AssembledIsAccepted`
  states acceptance exactly.
- The record list writer never takes the float32 array branch, so it differs from the generic writer on two
  different float32 arrays, and only there (`RecordOpsAgree`). Records are objects, so `WriteTick` and
  `PushState` ask for lists that are not such arrays.
- The pipeline's blocking wait for a returned frame is reached only when the worker is gone.
- The schema compiler reads a count limit only when it is written with digits that fit an unsigned word
  (`fast_schema.rs:119`): `"minLength": 2.0` and `"minLength": 18446744073709551616` are taken for no limit
  (`DecimalLengthIgnored`). `LeastExact`, `MostExact` and `TextSchemaExact` say exactly when that makes no
  difference.
- Numeric limits and values are rounded to binary64 before they are compared (`fast_schema.rs:186-188`), so a
  maximum of 2^53 lets 2^53 + 1 pass (`LargeMaximumIgnored`). `MinimumExact` and `MaximumExact` give the exact
  condition on the limit over all written numbers; every limit below 2^53 meets it (`SmallLimitsRead`).
- A reference is looked up by its text (`fast_schema.rs:76-89`), not as a JSON Pointer (RFC 6901, section 6):
  `#/$defs/a~1b` means the definition a/b and is compiled to the one named a~1b (`EscapedReferenceMisread`).
  `NameExact` says for which names the two agree, `NamePointed` how every name is spelt as a reference.
  `CompiledIsExact` holds for the schemas whose limits and references are read for what they say.


## Model

| member | source | states |
|---|---|---|
| `Floats.NarrowWiden` | lambda/replay_parser/viewer_delta.py:475-488 | Packing a binary32 number unpacked to binary64 gives the same 32 bits, for every finite pattern and both zeros: the fact on which every float32 form rests. |
| `WireFacts.WidenFields` | lambda/replay_parser/viewer_delta.py:479-480 | Widening a normal binary32 pattern keeps its sign and fraction and adds 896 to its exponent field. |
| `WireFacts.HalfEvenNearest` | lambda/replay_parser/viewer_delta.py:475-476 | Rounding takes a nearest number, and of two equally near the even one. |
| `Floats.RoundScaled` | lambda/replay_parser/viewer_delta.py:475-476 | Rounding to a binary format depends on the value alone, not on how it is split into significand and exponent, so the concrete narrowing is well defined. |
| `Floats.MinusOfSafeIntegers` | lambda/replay_parser/viewer_delta.py:852-868 | Subtracting two safe integers in binary64 gives the rounded exact integer difference. |
| `Floats.DifferenceGuardExact` | lambda/replay_parser/viewer_delta.py:852-868 | For safe integers, the guard of the integer delta evaluated in floating point holds exactly when the exact difference is within the limit, and then the floating-point difference is exact. |
| `Floats.FromIntToInt` | lambda/replay_parser/viewer_delta.py:619-637 | A number written as a safe integer is read back with the same 64 bits; negative zero is never written that way. |
| `Utf8.DecodeEncode` | lambda/replay_parser/viewer_delta.py:555-616 | Every string of Unicode scalar values is the decoding of its UTF-8 bytes, with nothing over. |
| `WireFacts.CharacterBytes` | lambda/replay_parser/viewer_delta.py:555-563 | A character takes one to four bytes, as few as hold it: a first byte that says how many, and six bits in each of the others. |
| `WireFacts.CountGroups` | lambda/replay_parser/viewer_delta.py:546-553 | A count is written as the shortest list of seven-bit groups with its value, lowest first, all but the last marked. |
| `WireFacts.CountRead` | lambda/replay_parser/viewer_delta.py:590-601 | Over any bytes, a count is read exactly when it ends within eight of them and is at most 2^53 - 1, and then it is the value of its groups. |
| `WireFacts.LittleEndianByte` | lambda/replay_parser/viewer_delta.py:619-637 | Byte i of a number written with k bytes holds its bits from 8 * i on. |
| `WireFacts.PackedField` | lambda/replay_parser/viewer_delta.py:912-925 | The i-th packed value fills the bits from i * width on, and nothing lies above the last. |
| `WireFacts.TrailingBytes` | lambda/replay_parser/viewer_delta.py:835-846 | The zero bytes dropped at the low end of an exclusive or are all there are, up to the limit, and putting them back restores it. |
| `Wire.VaruintLengthExact` | lambda/replay_parser/viewer_delta.py:490-493 | The length the cost rules add up is the number of bytes the writer emits. |
| `Wire.ReadWrittenVaruint` | lambda/replay_parser/viewer_delta.py:546-601 | The eight-byte reader accepts and inverts every integer from 0 to 2^53 - 1, leaving exactly the bytes behind it. |
| `Wire.TakeString` | lambda/replay_parser/viewer_delta.py:555-563 | At every point the reader's string list is the inverse of the writer's dictionary: a repeated string is found under its number, a new one is added to both. |
| `Packing.TakePacked` | lambda/replay_parser/viewer_delta.py:912-942 | Unpacking inverts packing for every count and width and takes exactly ceil(count * width / 8) bytes. |
| `Residuals.PatchInverts` | lambda/replay_parser/viewer_delta.py:496-530 | In every mode and for every prediction the reader's patch of the residual is the next bit pattern, wrapping in 32 bits. |
| `Residuals.CandidateCostExact` | lambda/replay_parser/viewer_delta.py:698-710 | The recorded cost of a float array candidate is the number of payload bytes written for it, packed or not. |
| `Residuals.CheapestIsFirstMinimum` | lambda/replay_parser/viewer_delta.py:787-795 | The selected candidate is one of those offered; none is cheaper, and every earlier one is dearer. |
| `Residuals.ThreeQuartersExact` | lambda/replay_parser/viewer_delta.py:698-710 | Below 2^53 / 3 bytes the binary64 product with 0.75 is exact, so the comparison of the reference decides packed * 4 <= varint * 3. |
| `Delta.FloatChoiceFacts` | lambda/replay_parser/native/src/viewer.rs:2355-2396 | The selected float array candidate is the one costed for its own mode on this history, and that mode was offered. |
| `ValueRoundTrip.ReadWrittenValue` | lambda/replay_parser/viewer_delta.py:640-695 | Reading a written value returns that very value, member order included, and stops behind its last byte; it fails exactly when the value has more levels than the reader has room for. |
| `NumberRoundTrip.TrimmedLength` | lambda/replay_parser/viewer_delta.py:835-846 | The bytes kept of a trimmed 64-bit exclusive or and the zero bytes dropped at its low end make at most eight. |
| `NumberRoundTrip.PatchItemsUndone` | lambda/replay_parser/viewer_delta.py:996-1029 | Patching a whole array of residuals of one mode restores the next array, item by item. |
| `DeltaRoundTrip.SameFloatOps` | lambda/replay_parser/viewer_delta.py:759-795 | Two deep copies of the history make the float array writer emit the same calls, so writer and reader may hold different copies. |
| `DeltaRoundTrip.ReadWrittenDelta` | lambda/replay_parser/viewer_delta.py:945-1273 | For every previous, next and earlier value and every reader holding deep copies of the two histories: reading the delta succeeds if and only if the history meets the reader's lookup and narrowing rules and the delta stays within its nesting limit, and then gives a deep copy of next and stops exactly behind the delta. |
| `ChunkRoundTrip.DecodeOfEncode` | lambda/replay_parser/viewer_delta.py:1034-1298 | Decoding an encoded chunk returns the first tick number and a deep copy of every tick with no byte over, if and only if every step is readable under the rules of the reader (Python, native with its 32 levels, or guarded); otherwise it is an error. All tags, modes and history lookups are included. |
| `ChunkRoundTrip.GuardedRoundTrip` | lambda/replay_parser/viewer_delta.py:976-985 | With the guarded history lookup the codec is lossless on every non-empty sequence of finite ticks the encoder accepts. |
| `WriterRange.EncoderAccepts` | lambda/replay_parser/native/src/viewer.rs:2567-2587 | The native encoder never leaves the safe integer range on finite ticks of representable size: every varint argument lies in [0, 2^53 - 1]. |
| `WireFormat.ValueSpelled` | lambda/replay_parser/viewer_delta.py:619-664 | The encoder puts a value on the wire as spelled out in literal bytes: tags 0 to 8, sign byte, four or eight bytes, string numbers or new strings, counts and members in order. |
| `WireFormat.NumberStepSpelled` | lambda/replay_parser/viewer_delta.py:835-909 | A number after a number: tag 6 and the folded difference when both are safe integers at most 2^52 - 1 apart; tag 5, 9, 13 or 14 and the shortest of the offered residuals, given by their own formulas; tag 4, the descriptor and the bytes that differ otherwise. |
| `WireFormat.FloatStepSpelled` | lambda/replay_parser/viewer_delta.py:698-795 | A list of binary32 numbers after another: tag 10, 8, 11 or 12 with one count per item, or tag 15 with mode, width and packed bits, whichever offered form is cheapest, the earliest among equals. |
| `WireFormat.StepSpelled` | lambda/replay_parser/viewer_delta.py:713-1031 | A step between values: tag 0 for deep equality, 1 for a new value, 2 with the names gone and the changed members, 3 with the changed items behind their indexes, 7 with every item when more than half have changed, and the two rows above. |
| `WireFormat.ChunkSpelled` | lambda/replay_parser/viewer_delta.py:1034-1051 | Whatever chunk the encoder gives, its bytes are 48 53 52 44 01, the first tick number, the tick count, the first tick and the steps as spelled out. |
| `WireFormat.NullChunk` | lambda/replay_parser/viewer_delta.py:640-646 | The chunk of the one tick null, byte by byte. |
| `WireFormat.BoolChunk` | lambda/replay_parser/viewer_delta.py:640-646 | The chunk of one boolean tick is 48 53 52 44 01 00 01 and 02 for true, 01 for false. |
| `WireFormat.IntegerChunk` | lambda/replay_parser/viewer_delta.py:619-631 | The chunk of one safe integer, byte by byte: tag 3, sign byte, magnitude. |
| `WireFormat.FloatChunk` | lambda/replay_parser/viewer_delta.py:632-637 | The chunk of any other finite number, byte by byte: tag 4 and four bytes when they hold it, tag 5 and eight otherwise; negative zero takes eight. |
| `WireFormat.TextChunk` | lambda/replay_parser/viewer_delta.py:555-563 | The chunk of one text, byte by byte: tag 6, twice its length in bytes and one, its bytes. |
| `PrefixFree.NothingFollows` | lambda/replay_parser/viewer_delta.py:1276-1298 | No byte string that decodes to a chunk is the start of another: with bytes added, or with bytes cut off, it is refused by every reader. |
| `PrefixFree.StartsWithMagic` | lambda/replay_parser/viewer_delta.py:1276-1286 | What decodes starts with the letters HSRD and version 1. |
| `PrefixFree.UnknownKinds` | lambda/replay_parser/viewer_delta.py:667-695 | A value tag above 8, a patch tag above 15 and an integer sign above 1 are errors. |
| `ReaderDifferences.NativeLevels` | lambda/replay_parser/native/src/viewer.rs:1237-1240 | The native reader takes lists nested within lists up to 32 levels and refuses any more. |
| `ReaderDifferences.PythonRefusesGrownList` | lambda/replay_parser/viewer_delta.py:986-995 | A concrete list that grows by one and then changes everywhere: the unguarded lookup raises in the writer and in the reader, so the Python encoder gives no chunk; the guarded codec returns the list. |
| `ReaderDifferences.NativeRefusesNewPair` | lambda/replay_parser/native/src/viewer.rs:1496-1530 | For every two distinct finite binary32 numbers, a pair that appears in one tick and changes in the next is refused by the native reader and returned by the guarded one. |
| `PythonDelta.SortSelectsCheapest` | lambda/replay_parser/viewer_delta.py:787-795 | Stable sorting by cost and taking the head selects the same candidate as scanning for the first strictly cheaper one. |
| `PythonDelta.KeepIsSame` | lambda/replay_parser/viewer_delta.py:713-832 | The delta tree is None exactly when the two values are deeply equal. |
| `PythonNarrowing.ValueWritten` | lambda/replay_parser/viewer_delta.py:619-695 | The Python writer of whole values makes the calls of the value's encoding, or raises exactly on a number that is no safe integer and lies beyond the binary32 range. |
| `PythonNarrowing.NumberDeltaWritten` | lambda/replay_parser/viewer_delta.py:849-900 | The Python writer of a number after a number makes the calls of the number delta, or raises exactly when a number it narrows on the way, in the order of the source, or the value it extrapolates lies beyond the binary32 range. |
| `FloatOrder.NarrowsBelowEnd` | lambda/replay_parser/viewer_delta.py:475-476 | Narrowing gives a finite binary32 number exactly for the magnitudes below one bit pattern, halfway past the greatest binary32 number. |
| `PythonDelta.BuildAgrees` | lambda/replay_parser/viewer_delta.py:713-832 | Building the delta tree raises exactly when a list it tests, changed or not, or an extrapolation it offers holds a number beyond the binary32 range; otherwise it gives the tree. |
| `PythonDelta.TreeAgrees` | lambda/replay_parser/viewer_delta.py:870-1031 | Once built, writing the tree makes the same writer calls as the one-stage writer, and raises exactly when a dense array meets an earlier array shorter than itself or a number written or predicted lies beyond the binary32 range. |
| `PythonDelta.StepAgrees` | lambda/replay_parser/viewer_delta.py:713-1031 | Both stages together make the calls of the one-stage writer, or raise exactly under the conditions of the two. |
| `PythonChunk.EncodeAgrees` | lambda/replay_parser/viewer_delta.py:1034-1051 | The Python encoder gives the bytes of the one-stage encoder, or raises exactly when some tick raises or a count leaves the safe range. |
| `PythonChunk.WrittenIsReadable` | lambda/replay_parser/viewer_delta.py:945-1273 | Whatever the two Python stages get through, the Python reader can follow: its lookups and narrowings are among theirs. |
| `PythonChunk.PythonRoundTrip` | lambda/replay_parser/viewer_delta.py:1034-1298 | Every chunk the Python encoder writes is decoded by the Python reader to its ticks, with no byte over. |
| `PythonRefusals.NumberWrites` | lambda/replay_parser/viewer_delta.py:619-637 | A finite number is written without raising exactly when its magnitude lies below that bit pattern. |
| `PythonRefusals.ExtrapolationWrites` | lambda/replay_parser/viewer_delta.py:868-900 | After two exact binary32 numbers a third is written without raising exactly when it is an integer difference or the extrapolation of the two lies below that bit pattern. |
| `PythonRefusals.NumberStepNarrows` | lambda/replay_parser/viewer_delta.py:849-900 | For all finite numbers: a step is written without raising exactly when it is an integer difference or each number narrowed on the way, in the order of the source, lies below that bit pattern. |
| `PythonRefusals.HugeNumberRaises` | lambda/replay_parser/viewer_delta.py:475-488 | On the single tick 1e300 the Python encoder raises; the one-stage encoder writes it. |
| `PythonRefusals.PowersRaise` | lambda/replay_parser/viewer_delta.py:518-522 | On the ticks -2^127, 2^127 and 0.5, all exact binary32 numbers, the Python encoder raises on the extrapolation; the one-stage encoder writes them. |
| `Buffers.BinaryWriter.Varuint` | lambda/replay_parser/native/src/viewer.rs:1068-1080 | Appends the groups of seven bits of a safe integer and nothing else; raises, exactly, outside the safe range. |
| `Buffers.BinaryWriter.String` | lambda/replay_parser/native/src/viewer.rs:1081-1091 | Emits the number of a known string or the bytes of a new one, and keeps the dictionary numbered in order of first use. |
| `Buffers.WritePacked` | lambda/replay_parser/native/src/viewer.rs:2404-2427 | The accumulator loop emits exactly the packed bytes of the specification, holding back at most seven bits between values. |
| `Buffers.BinaryReader.Varuint` | lambda/replay_parser/native/src/viewer.rs:1131-1151 | The loop over at most eight groups returns what the specification reads, or raises. |
| `Buffers.BinaryReader.String` | lambda/replay_parser/native/src/viewer.rs:1152-1168 | Looks up or adds a string as the specification does, errors included. |
| `Buffers.ReadPackedLoop` | lambda/replay_parser/native/src/viewer.rs:1292-1317 | The accumulator loop returns the unpacked values and consumes exactly the packed bytes. |
| `ViewerWriter.WriteValue` | lambda/replay_parser/native/src/viewer.rs:2188-2215 | Makes exactly the calls of the value's encoding, or raises exactly when one of them is out of range. |
| `ViewerWriter.WriteNumberDelta` | lambda/replay_parser/native/src/viewer.rs:2266-2333 | Selects among integer difference, float32 residuals and trimmed exclusive or as specified, and makes exactly those calls. |
| `ViewerWriter.SelectFloats` | lambda/replay_parser/native/src/viewer.rs:2429-2500 | A later mode replaces an earlier one only when strictly cheaper; the result is the specified choice. |
| `ViewerWriter.WriteDelta` | lambda/replay_parser/native/src/viewer.rs:2429-2565 | The recursive writer over two ticks of history makes exactly the calls of the delta specification that the reader inverts. |
| `FloatDelta.WrappingZigZagAgrees` | lambda/h1_film/encoder/src/float_delta.rs:55-58 | The wrapping zigzag of 32-bit patterns equals the zigzag of the signed difference. |
| `FloatDelta.TotalsNext` | lambda/h1_film/encoder/src/float_delta.rs:74-77 | Adding one residual to the running size and to the union of bits keeps the size equal to the sum of lengths and the union's bit length equal to the widest residual. |
| `FloatDelta.Write` | lambda/h1_film/encoder/src/float_delta.rs:5-116 | The fused writer handles exactly the pairs of equally long arrays of 1 to 64 exact float32 numbers and then emits the calls of the reference writer; every other pair leaves the writer untouched. |
| `OrderedDelta.SlotSameIsSame` | lambda/h1_film/encoder/src/ordered_delta.rs:3-23 | The comparison by aligned slots decides deep equality, whatever the member order. |
| `OrderedDelta.SetBit` | lambda/h1_film/encoder/src/ordered_delta.rs:57-62 | Setting the bit of a slot adds that slot to the set the mask stands for and no other. |
| `OrderedDelta.Write` | lambda/h1_film/encoder/src/ordered_delta.rs:25-32 | Emits the calls of the generic writer for every previous, next and earlier value. |
| `OrderedDelta.WriteInner` | lambda/h1_film/encoder/src/ordered_delta.rs:34-118 | The same with the known-changed flag, for every caller that sets it only when the values differ. |
| `ObjectState.RecordOpsAgree` | lambda/h1_film/encoder/src/object_state.rs:233-284 | The record list writer emits the generic writer's calls on the record values if and only if the lists are not two different float32 arrays, which lists of objects never are. |
| `ObjectState.WriteRecordDelta` | lambda/h1_film/encoder/src/object_state.rs:233-284 | Writes the change of a record list, skipping shared records, as the record list specification says, for growth, shrinkage and any history. |
| `ObjectState.WriteTick` | lambda/h1_film/encoder/src/object_state.rs:286-385 | Emits, for a tick kept apart from its objects and spawns, the calls of the generic writer for the tick with them put back; refuses exactly the ticks whose placeholders are not empty. |
| `IncrementalChunk.ExactTickIsSame` | lambda/h1_film/encoder/src/object_state.rs:405-462 | The comparison that skips shared source and decoded pairs accepts a decoded tick if and only if it deeply equals the source tick with its records put back, for every sound sharing. |
| `IncrementalChunk.NewChunk` | lambda/h1_film/encoder/src/artifact.rs:303-324 | A new chunk holds exactly the header, and is refused exactly when a count leaves the safe range. |
| `IncrementalChunk.Chunk.PushState` | lambda/h1_film/encoder/src/artifact.rs:329-387 | Accepts a tick exactly when the old state says it can be written and read back, the reader's 32 levels included; the new history, the ticks and the bytes are those of the old state with this tick added, and the invariant that all decoded ticks equal their sources is kept. |
| `IncrementalChunk.Chunk.Complete` | lambda/h1_film/encoder/src/artifact.rs:302-387 | A chunk that received the announced number of ticks is byte for byte the encoded chunk of the ticks with their records put back, and the readers decode it to them. |
| `Projection.ProjectWellFormed` | lambda/replay_parser/native/src/viewer.rs:529-595 | Every projection is a finite JSON value with distinct keys, whatever the source holds. |
| `ProjectionMeaning.ProjectMeans` | lambda/replay_parser/native/src/viewer.rs:529-595 | A projection succeeds exactly when some value is what the plan keeps of the source, and gives such a value: filled fields in plan order, members that are not null in source order, items up to the limit, required keys there and not null. |
| `ProjectionReuse.ProjectReusing` | lambda/h1_film/encoder/src/artifact.rs:42-194 | Projecting into a target gives the plain projection or its rejection, whatever the target held: other key orders, shapes and lengths included. |
| `ProjectionReuse.ProjectOwned` | lambda/h1_film/encoder/src/artifact.rs:195-285 | Projecting a source by moving its parts gives the same result as projecting a borrowed one. |
| `ProjectionReuse.Recycle` | lambda/h1_film/encoder/src/recycle.rs:44-75 | Overwriting a target by a source leaves exactly the source, whatever the target was. |
| `ProjectionCache.TrimmedIsLongest` | lambda/h1_film/encoder/src/recycle.rs:31-42 | Retiring drops the oldest entries only, and as few as the two caps allow. |
| `ProjectionCache.Pool.Retire` | lambda/h1_film/encoder/src/recycle.rs:31-42 | The pool is the trimmed old pool with the record at its end, its byte count is the sum of its entries, and both caps hold. |
| `ProjectionCache.Pool.Take` | lambda/h1_film/encoder/src/recycle.rs:20-29 | Gives the oldest entry exactly when nobody else holds its record; a shared one goes to the back. |
| `ProjectionCache.Cache.TakeRecord` | lambda/h1_film/encoder/src/object_state.rs:177-186 | The record to overwrite is held by no cache slot, no live snapshot and no pool entry, so exclusive access never fails. |
| `ProjectionCache.Cache.Project` | lambda/h1_film/encoder/src/object_state.rs:154-206 | Succeeds exactly when the layout accepts the source; then record i is the projection of source record i for every index within the limit, and no record reachable from an earlier snapshot has changed. |
| `ProjectionCache.SpawnCache.Project` | lambda/h1_film/encoder/src/object_state.rs:71-104 | Returns the projection of the current spawn list, the identical object while the source is the identical list, nothing without spawns, and keeps the old state on a rejection. |
| `EventBuilder.RunValue` | lambda/replay_parser/viewer_delta.py:1413-1553 | Feeding the events of any value in any open state has the effect of delivering its projection to the innermost open container, skipped subtrees of any depth included. |
| `EventBuilder.ProjectedEventBuilder.Feed` | lambda/replay_parser/viewer_delta.py:1422-1498 | One event changes frames, skip depth and value exactly as the step function says, and raises exactly where it has none. |
| `EventBuilder.Build` | lambda/replay_parser/viewer_delta.py:1413-1553 | A fresh builder fed with a whole stream ends with what the step function's run says. |
| `StreamAgreement.StreamIsTree` | lambda/replay_parser/viewer_delta.py:1344-1553 | For every faithful plan and every value the streaming projection gives the value or the rejection of the recursive one, with truncation, null-dropping maps and field reordering. |
| `StreamAgreement.BuilderProjects` | lambda/replay_parser/viewer_delta.py:1413-1553 | A fresh builder fed with the events of a value has raised exactly when the recursive projection rejects, and otherwise is complete with the recursive projection. |
| `StreamAgreement.FlatExact` | lambda/replay_parser/viewer_delta.py:1361-1447 | On a flat plan both projections agree on every value if and only if the required keys, tested on output keys by one and on source keys by the other, match. |
| `StreamAgreement.FlatMismatch` | lambda/replay_parser/viewer_delta.py:1361-1447 | On a flat plan without that match, a concrete source on which the two differ. |
| `ViewerParts.SelfCheck` | lambda/replay_parser/viewer_delta.py:1596-1606 | The writer's decode-and-compare check of a chunk passes exactly when every step of the chunk is readable. |
| `ViewerParts.PythonLossless` | lambda/replay_parser/viewer_delta.py:1596-1606 | For the Python codec a group is lossless exactly when its encoder does not raise: the self-check never fails. |
| `ViewerParts.PartsWriter.AddTick` | lambda/replay_parser/viewer_delta.py:1569-1577 | Refuses a tick exactly when it is not admitted, the limit is reached, or the group it completes is not lossless: the encoder that goes with the reader raises on it, or the reader does not return it. Otherwise the accepted ticks grow by it and stay cut into full groups of 2048 and a pending rest. |
| `ViewerParts.PartsWriter.Finish` | lambda/replay_parser/viewer_delta.py:1578-1594 | Gives parts that hold every accepted tick, with one shorter chunk for the rest; fails exactly without ticks, on a refused replay or on a rest that is not lossless. |
| `ViewerParts.ChunksAreContiguous` | lambda/replay_parser/viewer_delta.py:1596-1620 | Chunk k starts where chunk k - 1 ends, all but the last hold 2048 ticks, and the last ends with the last tick. |
| `Container.HeaderRoundTrip` | lambda/replay_parser/viewer_delta.py:2286-2296 | Unpacking the packed 32-byte header gives back every field within its width. |
| `Container.Assemble` | lambda/replay_parser/viewer_delta.py:2172-2336 | Produces a file exactly when every part decodes to its descriptor and survives compression, the manifest is admitted and the size limits hold; the file is header, manifest and blocks as specified. |
| `Container.Validate` | lambda/replay_parser/viewer_delta.py:2339-2453 | Returns a manifest exactly for the files that are valid containers, and then the one manifest of the file. |
| `Container.AcceptedTiles` | lambda/replay_parser/viewer_delta.py:2407-2452 | Any file accepted in the first container version consists of header, manifest and blocks only, and its chunks hold exactly the announced ticks at the announced positions: no gap, overlap or trailing byte. |
| `Container.WrittenChecks` | lambda/replay_parser/viewer_delta.py:2213-2235 | On the parts of a finished writer no check on a single chunk can fail but the compressor's own round trip. |
| `Container.WriteParts` | lambda/replay_parser/viewer_delta.py:1569-1621 | A new writer given a whole tick sequence and finished returns parts exactly when the sequence is not empty, within the tick limit, each tick and the replay description admitted and every group of 2048 lossless; the parts are then those the container lemmas speak of. |
| `Container.AssembledIsAccepted` | lambda/replay_parser/viewer_delta.py:2172-2453 | A file assembled from a finished writer's parts is accepted exactly when its manifest is within the validator's own two limits, which the assembler does not check; decoded, it is the tick sequence given to the writer. |
| `ContainerBytes.AssembledSays` | lambda/replay_parser/viewer_delta.py:2037-2056 | An assembled file, read byte by byte: the letters HSRDC001 and the fixed header fields, its own length, and a manifest with the caller's replay id, recording time and replay description, both tick counts, and for each block its number, place, size, digest, first tick, tick count and tick digest, the block holding just those 2048 ticks. |
| `ContainerBytes.WriteFile` | lambda/replay_parser/viewer_delta.py:2172-2336 | From a tick sequence and the caller's arguments to a file that says just that, within the tick limit, for the supported revisions and with every tick admitted. |
| `ContainerChecks.AcceptedExactly` | lambda/replay_parser/viewer_delta.py:2339-2453 | A file is accepted as a first-version container exactly when its bytes are laid out, numbered and hashed as the format says and every tick is admitted, with all limits as literal numbers. |
| `ContainerChecks.AcceptedVersions` | lambda/replay_parser/viewer_delta.py:2357-2366 | Only the two known versions are accepted, each with its own letters; the second only with its poses verified. |
| `Promotion.AliasChanges` | lambda/app_api_code_updater/handler.py:93-108 | In any reachable state, the alias moves only by an outside change or by one recorded update of a run whose read revision is still current; the new version carries what that run verified, a deployment's own code hash, or for a configuration promotion the code hash that was live. |
| `Promotion.PromotionSafety` | lambda/app_api_code_updater/handler.py:59-231 | In every interleaving of deployments, configuration promotions and outside changes: every update promoted what its run verified, no two updates rest on one alias revision, a deployment that finished has promoted its own uploaded code, and a configuration promotion that finished has moved the alias to a version with the LATEST it read or found the live version to be that already. |
| `Promotion.StepChecked` | lambda/app_api_code_updater/handler.py:59-68 | A run passes a check of the alias only while the alias is the one it read, a check of LATEST only while LATEST is ready and the one it read, and is done only past its last check. |
| `Promotion.FinishedWasChecked` | lambda/app_api_code_updater/handler.py:59-68 | In every interleaving, every finished run once found the alias to be the one it had read and, at a later step, LATEST to be ready and the one it had read. |
| `Promotion.ConfigureAlone` | lambda/app_api_code_updater/handler.py:111-158 | A configuration promotion nobody disturbs ends with LATEST live: nothing moves when it is so already, and otherwise the alias goes to the newest version with the LATEST code and settings. |
| `Promotion.DeployAlone` | lambda/app_api_code_updater/handler.py:184-231 | A deployment nobody disturbs ends with its code live under the settings LATEST had, in one new version. |
| `Completion.AsideKept` | lambda/replay_parser/handler.py:562-589 | Copying the source of an upload that cannot be processed, and deleting it, keeps the invariant: the copy comes first and its worker has made no callback. |
| `Completion.StepKept` | lambda/replay_parser/handler.py:3193-3333 | Every step of every worker, crash and retry keeps the invariant tying the stored manifest, the callbacks and the deletes together. |
| `Completion.CompletionSafety` | lambda/h1_film/cloud.py:835-933 | In every run: all callbacks for one upload and generation carry one and the same stored payload, every cleanup delete is the stored one and follows an acknowledged callback of its own worker, and a source that cannot be processed is copied aside before it is deleted, by a worker that makes no callback. A worker that is done was acknowledged, reported the manifest it was to report, and has deleted exactly what that asks to delete, after the acknowledgement; one that has given up has moved its source aside. |
| `Completion.CalledThenDeletes` | lambda/replay_parser/handler.py:3414-3425 | An acknowledged call is recorded with the stored path and payload and is followed at once by the delete step, exactly when the stored manifest has a cleanup. |
| `Completion.ParserAlone` | lambda/replay_parser/handler.py:3263-3297 | A parser nobody disturbs stores the manifest it built, reports it, and deletes the source of a new upload, and nothing else happens. |
| `Completion.FilmAlone` | lambda/h1_film/cloud.py:880-933 | A film worker nobody disturbs stores its manifest, finds it again and reports it. |
| `Completion.RetryAlone` | lambda/replay_parser/handler.py:3300-3333 | When a manifest is stored already, a worker reports that one, deletes what it asks to delete, and builds nothing. |
| `Completion.UnprocessableAlone` | lambda/replay_parser/handler.py:562-589 | A new upload that cannot be processed is copied aside and then deleted. |
| `Pipeline.StepKept` | lambda/h1_film/encoder/src/pipeline.rs:37-66 | Every step of either thread keeps the frames and ticks in their places. |
| `Pipeline.PipelineSafety` | lambda/h1_film/encoder/src/pipeline.rs:100-184 | In every interleaving at most six frames are made, each is in exactly one place while the worker lives, at most one batch of one or two frames waits, and the export has received a prefix of the ticks the client pushed, in order, all of them once finishing succeeded; the pipeline breaks only after a failed export. |
| `Pipeline.NeverShort` | lambda/h1_film/encoder/src/pipeline.rs:100-115 | A caller that finds no spare frame while the worker lives may always make another: the other places hold at most five. |
| `Pipeline.NeverStuck` | lambda/h1_film/encoder/src/pipeline.rs:100-184 | While a call is under way one of the two threads can always move: there is no deadlock. |
| `Pipeline.Progress` | lambda/h1_film/encoder/src/pipeline.rs:117-184 | Each step of either thread lowers a measure, so under every schedule each call ends. |
| `FloatOrder.StepsMonotone` | lambda/h1_film/encoder/src/fast_schema.rs:186-188 | The bit patterns of binary64 magnitudes, infinity included, are ordered exactly as their values. |
| `FloatOrder.RoundMonotone` | lambda/h1_film/encoder/src/fast_schema.rs:124-125 | Rounding to either binary format keeps the order of any two numbers in common units. |
| `FastSchema.FirstTwoIsEnough` | lambda/h1_film/encoder/src/fast_schema.rs:231-233 | Stopping at the second accepting choice still tells exactly one from none and from many. |
| `FastSchema.LeastExact` | lambda/h1_film/encoder/src/fast_schema.rs:119 | A least count as the compiler reads it agrees with the keyword on all counts if and only if it is written with digits that fit an unsigned word, or is not positive. |
| `FastSchema.MostExact` | lambda/h1_film/encoder/src/fast_schema.rs:119 | A greatest count as the compiler reads it agrees with the keyword on all counts if and only if it is written with digits that fit an unsigned word, or is at least the largest word. |
| `WrittenNumbers.MinimumExact` | lambda/h1_film/encoder/src/fast_schema.rs:186-188 | A minimum compared after rounding both sides agrees with the keyword on all written numbers, unsigned, signed and decimal, if and only if rounding neither lowers the limit nor lifts the next smaller machine integer to it. |
| `WrittenNumbers.MaximumExact` | lambda/h1_film/encoder/src/fast_schema.rs:186-188 | A maximum compared after rounding both sides agrees with the keyword on all written numbers if and only if rounding neither raises the limit nor brings the next larger machine integer down to it. |
| `WrittenNumbers.SmallLimitsRead` | lambda/h1_film/encoder/src/fast_schema.rs:124-125 | Every limit below 2^53 in magnitude meets both conditions. |
| `WrittenNumbers.LargeMaximumMisread` | lambda/h1_film/encoder/src/fast_schema.rs:186-188 | A maximum of 2^53 does not: 2^53 + 1 is larger and rounds to it. |
| `FastSchema.LargeMaximumIgnored` | lambda/h1_film/encoder/src/fast_schema.rs:186-188 | The schema of integers up to 2^53 compiles without a fallback and accepts 2^53 + 1, which the keyword refuses. |
| `JsonPointer.NameExact` | lambda/h1_film/encoder/src/fast_schema.rs:76-89 | The lookup of a reference by name finds what its JSON Pointer points to, in every document where it finds anything, if and only if the name is free of `/`, `~` and `%`. |
| `JsonPointer.NamePointed` | lambda/h1_film/encoder/src/fast_schema.rs:76-89 | Every definition, whatever its name, is what the reference with that name escaped and quoted points to. |
| `JsonPointer.EscapedNameMisread` | lambda/h1_film/encoder/src/fast_schema.rs:76-89 | With definitions a/b and a~1b, the reference to a~1b means the first as a JSON Pointer and the lookup takes the second. |
| `FastSchema.EscapedReferenceMisread` | lambda/h1_film/encoder/src/fast_schema.rs:76-89 | On such a document, texts under the first name and numbers under the second, the compiled reference accepts every number and no text, and its meaning is the reverse. |
| `FastSchema.DecimalLengthIgnored` | lambda/h1_film/encoder/src/fast_schema.rs:119-131 | Every positive least length written as a decimal, or with more digits than a word holds, is taken for none: the empty text is accepted, and the keyword refuses it. |
| `FastSchema.DecimalLengthExamples` | lambda/h1_film/encoder/src/fast_schema.rs:119-131 | Two such documents, with a least length of 2.0 and of 2^64. |
| `FastSchema.TextSchemaExact` | lambda/h1_film/encoder/src/fast_schema.rs:128-131 | A schema of texts with lengths is compiled exactly, on all texts, if and only if both lengths are read for what they say. |
| `FastSchema.TextExact` | lambda/h1_film/encoder/src/fast_schema.rs:190-196 | The byte-length shortcut gives the verdict of the character count, for every text. |
| `FastSchema.CompiledIsExact` | lambda/h1_film/encoder/src/fast_schema.rs:57-237 | A schema that compiles, whose limits and references are read for what they say, accepts exactly the values its keywords accept (type, limits, required, properties, additionalProperties, items, oneOf, references as JSON Pointers), with the library's verdict, whatever it is, on every part at any depth that goes beyond those keywords; for every value with numbers as written and every nesting budget beyond the compiler's. |
| `FastSchema.KeywordsAlone` | lambda/h1_film/encoder/src/fast_schema.rs:57-237 | A schema that compiles without a fallback means the same whatever the library says. |
| `FastSchema.BeyondIsLeft` | lambda/h1_film/encoder/src/fast_schema.rs:98-120 | The compiler leaves to the library exactly the schema objects with a type, a combination or a keyword that has no meaning here, whatever the order of their keys. |
| `FastSchema.AttachedFacts` | lambda/h1_film/encoder/src/fast_schema.rs:61-65 | The library is asked about the same keywords together with the document's definitions. |
| `SchemaLevels.CompilesExactly` | lambda/h1_film/encoder/src/fast_schema.rs:57-174 | A schema compiles exactly when it and all it leads to, on at most 33 levels, have references that are found, choices in a list, required members named by texts, and library parts that the library builds. |
| `FastSchema.TooDeepFails` | lambda/h1_film/encoder/src/fast_schema.rs:58-60 | Schemas nested deeper than the limit, through references, items, properties, additional properties and choices alike, are a compilation error. |
| `FastSchema.CycleFails` | lambda/h1_film/encoder/src/fast_schema.rs:57-174 | No member of a family of schemas that need one another compiles, at any level. |
| `FastSchema.CycleAcceptsNothing` | lambda/h1_film/encoder/src/fast_schema.rs:76-89 | A cycle of bare references accepts no value, however deep it is followed. |
| `Combat.HitsWithinShots` | lambda/h1_film/encoder/src/combat.rs:151-197 | No slot and weapon has more hits than shots: hits are distinct discharges of its own. |
| `Combat.StrikeOne` | lambda/h1_film/encoder/src/combat.rs:186-192 | Crediting a further discharge adds one hit to the slot and weapon that fired it and none to any other. |
| `Combat.Collector.CountsAreLineage` | lambda/h1_film/encoder/src/combat.rs:151-197 | In every reachable state the reported counts are the accepted shots and the distinct credited discharges of the whole history, even those the 65,536-entry window has dropped. |
| `Combat.Collector.ObserveShot` | lambda/h1_film/encoder/src/combat.rs:151-166 | Accepted exactly for known slot and weapon, a larger identity and a counter in range; the window drops its oldest entry only when full, and says so in the coverage. |
| `Combat.Collector.ObserveHit` | lambda/h1_film/encoder/src/combat.rs:182-197 | Refused exactly when an opponent hit contradicts the remembered discharge; credits a remembered discharge once; a forgotten one lowers the coverage only. |
| `Combat.Collector.ObserveDeath` | lambda/h1_film/encoder/src/combat.rs:210-235 | Deaths are numbered on, also when the list is full; indices strictly increase and ticks never decrease. |
| `Combat.Collector.Observe` | lambda/h1_film/encoder/src/combat.rs:102-235 | One tick is accepted exactly when its shots, damage and deaths are, their relationships and kinds included; then the history, the discharges credited by opponent damage that names a remembered discharge, the recorded deaths and both coverage levels are exactly the old ones with those of the tick. |
| `Combat.Trim` | lambda/h1_film/encoder/src/combat.rs:302-311 | The running byte count is the serialised size throughout; what remains is the longest list of oldest deaths within the budget, and it fails exactly when even no death fits. |

## Left out

- Network, S3, SSM, Lambda and subprocess calls, timeouts and metrics: the protocols use them as atomic steps only.
- zstd, SHA-256, JSON text and the contract schemas in `Container` are arbitrary deterministic functions; `AssembledIsAccepted` has two hypotheses about them: parsing a rendered manifest gives it back, and the validator of a tick does not look at member order (`OrderBlind`).
- The native parts path (`viewer_delta.py:2003-2169`) and pose containers (version 2), whose verdict is a parameter of `Container.Validate`.
- Sampling, the pose codec and the transport parser: not part of this model.
- Tick hashes and `_javascript_number_to_string`: shortest decimal printing is not part of this model.
- Values: JSON integers beyond binary64 are not modelled, and 2 and 2.0 are one number, as they are for the codec's comparison.
- StepAgrees: does not model ticks that share list or object nodes; for those the Python identity shortcut (`viewer_delta.py:463-464`) skips tests that could raise, and never changes what is written.
- Utf8: strings are sequences of Unicode scalar values; lone surrogates, which the source cannot encode, do not occur.
- `text_equal` is string equality.
- ExactTickIsSame: sharing between decoded nodes is an arbitrary relation that only relates nodes equal to those compared before; how the decoder shares nodes is not modelled.
- ProjectReusing: trees are passed in and handed back as values, since a tree of owned nodes has no aliasing; which allocations are reused is not visible in the result.
- ProjectOwned: as ProjectReusing, moves are not visible in the result.
- Cache.Project: reference counts are modelled by the set of live snapshots; a record is exclusive when no slot, snapshot or pool entry holds it.
- Projection plans are given with their references resolved; the resolution itself, its cycle error and the layout tests of the caches are left out, and so is the rule of `_nullable_node` that a reference to "nullable_scalar" counts as nullable before it is resolved.
- WriteTick: asks that the two record lists are not two different float32 arrays, which lists of JSON objects never are.
- PushState: asks the same of its record lists.
- AddTick: a tick that completes a group which is not lossless leaves the full group pending, as the source does; the writer is not used after that.
- Promotion: waiting for the function update and the asset package test are single steps, describing versions is atomic with reading them, and versions are never deleted.
- Completion: the payloads are opaque; building and validating the manifest's fields is left out.
- Pipeline: thread start, the error text and the drop order are left out.
- CompiledIsExact: which schemas the library builds and what it accepts are arbitrary functions of the schema, the document's definitions and the value; a document's number that is not a machine integer is its nearest binary64 value, as the JSON parser gives it.
- Accepts: references into other documents and to anchors have no meaning here; a schema of nothing but such a reference is a compilation error.
- CompletionSafety: `report_failure` of the film worker and the status calls that go with progress are left out; they touch neither the manifest nor the source.
- Observe: damage totals, awards, the source's own coverage levels, weapon and position formats, the end of the game and the text of the product are left out; the size of a death event is a parameter of the trimming.
- Replay scraping, film headers, heatmaps, counters, tools and scripts: running sums and single-branch checks that would add only easy members.
