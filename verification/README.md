# serify, modelled and proved

serify is a conformance runner: it drives worker processes, one for each
language, over line-delimited JSON, asks them to serialize and deserialize the
same cases, and compares what they return. This project models the runner, the
Go worker library and the byte codecs of the example workers in Dafny, and
proves what they promise each other. `dafny verify dfyconfig.toml` checks all
of it.

## The parts

**The type language** (`Text`, `TypeLang`, `ReadBack`, `Inlining`, `Resolution`,
`Resolver`, `Importing`). A type is printed into compact text and parsed again,
and for every type at all it is settled whether that gives the type back;
a resolver with a memo and a recursion check inlines named types; type files
import each other. Plain inlining, without the memo, is defined as a function
with a step budget, and an expression *yields* a result when some budget
reaches it; more budget never changes an answer. Against that definition: the
resolver class returns exactly what plain inlining yields, success is
characterised by reachability in the reference graph, and termination is
characterised by the absence of a cycle of transparent types alone, the one arm
without a guard. Loading imports is a walk with a shared visited set over a
graph that may be cyclic, and is shown to gather exactly what is reachable.

**The protocol** (`WorkerLoop`, `Protocol`). The worker's message loop is a
class with the loop's variables. The runner's side is a transition system: any
number of calls, one mutex, one reader goroutine for each written request, two
FIFO pipes, and timeouts, cancellations, crashes and a stop that may happen at
any step. Two levels of worker are considered: one that sends anything at all,
and one that answers each request once and in order. Invariants hold over every
schedule, and the two sides are composed at the end.

**The wire codec** (`WireValues`, `RunnerCodec`, `CaseEncoder`, `WorkerCodec`,
`FieldMaps`, `WireRoundTrip`, `Comparison`). What the runner sends for a case,
what a Go worker stores for it, what it sends back, and what the comparison
then says. The supported fragment is a predicate on the case and its schema,
and both the round trip and the green row hold exactly on it.

**The reflection binding** (`Reflection`, `ReflectRoundTrip`, `ModelBinding`,
`ModelPath`). Filling a Go struct from a field map and extracting it, with
flattened embeds, conversions in arrays and maps, and the error paths. A field
map survives exactly when it fits the struct; what the wire codec decodes does.

**The audit** (`AuditValues`, `AuditHeap`, `ZeroCopy`, `AuditRun`,
`AuditCodec`). Buffers are real arrays, byte slices and strings are windows on
them, field maps are objects. The probe clones, flips the buffer in place,
compares and writes the clones back. What it names, what it leaves flipped, and
what the verdicts of a whole audited call mean are stated for every value, typed
slices and map keys in the buffer included, and for every way a map may look up
a key that was written over; `AuditCodec` runs the probe on a decoder that copies
and one that aliases.

**Reports and schedules** (`TestIds`, `Reporting`, `Orchestration`, `Suites`).
One goroutine for each language, and in a full matrix one for each pair, adds
rows to a shared report. Every interleaving is a schedule of atomic steps; all
of them add the same rows, and each once exactly when no two test ids clash. The
coverage check at the end is run on what a whole suite leaves.

**Byte codecs** (`LittleEndian`, `Int128`, `Base64`, `CppJson`, `CppParser`,
`Layout`, `Records`, `Blocks`, `SignalRecords`, `TelemetryRecords`,
`CustomerRecords`, `OrderRecords`, `LedgerRecords`, `NotificationRecords`,
`Framing`). Integers, base64, JSON, record layouts and frames, each against one
definition. Each Go record is a class whose encoder and decoder follow the
source check by check: one check on the length of a whole list or of a run of
fields, where the layout checks each of them.

## Conventions

Each method that follows a loop or an object of the source is tied to a
function by its `ensures`, and the promises are lemmas about that function. An
error of the source is `None` or an `Err`; texts of messages are not modelled
except where code looks at them. Map iteration order is an arbitrary choice.
Floats are their bytes. Values that a library or the network decides are
parameters: number formatting and conversion, `strtod`, type conversion by
reflection, what the JSON library makes of a composite, whether a map finds an
entry whose key was written over, how much a send or receive moves, what a worker
answers.

## Where the code and its own words part

- `detectZeroCopy` (lib/go/serify/auditcheck.go:215-219) says it restores the
  original values; the fields it saved are restored, the buffer itself stays
  flipped, and so does everything it did not save.
- The message loop (lib/go/serify/run.go:182-184) clears its functions so that
  nothing runs against a previous type; a bind answered with an error replaces
  the schema and keeps the functions. The runner never sends such a bind.
- An `array` of structs is sent without its nested schema
  (internal/proto/proto.go:447-473), so only structs with no fields present
  survive one.
- A `bytes` value authored as hex is passed through as written
  (internal/proto/proto.go:371-372) and comes back in lower case.
- A variant around a struct keeps a tag the probe neither saves nor names
  (lib/go/serify/auditcheck.go:286-299).
- A map key that points into the input is saved by nobody: cloneValue stores the
  clone's entries under the same key (lib/go/serify/auditcheck.go:107-111), so the
  data reported has flipped keys, and a map of numbers is not even looked at. The
  same holds of typed slices, which cloneValue does not name.
- `valuesEqual` compares floats by bit pattern so that a NaN raises no false
  warning (lib/go/serify/auditcheck.go:160-161); a `list<float32>` with a NaN,
  being a slice, still makes the deserializer look unstable.
- Case ids are prefixed "for global uniqueness" (internal/orch/orch.go:125-126);
  a slash in a case name and a format can give two cases one id.
- Two imported files with one base name silently become one type
  (internal/conf/schema.go:186-195).
- The C++ parser joins a high surrogate with any escape that follows it
  (lib/cpp/serify.hpp:449-454).

## Model

| member | source | states |
|---|---|---|
| Text.SplitTopLevel | internal/kind/kind.go:73-90 | the loop with depth and start yields exactly the pieces between the commas at bracket depth 0, and joining them with commas gives the text back |
| Text.SplitPair | internal/kind/kind.go:73-90 | two texts that are balanced at depth 0, joined by a comma, come back as exactly those two |
| Text.SplitUndoesJoin | internal/conf/schema.go:248-342 | splitting an enum's argument text at commas undoes joining it if and only if no piece contains a comma |
| Text.ParseSignedOfText | internal/conf/conf.go:63-90 | the decimal text of any integer parses back to it, of a natural one also without a sign |
| TypeLang.ParseUndoesPrint | internal/conf/conf.go:63-90 | for every nesting of scalar, struct, optional, list, array, map and enum within the printable fragment, parsing the printed text gives the expression the type stands for, under any registry without a name that contains `<` |
| TypeLang.EnumReadsBackExactly | internal/conf/schema.go:248-342 | under any registry without a name that contains `<`, a printed enum reads back if and only if it has a name and all names are non-empty, trimmed and free of commas and line breaks |
| TypeLang.SumNeverReadsBack | internal/conf/schema.go:248-342 | no printed sum parses under such a registry: the form is only a rendering |
| TypeLang.BracketInKeyBreaksMap | internal/kind/kind.go:73-90 | a concrete enum key whose name holds an opening bracket makes the printed map unreadable under every such registry |
| ReadBack.ReadsBackExactly | internal/conf/conf.go:63-90 | for every type whatsoever, nested at will, reading its printed form gives the expression it stands for if and only if it holds no sum, its sizes fit 64 bits, its enum names are readable, and in each map the key's text is balanced and the value's text shows no comma outside brackets |
| ReadBack.PairExactly | internal/kind/kind.go:73-90 | two texts joined by a comma are cut into exactly those two if and only if the first is balanced and the second shows no comma outside brackets |
| ReadBack.NothingBehind | internal/conf/schema.go:248-342 | no printed form followed by a comma or a closing bracket and anything else reads as its type |
| ReadBack.CommasNeeded | internal/conf/schema.go:248-342 | no text with fewer commas than the printed form reads as the type |
| Resolution.PrintedTypeResolves | internal/conf/schema.go:248-342 | resolving a printed type gives the type back up to the struct fields the text does not carry, under every registry and every stack |
| Inlining.RefsRegistered | internal/conf/schema.go:248-342 | the parser only ever looks up names that are registered |
| Inlining.YieldsOnce | internal/conf/schema.go:200-363 | plain inlining of an expression has at most one answer |
| Resolution.SucceedsExactly | internal/conf/schema.go:200-363 | on every registry, cyclic ones included, inlining yields a type if and only if nothing reachable is unknown, unreadable or recursive and nothing on the stack is met again |
| Resolution.MemoIsSound | internal/conf/schema.go:226-241 | a type inlined once from an empty stack is what any later stack that leads to it yields too, so a memo hit never hides a recursion error |
| Resolution.StackForgotten | internal/conf/schema.go:226-241 | a success under any stack is a success from an empty one, so it may be memoised |
| Resolution.Terminates | internal/conf/schema.go:248-342 | without a cycle of transparent types alone, inlining every expression ends with a type or an error |
| Resolution.NeverFails | internal/conf/schema.go:200-363 | with readable bodies and no recursion through a record or a sum no error is ever reported |
| Resolution.StopsExactly | internal/conf/schema.go:265-280 | where no other defect can stop it, every reference resolves in finitely many steps if and only if no type leads back to itself through transparent types alone |
| Resolver.SchemaResolver.constructor | internal/conf/schema.go:206-212 | a resolver starts with an empty memo and an empty stack, in its invariant |
| Resolver.SchemaResolver.TypeOf | internal/conf/schema.go:248-342 | whatever the memo already holds, the answer is the one plain inlining yields under the current stack; the memo only grows, stays sound, and the stack is restored |
| Resolver.SchemaResolver.Named | internal/conf/schema.go:248-342 | a registered name resolves as plain inlining does, for sums, transparent newtypes and records |
| Resolver.SchemaResolver.NamedType | internal/conf/schema.go:226-241 | memo first, then the cycle check, then the fields: the answer is that of plain inlining and the invariant is kept |
| Resolver.SchemaResolver.Fields | internal/conf/schema.go:214-224 | the entries in order, stopping at the first error, as plain inlining does |
| Resolver.SchemaResolver.SumType | internal/conf/schema.go:346-363 | one variant for each entry, unit variants for entries without a type, an error for an empty sum |
| Resolver.SchemaResolver.Applied | internal/conf/schema.go:281-342 | the parameterized forms agree with plain inlining of what the parser reads |
| Resolver.SchemaResolver.ArrayOf | internal/conf/schema.go:300-320 | the element in front of the last comma is resolved before the size behind it is read |
| Resolver.SchemaResolver.MapOf | internal/conf/schema.go:320-335 | exactly two arguments at the top nesting level, the key resolved first |
| Importing.Importer.LoadImportable | internal/conf/schema.go:150-196 | succeeds if and only if every file reachable without passing through a visited one is good; then it has visited exactly those and gathered their types; an error names a reachable bad file |
| Importing.LoadImports | internal/conf/conf.go:207-215 | from an empty visited set the registry is that of all files reachable from the imports, whatever cycles there are, and is one the resolver accepts |
| Importing.GatheredIsLoaded | internal/conf/schema.go:120-144 | every gathered transparent type is a record of exactly one field |
| Importing.NothingLost | internal/conf/schema.go:186-195 | no imported type is lost if and only if files with the same base name declare the same type |
| Importing.OneNameTwoTypes | internal/conf/schema.go:186-195 | two good files of one base name that declare different types: one of the two is missing from every registry gathered from them |
| WorkerLoop.Loop.HandleBind | lib/go/serify/run.go:217-260 | the new binding and the answer are those of the message in the old binding: an error keeps the old functions but has already replaced the schema |
| WorkerLoop.Loop.EmitSkip | lib/go/serify/run.go:185-193 | both functions are cleared before the skip is answered, the schema and the audit flag are kept |
| WorkerLoop.Loop.Handle | lib/go/serify/run.go:209-376 | one message: the new binding and the one answer |
| WorkerLoop.WorkFromHistory | lib/go/serify/run.go:258-366 | what a serialize or deserialize is answered, told from the earlier requests alone: skipped if and only if the last effective bind registered only the other direction, successful if and only if it registered this one and its function, run under the schema of the last readable bind, has a result, which is then the answer |
| WorkerLoop.Loop.Run | lib/go/serify/run.go:195-378 | blank and malformed lines are skipped, every other message before the first exit, a bind with an unreadable body included, is answered once and in order, and the final binding is that of the whole history |
| WorkerLoop.OwnAnswers | lib/go/serify/run.go:195-378 | exactly one answer for each request, each carrying the request's own op and id |
| WorkerLoop.AnswerAt | lib/go/serify/run.go:195-378 | the answer to a request depends on the requests before it and on nothing later |
| WorkerLoop.BindingFromHistory | lib/go/serify/run.go:217-260 | for every history the schema is that of the last bind that could be read, while functions and audit flag are those of the last bind not answered with an error |
| WorkerLoop.CoherentExactly | lib/go/serify/run.go:217-260 | what can run belongs to the latest bind, which succeeded, if and only if the latest bind was not an error answer or nothing is left to call |
| WorkerLoop.RunnerHistoriesCoherent | internal/worker/worker.go:185-226 | under histories the runner can send, every reachable binding is coherent |
| WorkerLoop.ErrorBindMixesSchemas | lib/go/serify/run.go:217-260 | a concrete two-bind history after which the old functions run under the new schema |
| Protocol.Invariant | internal/worker/worker.go:185-336 | lock, reader, outcome and written-once invariants hold in every interleaving of any number of calls, timeouts, cancellations, crashes and arbitrary worker output |
| Protocol.OneReader | internal/worker/worker.go:289-322 | no two reader goroutines are ever on the stream together, although abandoned ones are never joined |
| Protocol.GotMatches | internal/worker/worker.go:230-254 | in every run, whatever the worker sends, a response that reaches a caller carries the caller's op and id |
| Protocol.DeadRun | internal/worker/worker.go:256-264 | once dead, always dead, and no new response reaches anyone in any continuation |
| Protocol.SilenceAfterFatal | internal/worker/worker.go:256-336 | after any timeout, cancellation or mismatch no call that was not already finished ever receives a response |
| Protocol.FaithfulInvariant | internal/worker/worker.go:185-336 | with a worker that answers once and in order, the two pipes are always a window on the requests written and the replies given |
| Protocol.EveryAnswerIsOwn | internal/worker/worker.go:185-336 | in every interleaving, any response a caller receives is the worker's answer to its own request, given after exactly the requests written before it |
| Protocol.NoFalseMismatch | internal/worker/worker.go:230-254 | on a healthy stream the mismatch check never fires |
| Protocol.LoopAnswersAgree | lib/go/serify/run.go:195-378 | the worker of the transition system answers as the message loop's method does |
| Protocol.LoopCorrelates | lib/go/serify/run.go:195-378 | every answer of the message loop carries the op and id asked for |
| Protocol.WrittenSendable | internal/worker/worker.go:195-203 | in every run no bind without a type or a format is ever written |
| Protocol.SuccessIsTrustworthy | internal/orch/orch.go:88-122 | in every run of the runner over the message loop, a successful serialize or deserialize a caller receives ran the function, schema and audit flag of the latest bind written before its request, and that bind succeeded |
| WireValues.HexRoundTrip | lib/go/serify/protocol.go:643-657 | decoding undoes encoding of every byte sequence |
| WireValues.HexTextSurvives | internal/proto/proto.go:369-387 | hex text survives decoding and encoding again if and only if it is of even length and lower case |
| WireValues.ConvertedInRange | lib/go/serify/protocol.go:556-563 | converting a JSON number to a small integer keeps it if and only if it is a whole number in range |
| CaseEncoder.EncodeCase | internal/proto/proto.go:217-235 | whatever order the case data comes in, the result or the failure is that of the encoding function |
| CaseEncoder.EncodeOne | internal/proto/proto.go:238-364 | one value by the arms of the type switch |
| CaseEncoder.EncodeList | internal/proto/proto.go:238-364 | list and array elements in order, failing with the first that fails |
| CaseEncoder.EncodeMap | internal/proto/proto.go:238-364 | map entries in whatever order |
| CaseEncoder.EncodeNested | internal/proto/proto.go:238-364 | the declared fields of a struct that are present, other keys dropped |
| RunnerCodec.SchemaFields | internal/proto/proto.go:435-473 | one schema field for each field, in order, each that of its type |
| FieldMaps.DecodeFieldMap | lib/go/serify/protocol.go:66-78 | a fresh field map holding exactly what the declared fields that are present decode to, or failure |
| FieldMaps.DecodeInto | lib/go/serify/protocol.go:80-112 | on success exactly the named field is written, with what the field decodes to; it fails exactly when decoding does |
| FieldMaps.DecodeOne | lib/go/serify/protocol.go:144-200 | a scalar or a nested struct, nothing else |
| FieldMaps.DecodeList | lib/go/serify/protocol.go:202-250 | elements collected in order into the slice type of their kind |
| FieldMaps.DecodeMap | lib/go/serify/protocol.go:336-353 | entries decoded in whatever order the map gives |
| FieldMaps.DecodeVariant | lib/go/serify/protocol.go:114-142 | exactly one declared tag, its payload through a scratch field map |
| FieldMaps.EncodeFieldMap | lib/go/serify/protocol.go:355-369 | the declared fields that are stored, each encoded, or failure |
| FieldMaps.EncodeOneField | lib/go/serify/protocol.go:371-408 | one stored value by the form of its type text |
| FieldMaps.EncodeOne | lib/go/serify/protocol.go:433-488 | one stored scalar or nested struct |
| FieldMaps.EncodeList | lib/go/serify/protocol.go:490-525 | a typed slice, element by element |
| FieldMaps.EncodeMap | lib/go/serify/protocol.go:371-408 | map entries in whatever order |
| FieldMaps.EncodeVariant | lib/go/serify/protocol.go:410-431 | the tag and the encoded payload of a declared variant |
| WireRoundTrip.ShapeOfPrinted | lib/go/serify/protocol.go:285-334 | what the worker cuts out of every type text the runner prints: element, size, value type |
| WireRoundTrip.KindBack | lib/go/serify/protocol.go:144-200 | for every scalar kind and every value the runner accepts, decode then encode is the identity if and only if the value is in the supported fragment |
| WireRoundTrip.FieldBack | lib/go/serify/protocol.go:66-547 | the same for a field of any type: one container level, no struct fields inside arrays, lower-case hex, canonical decimals |
| WireRoundTrip.RoundTripExactly | internal/proto/proto.go:217-364 | worker decode followed by worker encode under the schema the runner sends returns exactly what was sent if and only if every value is in the supported fragment |
| WireRoundTrip.IntegersInRange | lib/go/serify/protocol.go:572-629 | for every integer kind a case integer is supported if and only if it is in range |
| Comparison.HexOffsetDiff | internal/cmp/cmp.go:126-167 | nothing exactly for equal bytes, else the first offset where the two part and the window around it |
| Comparison.HexDiff | internal/cmp/cmp.go:34-56 | empty if and only if both texts decode to the same bytes; which side does not decode is told apart |
| Comparison.DataDiff | internal/cmp/cmp.go:58-85 | empty if and only if all compared fields, the listed ones or without a list the expected ones, agree and nothing unexpected came back; every reported difference is one and every one is reported |
| Comparison.AgreeIsEqual | internal/cmp/cmp.go:58-124 | equal data agree, and without NaN and null only equal data do |
| Comparison.FloatsSurvive | internal/cmp/cmp.go:87-124 | a float field survives whatever its bits, so the NaN rule never hides a spoiled field |
| Comparison.GreenExactly | internal/cmp/cmp.go:58-85 | the comparison with a decode-and-encode worker reports nothing if and only if every value of the case is in the supported fragment |
| ModelBinding.Model.Fill | lib/go/serify/reflect.go:69-360 | in place, field by field: success exactly as specified; on failure the fields before the failing one are set and those behind it untouched |
| ModelBinding.SetField | lib/go/serify/reflect.go:69-120 | one field: promoted, missing (left as it is) or filled from its key |
| ModelBinding.SetValue | lib/go/serify/reflect.go:121-357 | one value by the arms of the type switch |
| ModelBinding.SetArray | lib/go/serify/reflect.go:243-261 | every element of a slice of the right length, converted where the types differ |
| ModelBinding.SetElem | lib/go/serify/reflect.go:364-386 | assign, convert, fill a struct, or leave the slot for a nil |
| ModelBinding.SetSlice | lib/go/serify/reflect.go:262-279 | a new slice of new structs, one for each stored field map |
| ModelBinding.SetMap | lib/go/serify/reflect.go:280-305 | whatever the iteration order: entries that do not convert are dropped, a failing nested struct fails the whole |
| ModelBinding.SetPtr | lib/go/serify/reflect.go:306-342 | nil, a nested struct, or the bare value behind a new pointer |
| ModelBinding.Extract | lib/go/serify/reflect.go:391-512 | writes exactly the struct's entries into the field map, later fields over earlier ones, everything else kept |
| ModelBinding.StoredElems | lib/go/serify/reflect.go:517-525 | one field map for each element, in order |
| ModelBinding.FillAndExtract | lib/go/serify/reflect.go:42-43 | a zero struct filled and extracted returns the same field map if and only if the field map fits the struct |
| ReflectRoundTrip.RoundTripExactly | lib/go/serify/reflect.go:69-525 | filling a zero struct and extracting it gives the field map back if and only if the field map has exactly the struct's keys, each with the stored form of its field's type, through structs, slices, arrays, maps, optionals and flattened embeds |
| ReflectRoundTrip.FieldsBack | lib/go/serify/reflect.go:69-525 | a struct fills from any field map that holds a fitting value for each of its fields, and extracts exactly those entries |
| ReflectRoundTrip.FilledKeys | lib/go/serify/reflect.go:93-103 | a filled struct extracts under exactly its own keys, because nil embedded pointers were allocated |
| ModelPath.ModelEchoes | lib/go/serify/reflect.go:69-525 | what the worker decodes under a schema fills the struct declared for that schema and comes back out of it as the very field map that was decoded |
| ModelPath.StructFits | lib/go/serify/protocol.go:66-78 | every complete decoded struct is in the stored form its model takes |
| AuditValues.FlipInvolution | lib/go/serify/auditcheck.go:209-213 | flipping a range twice restores it |
| AuditValues.SliceFlip | lib/go/serify/auditcheck.go:209-213 | a byte range reads differently after the flip if and only if it shares a byte with the buffer |
| AuditValues.KeysKept | lib/go/serify/auditcheck.go:190-203 | with no map key in the buffer, every map finds its entries after the flip, whatever lookups do with overwritten keys |
| AuditValues.DeepAfterFlip | lib/go/serify/auditcheck.go:154-206 | under DeepEqual, as long as the maps find their entries, a value and its clone compare equal after the flip if and only if nothing copied was overwritten and there is no NaN but in float slices, which the two share |
| AuditValues.EqualAfterFlip | lib/go/serify/auditcheck.go:154-206 | under valuesEqual, as long as the maps find their entries, they compare equal if and only if nothing copied was overwritten and no such NaN stands in a list or a variant |
| AuditValues.CloneReads | lib/go/serify/auditcheck.go:65-122 | a clone reads after the flip as the original before it, entry by entry, if and only if nothing it shares was overwritten: no typed slice, no other unnamed kind, no map key |
| AuditValues.PlaceReads | lib/go/serify/auditcheck.go:209-213 | a value left in place reads the same if and only if none of its byte ranges, map keys included, overlaps the buffer |
| AuditHeap.CloneValue | lib/go/serify/auditcheck.go:65-122 | in a real heap: the clone has the same shape, its copied parts lie in fresh arrays and hold the same bytes, everything else is shared, the keys of maps too |
| AuditHeap.NowIs | lib/go/serify/auditcheck.go:154-206 | what a value reads as in the heap, map keys included, is what the recorded array contents give |
| AuditHeap.CopyNow | lib/go/serify/auditcheck.go:65-122 | a clone reads as its copied parts did then and its shared parts, map keys included, do now |
| ZeroCopy.XorFlip | lib/go/serify/auditcheck.go:209-213 | in place, exactly the bytes of the window become 255 minus themselves |
| ZeroCopy.CollectFieldSnaps | lib/go/serify/auditcheck.go:250-302 | every watched field the walk reaches has a snapshot, every snapshot is of such a field and a clone of it whose copied parts are private |
| ZeroCopy.Compare | lib/go/serify/auditcheck.go:230-236 | the names gathered are exactly the keys of the snapshots whose field has a copied range in the buffer or shows DeepEqual a NaN, or, where a map no longer finds an entry, compares unequal |
| ZeroCopy.RestoreAll | lib/go/serify/auditcheck.go:238-240 | every snapshot is back in its field and nothing else is written |
| ZeroCopy.DetectZeroCopy | lib/go/serify/auditcheck.go:220-243 | for every way a map may treat overwritten keys: with a non-empty buffer the names are exactly the keys of visited fields that alias it or hide a NaN; the buffer stays flipped; a field reads as before if and only if it lost nothing; only watched fields are written |
| ZeroCopy.WalkedExactly | lib/go/serify/auditcheck.go:250-302 | on the walked kinds a field reads as before afterwards if and only if no map key of it is in the buffer; then it is named if and only if a non-empty byte range of it is; with such a key, it is named for what else was overwritten as long as lookups succeed |
| ZeroCopy.ScalarMapMissed | lib/go/serify/auditcheck.go:278-286 | a map of numbers with a key in the buffer is neither saved nor named, and its key reads flipped afterwards |
| ZeroCopy.TextMapLost | lib/go/serify/auditcheck.go:103-112 | a map of strings with a key in the buffer is saved and still reads flipped once the clone is back; it is named if and only if the lookup under the flipped key fails |
| ZeroCopy.TextMapEitherWay | lib/go/serify/auditcheck.go:190-203 | both happen under lawful lookups: not named where entries are found by scanning the keys, named where they are found by hash |
| ZeroCopy.KeysSwapped | lib/go/serify/auditcheck.go:209-213 | two complementary keys with equal values: every entry reads differently after the flip, yet the map as a set of entries looks the same |
| ZeroCopy.SharedMissed | lib/go/serify/auditcheck.go:65-122 | a list of byte slices or a typed slice that aliases the buffer is not named and reads flipped afterwards |
| ZeroCopy.NaNNamed | lib/go/serify/auditcheck.go:154-206 | a list with a NaN beside a string is named although nothing aliases |
| ZeroCopy.SharedNaNUnnamed | lib/go/serify/auditcheck.go:117-119 | a float slice beside a string is not named whatever it holds: the snapshot shares that slice |
| AuditRun.CompareFieldMaps | lib/go/serify/auditcheck.go:125-148 | the names are exactly the fields that differ or are missing on one side, and there are none exactly when the field maps are equal |
| AuditRun.DeserializeAudit | lib/go/serify/run.go:113-136 | the mutation and stability verdicts are those of the state before the flip; the names are those of the probe; afterwards the whole result, nested field maps included, reads as before if and only if no field was spoiled |
| AuditRun.WholeSame | lib/go/serify/auditcheck.go:125-148 | two states of a result read the same if and only if every field on the way does |
| AuditRun.SameTwiceIsStable | lib/go/serify/run.go:124-129 | a deserializer that gives the same reading twice, map entries in any order, is called stable if and only if no NaN stands inside a float slice, a []any or a variant of it, other than inside an object that it handed out both times |
| AuditRun.NaNListUnstable | lib/go/serify/auditcheck.go:160-206 | a float list with one NaN that decodes to the same bits twice is called unstable, unless the very same slice comes back |
| AuditRun.ProbeMustComeLast | lib/go/serify/run.go:131-135 | judged after the probe, the input would seem mutated if and only if it was not empty |
| AuditRun.WalkedIsKept | lib/go/serify/auditcheck.go:250-302 | a walked field is spoiled if and only if something no clone copies lies in the buffer: the tag of a variant around a struct, a map key, the memory of a typed slice or of another unnamed kind |
| AuditRun.KeysAndTags | lib/go/serify/auditcheck.go:65-122 | where cloneValue knows every kind in the field, that is a map key or such a tag |
| AuditRun.WalkedSpoiledExactly | lib/go/serify/run.go:335-365 | for walked kinds turning the audit on changes the data reported if and only if some map key or some tag of a struct variant lies in the buffer |
| AuditRun.MapKeySpoils | lib/go/serify/auditcheck.go:250-302 | one map key in the buffer spoils the result, whatever the values of the map are |
| AuditCodec.Decode | examples/audit/go/codec.go:75-117 | on every input both modes fail alike and read back the same frame; they differ only in where the bytes live |
| AuditCodec.TakeTags | examples/audit/go/codec.go:94-105 | the tags in a row, or failure exactly when one is cut off |
| AuditCodec.TakeSpan | examples/audit/go/codec.go:122-134 | a window on the buffer in aliasing mode and when not empty, private memory otherwise, the same bytes in both |
| AuditCodec.FrameNamed | lib/go/serify/auditcheck.go:220-243 | field by field: the probe names it if and only if the decoder aliased and the field has content |
| AuditCodec.AuditDecoder | lib/go/serify/auditcheck.go:220-243 | decoding and probing: the aliasing decoder is reported for exactly its non-empty fields, the copying one for none |
| Reporting.Report.Add | internal/report/report.go:93-117 | the row replaces one with its key; failures and warnings grow by rows with a new key only |
| Reporting.Report.AddEach | internal/report/report.go:93-117 | rows added one after the other give the state of the whole history |
| Reporting.SuccessAfter | internal/report/report.go:270-272 | success holds if and only if it held before and no row added since was FAIL or ERROR |
| Reporting.LastRowWins | internal/report/report.go:93-117 | a key ends up with the last row added for it |
| Reporting.SuccessMatchesRows | internal/report/report.go:270-272 | when only SKIP rows are overwritten, success holds if and only if no row is FAIL or ERROR |
| Reporting.SuccessMatchesRowsExactly | internal/report/report.go:93-117 | success and the final rows agree if and only if some failing row was last for its key, or no row ever failed |
| Reporting.OverwrittenFailureStays | internal/report/report.go:93-117 | a concrete history: a failure overwritten by a pass still fails the run |
| Reporting.Report.FindUndeclared | internal/orch/coverage.go:48-100 | one failing row for each undeclared skip and no other; the entries used are exactly those some skip is covered by |
| Reporting.Report.StaleRows | internal/orch/coverage.go:88-111 | one warning for each declared entry nothing used |
| Reporting.Report.CheckExpectedSkips | internal/orch/coverage.go:48-111 | undeclared skips become failures, unused entries, under whatever operation name, warnings, nothing else is added; success afterwards holds if and only if it held before and every non-cascade skip is declared |
| Reporting.SkipsAreSorted | internal/orch/coverage.go:34-46 | every skip is a cascade, covered by exactly the entry it uses, or undeclared |
| Reporting.Count | internal/report/report.go:161-229 | in whatever order the rows are walked no row goes uncounted, and the FAIL count is positive exactly when a row fails |
| Reporting.UnimplementedTypes | internal/report/report.go:246-268 | exactly the types every row of which is SKIP |
| TestIds.JoinedMeet | internal/conf/conf.go:126-129 | two pairs of names joined by a separator are one text if and only if they are one pair, or one is the other with the separator moved |
| TestIds.IdsMeet | internal/conf/conf.go:126-129 | two test ids are one if and only if all three names are, or the type is and a slash of one case name could as well belong to the other format |
| TestIds.NamesCollide | internal/conf/conf.go:126-129 | two formats and two cases of four different names with one id |
| TestIds.TypeOfTestId | internal/orch/coverage.go:67-69 | cutting a test id at its first slash gives its type, a type being named after a file |
| Orchestration.ScheduleBag | internal/orch/orch.go:163-390 | every schedule of the goroutines executes exactly their actions, each as often as its goroutine has it |
| Orchestration.RoundOneHex | internal/orch/orch.go:190-270 | whatever the schedule, the first round leaves the same map of serialized bytes |
| Orchestration.CaseRunBag | internal/orch/orch.go:163-390 | every run of a case, full matrix or not, executes the same actions |
| Orchestration.PerLangShape | internal/orch/orch.go:163-390 | each language ends up with exactly one serialize row and one deserialize row, of the outcome its answers and the oracle give, and its audit warnings |
| Orchestration.CaseOnceEach | internal/orch/orch.go:163-390 | in every schedule a case adds each row once, matrix rows included when the labels of the pairs differ |
| Orchestration.CaseVerdicts | internal/orch/orch.go:163-390 | in every schedule both verdict rows of each language are there, each added by exactly one action |
| Orchestration.MatrixRows | internal/orch/orch.go:392-440 | in every schedule of a full matrix every pair of languages has its row, of the outcome its answer, its known failures and the comparison give, an empty source skipped |
| Orchestration.MatrixOnce | internal/orch/orch.go:392-440 | no two of them have one key, unless an arrow in one language name could as well belong to another |
| Suites.MarksSame | internal/orch/orch.go:79-125 | the rows for workers that did not bind do not depend on the order the workers come in |
| Suites.GroupOnce | internal/orch/orch.go:79-125 | a type and format adds each row once, both verdict rows for every worker and case, bound or not |
| Suites.SuiteSame | internal/orch/orch.go:55-77 | any two runs of a suite with the same answers add the same rows |
| Suites.SuiteOnce | internal/orch/orch.go:55-77 | with distinct names and no clash of test ids no row is added twice |
| Suites.SuiteComplete | internal/orch/orch.go:55-77 | in every run every case of every type and format has both verdict rows for every worker, bound or not |
| Suites.IdsDifferExactly | internal/orch/orch.go:124-134 | with distinct type, format and case names all test ids differ if and only if no two cases clash |
| Suites.SuiteOnceExactly | internal/orch/orch.go:55-77 | with distinct names and a worker, a run adds each row once if and only if no two cases clash |
| Suites.ClashOverwrites | internal/orch/orch.go:145-158 | a concrete suite of four distinct names in which the ERROR row of one case ends as the SKIP row of another |
| Suites.SuiteDeterministic | internal/orch/orch.go:55-158 | with distinct names the final result map and the exit code are the same for every schedule and worker order, matrix rows included, even when test ids clash; and when none do, success agrees with the rows |
| Suites.RunAndCheck | internal/orch/coverage.go:48-111 | after a whole suite and the coverage check, success, a zero FAIL count and the absence of failing rows agree, and hold if and only if no row failed before and every skip that is not a cascade is declared |
| Suites.PlainDeclarations | internal/orch/coverage.go:88-111 | declarations without a slash never read like a test id, so no stale row overwrites a result |
| Suites.StaleHides | internal/orch/coverage.go:88-111 | a declared type that does read like one can hide a failure |
| LittleEndian.PutLE | examples/appdata/cpp/wire.hpp:31-36 | the loop of shifts appends the little-endian bytes of the number |
| LittleEndian.TakeLE | examples/appdata/cpp/wire.hpp:39-47 | the bitwise or of shifted bytes is the number they spell, and the offset moves behind them |
| LittleEndian.FromLEofLE | examples/appdata/cpp/wire.hpp:31-47 | below 256^k the k bytes read back as the number |
| LittleEndian.LEofFromLE | examples/appdata/cpp/wire.hpp:31-47 | any bytes are the encoding of the number they read as |
| Int128.AppendInt128 | examples/appdata/go/ledger.go:45-60 | appends the 16 little-endian bytes of the residue modulo 2^128, nil as zero |
| Int128.ReadInt128 | examples/appdata/go/ledger.go:63-78 | fails exactly on fewer than 16 bytes, else the signed number of the first 16 and the rest |
| Int128.SameBytes | examples/appdata/php/wire.php:39-46 | PHP writes the same 16 bytes for every integer |
| Int128.SignedRoundTrip | examples/appdata/go/ledger.go:44-78 | the 16 bytes read back as the number if and only if it is in the signed range, and PHP reads what Go does |
| Int128.UnsignedRoundTrip | examples/appdata/go/signals.go:402-413 | with the remap of negative counters they carry exactly the unsigned range |
| Int128.BytesRoundTrip | examples/appdata/go/ledger.go:44-78 | every 16 bytes are the encoding of exactly the number they read as |
| Int128.U128FromStr | lib/cpp/serify.hpp:74-81 | rejects exactly texts with a non-digit, and wraps modulo 2^128 |
| Int128.I128FromStr | lib/cpp/serify.hpp:83-89 | the method with wrapping negation computes the specified reading |
| Int128.FromStrValue | lib/cpp/serify.hpp:83-89 | that reading is the signed residue of the number the text spells |
| Int128.U128ToStr | lib/cpp/serify.hpp:91-97 | digits from the right, reversed, are the decimal text |
| Int128.I128ToStr | lib/cpp/serify.hpp:99-105 | the decimal text over the whole signed range |
| Int128.TextRoundTrip | lib/cpp/serify.hpp:74-105 | the text reads back as the number if and only if it is in the signed range, -2^127 included |
| Base64.B64Encode | examples/appdata/cpp/customer.hpp:48-63 | the loop over groups of three computes the encoding |
| Base64.B64Decode | examples/appdata/cpp/customer.hpp:65-88 | the loop over letters computes what the 32-bit accumulator emits |
| Base64.RoundTrip | examples/appdata/cpp/customer.hpp:48-88 | decoding undoes encoding on every byte sequence although the accumulator is never masked and wraps |
| Base64.PaddedForm | examples/appdata/cpp/customer.hpp:48-63 | four characters for every three bytes begun, letters and then exactly the padding of section 4 of RFC 4648 |
| CppJson.ParseUndoesWrite | lib/cpp/serify.hpp:324-502 | parsing a written value gives it back and stops right behind it, for every value of null, booleans, byte strings, integer tokens, arrays and objects, at any nesting |
| CppJson.QuotedBack | lib/cpp/serify.hpp:324-350 | arbitrary bytes, UTF-8 or not, survive a quoted string |
| CppJson.Utf8IsRight | lib/cpp/serify.hpp:406-422 | the bytes appended for a code point are its encoding under section 3 of RFC 3629 if and only if it is a scalar value |
| CppJson.PairBack | lib/cpp/serify.hpp:424-463 | the pair of escapes of section 7 of RFC 8259 reads as the code point it stands for |
| CppJson.JoinedExactly | lib/cpp/serify.hpp:424-463 | two joined escapes give the code point the pair stands for if and only if the second is a low surrogate, which the parser does not look at |
| CppParser.Parser.SkipWs | lib/cpp/serify.hpp:428-428 | the pointer moves over exactly the leading white space |
| CppParser.Parser.ParseHex4 | lib/cpp/serify.hpp:393-404 | four hex digits or failure |
| CppParser.Parser.ParseUnicode | lib/cpp/serify.hpp:424-463 | one escape or a surrogate pair, the pointer left on the last digit |
| CppParser.Parser.ReadString | lib/cpp/serify.hpp:429-463 | the string and the position behind it, or failure, as the grammar function says |
| CppParser.Parser.ParseValue | lib/cpp/serify.hpp:465-502 | the value and the position behind it, or failure, as the grammar function says |
| CppParser.Parser.ReadItems | lib/cpp/serify.hpp:476-487 | array elements while commas follow |
| CppParser.Parser.ReadMembers | lib/cpp/serify.hpp:488-499 | object members while commas follow |
| CppParser.ParseDocument | lib/cpp/serify.hpp:506-510 | the parser run on a written value returns that value |
| Layout.DecodeUndoesEncode | examples/appdata/go/wire.go:13-70 | for every format of the layout contract and every value within the limits, decoding an encoding gives the value back and stops right behind it |
| Layout.PrefixIsTruncated | examples/appdata/go/wire.go:13-70 | every strict prefix of an encoding is reported as truncated, never as a value and never as an unknown ordinal |
| Layout.OrderIsIrrelevant | examples/appdata/go/wire.go:61-70 | any two iteration orders of one map decode to the same map |
| Layout.ListingBuilds | examples/appdata/go/wire.go:61-70 | a listing of a map decodes to that map |
| Records.AppendMoney | examples/appdata/go/order.go:58-61 | appends the encoding of an amount |
| Records.ReadMoney | examples/appdata/go/order.go:63-74 | reads an amount, or fails as the format does, on every input |
| Records.AppendAddress | examples/appdata/go/customer.go:64-70 | appends the five strings of an address |
| Records.ReadAddress | examples/appdata/go/customer.go:72-88 | reads an address, or fails as the format does, on every input |
| Records.ReadLineItem | examples/appdata/go/order.go:160-200 | reads a line item whose last two bytes share one length check, as the format does on every input |
| Blocks.BulkRead | examples/appdata/go/signals.go:188-282 | one check on the length of a whole list of fixed-width elements accepts and rejects exactly what a check in front of each element would, and reads the same elements |
| Blocks.RunShort | examples/appdata/go/telemetry.go:134-136 | one check in front of a run of fixed-width fields, and of the least the field behind them takes, fails only when reading the fields one by one would be truncated |
| Blocks.BytesAll | examples/appdata/go/signals.go:88-89 | bytes appended in one piece are the encoding of the list of them |
| Blocks.AppendInt128s | examples/appdata/go/signals.go:125-133 | a counted list of 128-bit integers, nil as zero |
| Blocks.ReadInt128s | examples/appdata/go/signals.go:285-305 | as many 128-bit integers as counted, or truncated just as the layout says |
| Blocks.NormalizeCounters | examples/appdata/go/signals.go:402-413 | in place, every negative counter moves into the unsigned range |
| Blocks.ReadNumbers | examples/appdata/go/signals.go:211-282 | a counted list of numbers of a width, signed or not, or truncated just as the layout says |
| Blocks.MapKeys | examples/appdata/go/wire.go:61-70 | every key once, in some order |
| Blocks.MapMeaning | examples/appdata/go/wire.go:61-70 | a map written in any order of its keys stands for that map |
| SignalRecords.SignalCapture.MarshalBinary | examples/appdata/go/signals.go:76-178 | fails exactly on an unknown mode, else the bytes are the record's encoding, nil integers as zeros |
| SignalRecords.SignalCapture.UnmarshalBinary | examples/appdata/go/signals.go:182-400 | on every input the record is filled, or the input was truncated, or an ordinal was unknown, just as the layout says |
| SignalRecords.WriteAndRead | examples/appdata/go/signals.go:76-400 | within the limits a capture written and read back is the same, nil integers as zeros, and every strict prefix of the bytes is truncated |
| SignalRecords.SameSignals | examples/appdata/go/signals.go:37-58 | the values a decoder gives back determine the capture |
| TelemetryRecords.TelemetryFrame.MarshalBinary | examples/appdata/go/telemetry.go:53-104 | the bytes are the record's encoding with its map in the order it gave, a nil address as zero |
| TelemetryRecords.TelemetryFrame.UnmarshalBinary | examples/appdata/go/telemetry.go:107-209 | on every input the record is filled, or the input was truncated, just as the layout says |
| TelemetryRecords.WriteAndRead | examples/appdata/go/telemetry.go:53-209 | within the limits a frame written in any order of its map and read back is the same, a nil address as zero, and every strict prefix is truncated |
| TelemetryRecords.SameTelemetry | examples/appdata/go/telemetry.go:33-51 | the values a decoder gives back determine the frame |
| CustomerRecords.CustomerRecord.MarshalBinary | examples/appdata/go/customer.go:91-147 | the bytes are the record's encoding with each map in the order it gave |
| CustomerRecords.CustomerRecord.UnmarshalBinary | examples/appdata/go/customer.go:150-283 | on every input the record is filled, or the input was truncated, just as the layout says |
| CustomerRecords.WriteAndRead | examples/appdata/go/customer.go:91-283 | within the limits a record written in any order of its two maps and read back is the same, and every strict prefix is truncated |
| CustomerRecords.SameCustomer | examples/appdata/go/customer.go:45-62 | the values a decoder gives back determine the record |
| OrderRecords.OrderRecord.MarshalBinary | examples/appdata/go/order.go:76-134 | fails exactly on an unknown status, else the bytes are the record's encoding with its adjustments in the order the map gave |
| OrderRecords.OrderRecord.UnmarshalBinary | examples/appdata/go/order.go:137-247 | on every input the record is filled, or the input was truncated, or an ordinal was unknown, just as the layout says |
| OrderRecords.WriteAndRead | examples/appdata/go/order.go:76-247 | within the limits a record written in any order of its map and read back is the same, and every strict prefix is truncated |
| OrderRecords.SameOrder | examples/appdata/go/order.go:43-56 | the values a decoder gives back determine the record |
| OrderRecords.FieldMeaning | examples/appdata/go/order.go:76-134 | what an encoding stands for is the record with its map, in every listing order |
| LedgerRecords.LedgerEntry.MarshalBinary | examples/appdata/go/ledger.go:80-110 | the bytes are the record's encoding, nil integers as zeros |
| LedgerRecords.LedgerEntry.UnmarshalBinary | examples/appdata/go/ledger.go:112-167 | on every input the record is filled, or the input was truncated, just as the layout says |
| LedgerRecords.WriteAndRead | examples/appdata/go/ledger.go:80-167 | within the limits an entry written and read back is the same, nil integers as zeros, and every strict prefix is truncated |
| NotificationRecords.NotificationRecord.MarshalBinary | examples/appdata/go/notification.go:54-85 | fails exactly without a channel, else the bytes are the record's encoding |
| NotificationRecords.NotificationRecord.UnmarshalBinary | examples/appdata/go/notification.go:87-128 | on every input the record is filled, or the input was truncated, or an ordinal was unknown, just as the layout says |
| NotificationRecords.WriteAndRead | examples/appdata/go/notification.go:54-128 | within the limits a notification with any of the four channels written and read back is the same, and every strict prefix is truncated |
| Framing.WriteFrame | examples/taskstore/cpp/frame.hpp:42-58 | however the sends are cut, the whole frame goes out; a payload over the limit sends nothing; and a send that fails leaves a strict prefix |
| Framing.ReadExact | examples/taskstore/cpp/frame.hpp:60-67 | however the receives are cut, exactly the bytes asked for, or failure exactly when there are too few or a receive fails |
| Framing.ReadFrame | examples/taskstore/cpp/frame.hpp:69-82 | without a failing receive, a payload exactly when a whole frame within the limit is there, and exactly its bytes are taken |
| Framing.ReadFrameOrEnd | examples/taskstore/python/api.py:391-412 | a clean end, a cut frame, an oversized one, a failing receive and a payload are told apart |
| Framing.CutFrame | examples/taskstore/python/api.py:391-412 | a strict prefix of a frame is a clean end or a cut frame, never a payload |
| Framing.ReadAll | examples/taskstore/cpp/frame.hpp:60-82 | the C++ reader, called until it throws, gives the payloads written whole, in order, and takes exactly their bytes; a failing receive leaves the first of them |
| Framing.ReadAllOrEnd | examples/taskstore/python/api.py:391-412 | the Python reader does the same and tells what ended it |
| Framing.WriteAll | examples/taskstore/cpp/frame.hpp:42-58 | frame after frame until a send fails: so many whole frames, and of the next one a strict prefix |
| Framing.Conversation | examples/taskstore/cpp/frame.hpp:42-82 | for every pattern of short and failing sends and receives both readers get the payloads that went out whole, in order and none cut; without a failure all of them, and then a clean end |

## Left out

- Process launch, pipes, signals, builds, toolchain probing and the command line: only channel steps and a dead flag of them are here.
- YAML, JSON, XML and CSV libraries, regular expressions, `reflect` and `go-cmp` themselves: their documented results are taken as given.
- Tables, colours, JUnit and JSON output, JSON Schema generation: presentation.
- Loading and validating suites, manifests and known failures (internal/conf/conf.go): field-by-field checks with no property across functions.
- Cancelled runs: `Orchestration` and `Suites` cover runs in which the context is never cancelled; `Protocol` covers cancellation of calls.
- Serialize audits and their holder (lib/go/serify/run.go:83-104): one more call of the serializer and a comparison of two byte strings.
- Converters of the reflection binding: foreign functions in both directions; sums therefore have no model type.
- Recursive Go struct types: a type is a finite tree here. Field types *FieldMap and *Variant themselves are treated as unsupported.
- The difference between a nil and an empty slice or map, in the binding and in the audit values.
- The codecs of the C++, C#, PHP and Python worker libraries, and the C#, PHP, Python and C++ copies of the record codecs, and the message codecs of examples/taskstore: the same layouts and proofs as the Go ones.
- The runner's ping and start-up, and standard error capture: a ping is one more request of the same protocol.
- Partial writes: a failed write is taken to deliver no complete line.
- NaN payload bits under arithmetic, rounding and decimal conversion of floats.
- FieldMaps.DecodeFieldMap: a nested field map is a value in its parent, so sharing of a nested map between two parents is not captured; nothing in the codec shares one.
- FieldMaps.DecodeInto: what a failed decode leaves in the field map is not stated; the source drops the whole map.
- CaseEncoder.EncodeCase: which of several errors is reported depends on map order in the source, so an error is only an error here.
- WireRoundTrip.RoundTripExactly: asks for distinct field names at every level of a schema; with two fields of one name the later one wins on both sides and the comparison sees only one of them.
- ReflectRoundTrip.RoundTripExactly: asks that no two fields of a struct share a key; the direction from fitting to identity (`FieldsBack`) does not.
- ModelPath.ModelEchoes: asks for every struct of the wire value to have all its fields, since a missing one is extracted as its zero value; and treats an `optional` as a pointer, so a 128-bit optional is a `**big.Int` (a `*big.Int` refuses null).
- ModelBinding.Model.Fill: the slot at which filling failed may hold a partly filled nested struct; its content is not stated.
- ZeroCopy.DetectZeroCopy: field maps are nested without cycles, and no map key was written over before the probe; afterwards a map is read entry by entry (`KeysSwapped` is the case where that is finer than the set of entries).
- AuditRun.DeserializeAudit: the second call of the deserializer is its result, a field map or an error; that the call leaves the first result and the buffer alone is assumed of it.
- Orchestration.CaseVerdicts: worker answers are a function of worker, request id and bytes, so a worker that answers the same request differently in two schedules is outside the determinism results.
- OrderRecords.OrderRecord.UnmarshalBinary: fields already assigned when decoding fails are not stated, here and in the other records; the source's callers drop the record.
- CppJson.ParseUndoesWrite: a number is its token, and `strtod` is asked to take exactly an integer token in front of a delimiter; fractions and exponents are outside.
- CppParser.ParseDocument: reads beyond the end of a text that stops inside a word or an escape are modelled as reading the terminating NUL and then as end of input.
- Framing.ReadFrame: the C++ reader reports a clean end, a cut frame and an oversized one by the same exception, so it returns only whether there was a payload.
