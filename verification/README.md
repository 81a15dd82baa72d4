# OpenTelemetry Arrow: a verified model

A Dafny model of the stateful and encoding-heavy parts of OpenTelemetry Arrow
and its tooling, with proofs of what they are meant to guarantee. Everything is
checked by

    dafny verify dfyconfig.toml

Where the source changes state or loops, the model is a class or a method with
the same steps, proved against a function on values; the theorems are about
those functions. Where it computes, the model is a function. What a function
prints or encodes is pinned by something that does not mention it: a reader that
gives the printed thing back, a normal form, or a reference definition.

| files | what they model |
|---|---|
| `ArrowIpc`, `OtapProducer`, `OtapConsumer`, `Lockstep`, `LockstepFailures` | the OTAP stream protocol: a producer and a consumer that keep one Arrow IPC stream per payload type in step, over whole runs, and what failures do to it |
| `SchemaId` | schema identifiers, a reader for them, and that they identify schemas |
| `Pdata`, `Cbor`, `Utf8`, `Signature` | attribute values: equality, CBOR serialization, data-point signatures |
| `CanonicalJson`, `JsonReader` | canonical identifiers of JSON documents, and a reader for them |
| `RustLexer` | the scanner that finds line comments in Rust sources |
| `CrateOrder`, `PackageOrder`, `PublishPlan`, `Publication` | crate publication: dependency order, the demands on a workspace, preflight and forecast, publishing over interrupted and repeated runs |
| `Terminal`, `TerminalDisplay` | stripping terminal sequences as the inverse of rendering, and against what a terminal shows |
| `Percentiles`, `LoadGenerator` | benchmark summaries; paced load generation and its accounting |
| `Options`, `Ordering`, `Texts`, `Decimal` | shared: optional values, sorting, bytes and cutting texts apart, decimal numbers and 64-bit wrap-around |

The environment is a parameter. Failures of the IPC writer, of closing a writer
and of the size histogram are a `Fault` per record; allocator levels, registry
answers, checksums, request durations and sleeps are inputs or an oracle the
state machine asks. Arrow IPC itself is a concrete stateful codec (`ArrowIpc`):
a schema message, then record batches relative to dictionaries that grow by
deltas; its decoding law is proved, not assumed. Strings of attribute values are
bytes; schema and JSON names are character strings. Doubles in values are 64-bit
patterns; measurements, times and rates are real numbers.

Some promises do not hold of the code on every input. The model follows the
code, shows an input, and states the condition under which the promise holds:

- Schema identifiers collide when field names contain `:`
  (`SchemaId.ColonInNameCollides`) or begin with `}`
  (`SchemaId.BraceInNameCollides`); they are exact for distinct names that do
  neither.
- Canonical JSON identifiers collide when keys contain a quote
  (`CanonicalJson.QuoteInKeyCollides`); they are exact otherwise.
- A value equals itself exactly when it holds no NaN (`Pdata.EqualReflexive`),
  and survives CBOR exactly then (`Cbor.RoundTrip`).
- Equal values sign differently when a zero has another sign
  (`Signature.ZerosSignDifferently`), and exactly then
  (`Signature.EqualValuesSameSig`).
- A failed `Produce` can leave the two sides out of step, because the payloads of
  the records it had already written are dropped. The consumer then accepts the
  next call and delivers a record that was never written
  (`LockstepFailures.LostPayloadCorrupts`), or the failed call's record in place
  of the new one (`Lockstep.FailureShiftsStream`). The two sides stay level
  exactly when the call moved no stream (`LockstepFailures.FailedCallExactly`):
  when its records before the failing one used live streams and ended on the
  dictionaries those streams had, and the failing one left nothing behind
  (`LockstepFailures.FailedCallInRecords`). Over whole runs they stay level
  exactly when that is so of every failed call
  (`LockstepFailures.LevelExactlyWhenHarmless`), and then all that is sent arrives
  (`LockstepFailures.HarmlessRunDelivers`).
- A payload without a schema that starts a stream leaves it without a reader, and
  the next stream of its type panics (`OtapConsumer.OrphanPanics`), also when the
  first payload of every wire id has a schema, since a stream that was replaced
  can come back (`OtapConsumer.ReturningStreamPanics`). Over all histories of
  calls `OtapConsumer.HistoryPanics` says exactly when a call panics. No call
  does before one was rejected (`OtapConsumer.PanicNeedsRejection`).
- The comment scanner looks one byte, or ten characters of an escape, ahead for
  the end of a char literal. It takes a character of several bytes, or a Unicode
  escape with more than seven characters between the braces (digits may be set
  apart by underscores), for a lifetime and can miss a comment behind it
  (`RustLexer.MultiByteCharDesynchronizes`, `RustLexer.LongEscapeDesynchronizes`).
  It finds the end of every other literal (`RustLexer.CharLiteralFound`), and is
  right on all texts exactly for those (`RustLexer.ShortIsExact`).
- The comment scanner takes the `r` at the end of a lifetime, of a number or of a
  literal's suffix for the prefix of a raw string when a string follows directly:
  in `'r"\"//"` it reports the slashes inside the string
  (`RustLexer.LifetimeFakesComment`). It can do so behind every name that ends in
  `r` (`RustLexer.WordFakesComment`), and behind no other
  (`RustLexer.ApartIsExact`).

## Model

| member | source | states |
|---|---|---|
| ArrowIpc.MirrorDecodes | go/pkg/otel/arrow_record/consumer.go:328-353 | with dictionary deltas on both ends, a reader that has seen exactly what the writer wrote decodes the next record exactly and is again level with the writer |
| ArrowIpc.FirstDecodes | go/pkg/otel/arrow_record/producer.go:399-415 | the first payload of a new stream opens a reader that decodes its record and is level with the writer |
| ArrowIpc.NextStopsAtRecord | go/pkg/otel/arrow_record/consumer.go:341-353 | a reader asked for one record does not look at messages behind it |
| OtapProducer.WireIdsDistinct | go/pkg/otel/arrow_record/producer.go:388-392 | two wire ids are equal exactly when their counters agree modulo 2^64, so decimal printing never merges ids |
| Decimal.ParseFormatted | go/pkg/otel/arrow_record/producer.go:388-392 | a number printed in decimal reads back as itself |
| OtapProducer.ProduceKeeps | go/pkg/otel/arrow_record/producer.go:352-472 | every call, succeeding or failing anywhere, keeps one live stream per payload type, the stream balance, and distinct wire ids |
| OtapProducer.WireIdsNeverRepeat | go/pkg/otel/arrow_record/producer.go:366-394 | over any run, also when an old schema comes back, no wire id is issued twice exactly as long as at most 2^64 streams are created |
| OtapProducer.ReachableStates | go/pkg/otel/arrow_record/producer.go:352-472 | in every reachable state each payload type has at most one live stream, ids are distinct, and created minus closed is the number of live streams |
| OtapProducer.Producer.constructor | go/pkg/otel/arrow_record/producer.go:109-196 | a new producer has no streams, and wire and batch ids start at 0 |
| OtapProducer.Producer.RetireStreams | go/pkg/otel/arrow_record/producer.go:375-383 | closes, counts and forgets exactly the streams of the payload type; a close that fails leaves its stream in place, with anything in writer and buffer |
| OtapProducer.Producer.EnsureStream | go/pkg/otel/arrow_record/producer.go:366-394 | finds the stream of the schema id, or retires those of the payload type and creates one under the next wire id |
| OtapProducer.Producer.WriteOne | go/pkg/otel/arrow_record/producer.go:396-464 | the payload is everything in the buffer; the buffer is emptied only if nothing failed |
| OtapProducer.Producer.ProduceOne | go/pkg/otel/arrow_record/producer.go:365-465 | one turn of the loop, in every case of failure |
| OtapProducer.Producer.ProduceAll | go/pkg/otel/arrow_record/producer.go:359-469 | payloads in the order of the records; stops at the first failure with what was done so far |
| OtapProducer.Producer.Produce | go/pkg/otel/arrow_record/producer.go:352-472 | the whole call: the batch id advances on success only, and created minus closed over all snapshots is the number of live streams |
| OtapProducer.Producer.GetAndResetStats | go/pkg/otel/stats/stats.go:75-96 | hands the counters out and starts them from zero; nothing of the accounting is lost |
| OtapProducer.Producer.Close | go/pkg/otel/arrow_record/producer.go:328-344 | succeeds exactly if every writer closes; then all created streams are closed over all snapshots |
| OtapConsumer.DeliveredInOrder | go/pkg/otel/arrow_record/consumer.go:341-361 | on success one record per payload, in order, with its payload type and the batch id |
| OtapConsumer.ConsumeKeeps | go/pkg/otel/arrow_record/consumer.go:301-354 | whatever arrives, at most one reader stream per payload type |
| OtapConsumer.HistoryPanics | go/pkg/otel/arrow_record/consumer.go:301-361 | over every history of calls on a new consumer, one panics exactly when a payload starts a stream while the stream of its type, by the headers seen so far, never began with a schema |
| OtapConsumer.OrphanPanics | go/pkg/otel/arrow_record/consumer.go:312-338 | two payloads are enough: one without a schema is rejected, and the next stream of its type panics |
| OtapConsumer.ReturningStreamPanics | go/pkg/otel/arrow_record/consumer.go:301-338 | a call panics although the first payload of every wire id has a schema: a replaced stream comes back without one |
| OtapConsumer.PanicNeedsRejection | go/pkg/otel/arrow_record/consumer.go:301-361 | in every history a call is rejected, and all before it delivered, before one panics |
| OtapConsumer.SafelySentNeverPanics | go/pkg/otel/arrow_record/consumer.go:301-361 | no history panics, whatever becomes of its calls, in which no payload without a schema is followed by one of its type under another wire id |
| OtapConsumer.CounterTelescopes | go/pkg/otel/arrow_record/consumer.go:183-200 | for any allocator levels below 2^63 the wrapped differences add up to the last level |
| OtapConsumer.Consumer.constructor | go/pkg/otel/arrow_record/consumer.go:127-155 | a new consumer has no streams and no records |
| OtapConsumer.Consumer.ReleaseReaders | go/pkg/otel/arrow_record/consumer.go:312-317 | drops and releases exactly the streams of the payload type, or stops with nothing changed at one without a reader |
| OtapConsumer.Consumer.ConsumeOne | go/pkg/otel/arrow_record/consumer.go:301-354 | one payload: the stream it belongs to, a reader from its first bytes, and one retained record; every reader created is in use or released |
| OtapConsumer.Consumer.ReleaseRecords | go/pkg/otel/arrow_record/consumer.go:158-162 | gives back exactly the records it is given |
| OtapConsumer.Consumer.ConsumeAll | go/pkg/otel/arrow_record/consumer.go:301-354 | the loop retains exactly the records collected so far and stops at the first failure |
| OtapConsumer.Consumer.Consume | go/pkg/otel/arrow_record/consumer.go:289-361 | either exactly one retained record per payload is returned, or an error and nothing is retained; a panic leaves exactly the records retained before it |
| OtapConsumer.Consumer.InuseChangeObserve | go/pkg/otel/arrow_record/consumer.go:183-200 | moves the counter by the unsigned difference read as int64, if the level changed, and keeps it at the level last observed |
| OtapConsumer.Consumer.Close | go/pkg/otel/arrow_record/consumer.go:374-404 | releases every reader that is open and brings the memory counter of a consumer to zero |
| Lockstep.StepTogether | go/pkg/otel/arrow_record/producer.go:365-465 | one record written and consumed: decoded as written, both sides level again, for a known stream and for a new one |
| Lockstep.BatchTogether | go/pkg/otel/arrow_record/consumer.go:289-361 | a successful call's batch is accepted, delivers the very records under the producer's batch id, and keeps lockstep |
| Lockstep.RunKeepsLockstep | go/pkg/otel/arrow_record/producer.go:352-472 | over every run of successful calls the consumer holds the producer's streams one to one by wire id, with the same payload type and history |
| Lockstep.RunDelivers | go/pkg/otel/arrow_record/consumer.go:289-361 | over every run of successful calls each call's records arrive exactly, under consecutive batch ids, also when payload types share a schema id |
| Lockstep.Transmission | go/pkg/otel/arrow_record/producer.go:352-472 | the same from a new producer and a new consumer |
| Lockstep.FailureShiftsStream | go/pkg/otel/arrow_record/producer.go:415-451 | a call that fails after writing leaves its bytes in the buffer, and the consumer then delivers that record in place of the next |
| LockstepFailures.FailedCallExactly | go/pkg/otel/arrow_record/producer.go:352-472 | after any failed call from lockstep, the consumer is level with the producer exactly when the call left every stream as it was |
| LockstepFailures.FailedCallInRecords | go/pkg/otel/arrow_record/producer.go:359-469 | that is so exactly when the records before the failing one used live streams and their last dictionaries were those the streams had, and the failing record created no stream and left the writer and buffer it used, or failed to close, alone |
| LockstepFailures.LevelExactlyWhenHarmless | go/pkg/otel/arrow_record/producer.go:352-472 | over any run of calls, succeeding or failing, the two sides are level before and after every call exactly when no failed call moved a stream |
| LockstepFailures.HarmlessRunDelivers | go/pkg/otel/arrow_record/consumer.go:285-361 | over every such run the records of each successful call arrive as sent, under consecutive batch ids, and the consumer ends holding the producer's streams |
| LockstepFailures.LostDelta | go/pkg/otel/arrow_record/consumer.go:330-353 | when a record that made a dictionary grow is lost, the reader appends the next piece to the old dictionary and returns another record than was written |
| LockstepFailures.LostPayloadCorrupts | go/pkg/otel/arrow_record/producer.go:365-469 | a call that fails at a later record drops the payloads of the earlier ones; the consumer then accepts the next call and delivers a record that was never written |
| SchemaId.PrintReads | go/pkg/arrow/schema.go:88-182 | a reader that goes by tags, brackets and commas alone gives the type back from its signature, and stops right behind it, whatever follows: dictionary index before value, map key before item, every field under its name |
| SchemaId.PrintSplit | go/pkg/arrow/schema.go:88-182 | equal texts with any continuation come from equal types and continuations |
| SchemaId.CanonIsSame | go/pkg/arrow/schema.go:54-80 | the form that is printed is the type itself up to field order and unprinted attributes, with its fields sorted by name at every level |
| SchemaId.IdReadsBack | go/pkg/arrow/schema.go:54-182 | the id of a schema reads back as that schema up to field order, with the fields sorted by name |
| SchemaId.DictionaryExample | go/pkg/otel/arrow_record/metrics_dict_test.go:231 | a dictionary of strings indexed by bytes prints as `Dic<U8,Str>` |
| SchemaId.CanonDecidesSame | go/pkg/arrow/schema.go:88-182 | sorting the fields at every level decides equality up to field order |
| SchemaId.IdIdentifiesSchema | go/pkg/arrow/schema.go:54-182 | two schemas have the same id exactly when they are equal up to field order at every level, ignoring the attributes the id does not print |
| SchemaId.ColonInNameCollides | go/pkg/arrow/schema.go:83-86 | one field with `:` in its name gets the id of two fields |
| SchemaId.BraceInNameCollides | go/pkg/arrow/schema.go:121-131 | without any `:`, a name that begins with `}` closes the struct it is in, and one struct field gets the id of two |
| SchemaId.FieldsToId | go/pkg/arrow/schema.go:54-80 | sorts the fields by name and joins them, for a schema, a struct and the unions |
| SchemaId.FieldToId | go/pkg/arrow/schema.go:83-86 | name, colon and type signature of one field |
| SchemaId.DataTypeToId | go/pkg/arrow/schema.go:88-182 | the signature of a type, defined exactly if every type inside has a case in the switch; it reads back as that type |
| SchemaId.SchemaToId | go/pkg/arrow/schema.go:54-67 | computes the id that `IdIdentifiesSchema` is about; it reads back as the schema |
| Pdata.EqualExactly | go/pkg/otel/pdata/value.go:13-79 | values with distinct map keys are equal exactly when they hold no NaN and have the same normal form: same kind, zeros without sign, maps sorted by key |
| Pdata.DoubleFields | go/pkg/otel/pdata/value.go:29-30 | what counts as a NaN and as a zero, in the fields of IEEE 754 |
| Pdata.EqualReflexive | go/pkg/otel/pdata/value.go:13-79 | a value equals itself exactly when it holds no NaN |
| Pdata.EqualSymmetric | go/pkg/otel/pdata/value.go:13-79 | equality is symmetric when map keys are distinct |
| Pdata.EqualTransitive | go/pkg/otel/pdata/value.go:13-79 | equality is transitive |
| Pdata.CompareValues | go/pkg/otel/pdata/value.go:13-79 | the loops decide that equality, and with it sameness of the normal forms |
| Signature.EqualValuesSameSig | go/pkg/otel/metrics/data_point.go:54-118 | equal values have signatures of the same length, and byte-identical ones exactly when their zeros have the same signs |
| Signature.ZerosSignDifferently | go/pkg/otel/metrics/data_point.go:100-103 | the two zeros are equal but sign differently |
| Signature.SigForgetsBoundaries | go/pkg/otel/metrics/data_point.go:82-118 | equal signatures do not mean equal values |
| Signature.LeafSigs | go/pkg/otel/metrics/data_point.go:92-111 | the bytes of an integer or a double read back, little-endian, as its value or its bits; strings and byte strings are themselves, booleans one byte, empty values nothing |
| Signature.SliceSigGrows | go/pkg/otel/metrics/data_point.go:82-90 | an item at the end appends its signature |
| Signature.MapSigGrows | go/pkg/otel/metrics/data_point.go:54-80 | an entry with the greatest key appends key and signature, or nothing if it is the multivariate key; inside a value no key but the empty one is skipped |
| Signature.PointReads | go/pkg/otel/metrics/data_point.go:45-52 | the first eight bytes read back as the start time, the next eight as the time, and the rest is the attributes' signature |
| Signature.SamePointSig | go/pkg/otel/metrics/data_point.go:45-52 | equal signatures come from equal times and equally signed attributes |
| Signature.EqualPointsSameSig | go/pkg/otel/metrics/data_point.go:45-80 | points with the same times and equal attributes, in any order, have the same signature exactly when the written attributes' zeros have the same signs |
| Signature.CollectEntries | go/pkg/otel/metrics/data_point.go:54-69 | all entries but the multivariate key, sorted by key |
| Signature.AppendMapSig | go/pkg/otel/metrics/data_point.go:54-80 | appends keys and value signatures in key order |
| Signature.AppendSliceSig | go/pkg/otel/metrics/data_point.go:82-90 | appends the items' signatures in order |
| Signature.AppendValueSig | go/pkg/otel/metrics/data_point.go:92-118 | always appends the signature of the value alone, whatever the buffer holds |
| Signature.DataPointSig | go/pkg/otel/metrics/data_point.go:45-52 | the signature the lemmas are about; both times read back from it |
| Cbor.ParseEncoded | go/pkg/otel/common/cbor.go:46-58 | parsing an encoded value before any suffix consumes exactly its bytes and gives its tree, and fails exactly when text or the decoder's limits forbid it |
| Cbor.DecodedEqual | go/pkg/otel/common/cbor.go:118-164 | any value that copying the tree may leave, in any map order, equals the original with empty byte strings replaced by Empty |
| Utf8.ValidExactly | go/pkg/otel/common/cbor.go:46-58 | text is accepted exactly when it is the UTF-8 form of some Unicode scalar values |
| Cbor.LimitsExactly | go/pkg/otel/common/cbor.go:46-58 | a container is accepted exactly less than 32 levels deep, with at most 131072 elements, each accepted, and keys that are text |
| Cbor.NumberExamples | go/pkg/otel/common/cbor.go:64-65 | integers encode as in appendix A of RFC 8949 |
| Cbor.DoubleExamples | go/pkg/otel/common/cbor.go:66-67 | the same for doubles |
| Cbor.SimpleExamples | go/pkg/otel/common/cbor.go:60-116 | the same for booleans, null, strings and byte strings |
| Cbor.NestedExamples | go/pkg/otel/common/cbor.go:70-105 | the same for arrays and maps of indefinite length |
| Cbor.RoundTrip | go/pkg/otel/common/cbor.go:60-164 | with any suffix, over all of int64: accepted exactly within the limits, stops right behind the value, and returns an equal value exactly when there is no NaN |
| Cbor.Encoder.EncodeValue | go/pkg/otel/common/cbor.go:60-116 | appends exactly the value's encoding |
| Cbor.Encoder.EncodeMap | go/pkg/otel/common/cbor.go:70-87 | an indefinite-length map of the entries in order |
| Cbor.Encoder.EncodeSlice | go/pkg/otel/common/cbor.go:88-105 | an indefinite-length array of the items in order |
| Cbor.Serialize | go/pkg/otel/common/cbor.go:30-43 | the encoding of the value alone |
| Cbor.Decode | go/pkg/otel/common/cbor.go:118-164 | copies a tree, failing exactly on numbers out of int64 range and map keys that are not text |
| Cbor.DecodeItems | go/pkg/otel/common/cbor.go:147-154 | the items in order |
| Cbor.DecodePairs | go/pkg/otel/common/cbor.go:135-146 | the entries in whatever order the Go map yields them |
| Cbor.Deserialize | go/pkg/otel/common/cbor.go:46-58 | succeeds exactly if the first item parses and converts |
| Cbor.SerializeAndBack | go/pkg/otel/common/cbor.go:30-58 | the two calls in a row succeed exactly within the limits and return an equal value exactly when there is no NaN |
| CanonicalJson.IdsApart | go/pkg/otel/assert/equiv.go:536-627 | identifiers can be read back from any context |
| CanonicalJson.StringReads | go/pkg/otel/assert/equiv.go:536-560 | a quoted string read by the escapes of Go gives the string back |
| JsonReader.IdReadsBack | go/pkg/otel/assert/equiv.go:536-605 | a reader of JSON gives back from the id of a document whose keys hold no quote, whatever document may go on behind it, a document equal to the one printed up to key order and array order |
| CanonicalJson.IdIdentifies | go/pkg/otel/assert/equiv.go:536-605 | two documents whose keys hold no quote have the same id exactly when they are equal up to key order and array order at every depth |
| CanonicalJson.QuoteInKeyCollides | go/pkg/otel/assert/equiv.go:564-583 | a key with quotes gets the id of two members |
| CanonicalJson.CollectKeys | go/pkg/otel/assert/equiv.go:565-569 | the keys sorted, whatever order ranging over the map gives |
| CanonicalJson.CanonicalObjectId | go/pkg/otel/assert/equiv.go:536-560 | computes the id that `IdIdentifies` is about |
| CanonicalJson.CanonicalMapId | go/pkg/otel/assert/equiv.go:564-583 | the same for an object |
| CanonicalJson.CanonicalSliceId | go/pkg/otel/assert/equiv.go:586-605 | the same for an array |
| CanonicalJson.CanonicalSliceMapId | go/pkg/otel/assert/equiv.go:608-627 | a slice of maps has the id of the array of those objects |
| RustLexer.ScanToken | tools/sanitycheck.py:179-249 | scanning any token the scanner reads, in any context, ends right behind it and notes a comment exactly for a line comment |
| RustLexer.ScanFindsComments | tools/sanitycheck.py:159-250 | on every Rust text whose char literals are short, and in which no word, suffix or lifetime that ends in `r` stands directly before a string, the scanner reports exactly the line and column of each line comment and nothing else |
| RustLexer.CharLiteralFound | tools/sanitycheck.py:133-156 | the scanner finds the end of a char literal of Rust exactly when it is one byte or an escape with at most seven characters in braces, and takes any other for a lifetime |
| RustLexer.LongCharHidesComment | tools/sanitycheck.py:133-156 | for every char literal that is too long there is a Rust text in which the comment behind it is missed |
| RustLexer.ShortIsExact | tools/sanitycheck.py:133-250 | the scanner is right on all Rust texts in which a char literal may occur beside short ones, and no word that ends in `r` before a string, exactly when it is short |
| RustLexer.LongEscapeDesynchronizes | tools/sanitycheck.py:144-150 | the largest code point written with underscores makes the scanner miss a comment |
| RustLexer.MultiByteCharDesynchronizes | tools/sanitycheck.py:133-170 | a char literal of two bytes makes the scanner miss a comment |
| RustLexer.WordFakesComment | tools/sanitycheck.py:201-215 | for every word, suffix or lifetime that ends in `r` and may stand before a string there is a Rust text without comments in which the scanner reports one |
| RustLexer.ApartIsExact | tools/sanitycheck.py:201-215 | the scanner is right on all Rust texts in which a word, suffix or lifetime may stand before a string beside harmless ones, exactly when it does not end in `r` or is itself a raw string's prefix |
| RustLexer.LifetimeFakesComment | tools/sanitycheck.py:201-215 | in the lifetime `'r` and a string behind it the scanner reports the slashes inside the string |
| RustLexer.ScanCharLiteral | tools/sanitycheck.py:133-156 | finds the end of every char literal at a position that is short, and of no other |
| RustLexer.PrefixTurn | tools/sanitycheck.py:201-219 | plain, byte, C and raw string openings with their hashes |
| RustLexer.LineCommentStarts | tools/sanitycheck.py:159-250 | the loop ends on every text, and on Rust with short char literals, and no word that ends in `r` before a string, yields exactly the line comments |
| CrateOrder.VisitSound | rust/otap-dataflow/xtask/src/crates_publish.rs:188-221 | a finished visit extends the order soundly and finishes nothing still being visited |
| CrateOrder.VisitFindsCycle | rust/otap-dataflow/xtask/src/crates_publish.rs:198-200 | a failed visit exhibits a cycle of the graph |
| CrateOrder.OrderCorrect | rust/otap-dataflow/xtask/src/crates_publish.rs:187-237 | the walk succeeds exactly when the graph is acyclic, and then lists every package once, after all its dependencies |
| PackageOrder.OrderExactly | rust/otap-dataflow/xtask/src/crates_publish.rs:187-237 | which of any two packages comes first: a dependency before its dependent, and of two that do not depend on each other the one the walk in order of names reaches first |
| CrateOrder.GraphIgnoresListing | rust/otap-dataflow/xtask/src/crates_publish.rs:202-228 | the outcome does not depend on the order or repetition of packages' dependencies nor on the order of packages |
| CrateOrder.Dedup | rust/otap-dataflow/xtask/src/crates_publish.rs:212 | on a sorted list leaves each name once |
| CrateOrder.Walk.Dependencies | rust/otap-dataflow/xtask/src/crates_publish.rs:205-212 | the dependencies among the given packages, sorted, each once |
| CrateOrder.Walk.Visit | rust/otap-dataflow/xtask/src/crates_publish.rs:188-221 | the recursive walk over shared sets and the growing order |
| CrateOrder.PublishOrder | rust/otap-dataflow/xtask/src/crates_publish.rs:187-237 | success exactly for an acyclic graph; then a duplicate-free topological order of exactly the given packages |
| PublishPlan.SelectPublishable | rust/otap-dataflow/xtask/src/crates_publish.rs:243-251 | exactly the packages of the workspace that may go to some registry, in order |
| PublishPlan.MatchesPolicy | rust/otap-dataflow/xtask/src/crates_publish.rs:253-262 | comparing sorted names decides whether the publishable packages are those of the policy |
| PublishPlan.CheckDependencies | rust/otap-dataflow/xtask/src/crates_publish.rs:283-309 | holds exactly if each published dependency is required at a version that includes the one in the workspace, and every other comes from a registry or serves development only |
| PublishPlan.AcceptableExactly | rust/otap-dataflow/xtask/src/crates_publish.rs:239-326 | a workspace is acceptable exactly when its published packages are those of the policy, have no cycle, and every dependency is on another package, at a version that includes the published one's, or comes from a registry or serves development only |
| PublishPlan.BuildPlan | rust/otap-dataflow/xtask/src/crates_publish.rs:239-326 | a plan is built exactly for a workspace with the packages of the policy, no self-dependency, resolving dependencies and no cycle; it lists every published package after all it depends on |
| Publication.ForecastRow | rust/otap-dataflow/xtask/src/crates_publish.rs:117-145 | each of the five actions is foretold exactly in its case |
| Publication.InterruptedRunIsSafe | rust/otap-dataflow/xtask/src/crates_publish.rs:453-490 | cutting a run short at any point leaves a safe run |
| Publication.DependenciesInRegistry | rust/otap-dataflow/xtask/src/crates_publish.rs:453-490 | whenever a package was published, each of its published dependencies was in the registry by then: at the release version with the checksum of the locally built package, or seen and not yanked at its own |
| Publication.NeverPublishedAgain | rust/otap-dataflow/xtask/src/crates_publish.rs:465-481 | what one run saw or verified is not published again by a later one, interrupted or not |
| Publication.Session.PreflightPackage | rust/otap-dataflow/xtask/src/crates_publish.rs:354-386 | passes exactly a version that is there and not yanked, with a matching checksum at the release version, or a missing release version that packages |
| Publication.Session.PreflightOne | rust/otap-dataflow/xtask/src/crates_publish.rs:396-442 | one package passes exactly when the registry at that moment lets it: its row describes that state, and is blocked exactly if it fails |
| Publication.Session.Preflight | rust/otap-dataflow/xtask/src/crates_publish.rs:388-451 | stops at the first package that does not pass, every one before it having passed, also at the release version; success is every package passing, one row each, none blocked; failure leaves rows up to that package, only the last blocked; it passes when nothing goes wrong |
| Publication.Session.WaitUntilReady | rust/otap-dataflow/xtask/src/crates_publish.rs:636-676 | succeeds only after seeing the version with the checksum of the local package, not yanked and in the index, and does succeed when that is so within ten minutes |
| Publication.Session.PublishOne | rust/otap-dataflow/xtask/src/crates_publish.rs:456-488 | publishes only a missing version that packages and whose dependencies are available, or confirms the one there by the local checksum |
| Publication.Session.Publish | rust/otap-dataflow/xtask/src/crates_publish.rs:453-490 | however it ends, nothing is published before every package has passed and every version fits; all published was missing at the start and had its dependencies available before; it succeeds when nothing goes wrong and published versions show up within ten minutes, and a rerun on what is already there publishes nothing |
| Publication.Session.EnsurePlanVersion | rust/otap-dataflow/xtask/src/crates_publish.rs:328-340 | holds exactly if every package has the release version or is listed as independent |
| Publication.Release | rust/otap-dataflow/xtask/src/crates_publish.rs:453-490 | planning and publishing together leave a safe run in every case, and succeed only for an acceptable workspace |
| Terminal.StripHasNoEscape | rust/otap-dataflow/xtask/src/diagnostics.rs:623-657 | the output holds no escape character |
| Terminal.StripKeepsPlain | rust/otap-dataflow/xtask/src/diagnostics.rs:623-657 | text without escapes is left alone |
| Terminal.StripIdempotent | rust/otap-dataflow/xtask/src/diagnostics.rs:623-657 | stripping twice is stripping once |
| Terminal.StripAppend | rust/otap-dataflow/xtask/src/diagnostics.rs:623-657 | behind text whose sequences are all complete, stripping goes piece by piece |
| Terminal.StripPaint | rust/otap-dataflow/xtask/src/diagnostics.rs:907-913 | stripping painted text gives the text back |
| Terminal.StripLink | rust/otap-dataflow/xtask/src/diagnostics.rs:860-869 | stripping a hyperlink gives its visible text |
| Terminal.UriNamesPath | rust/otap-dataflow/xtask/src/diagnostics.rs:915-927 | percent-encoding can be undone, and no byte of it can end the escape sequence around it |
| Terminal.StripRenderedPath | rust/otap-dataflow/xtask/src/diagnostics.rs:860-869 | stripping a rendered report path gives the displayed path, with links and colours on or off |
| Terminal.StripRendered | rust/otap-dataflow/xtask/src/diagnostics.rs:860-913 | stripping any line of painted, linked and plain pieces gives its visible text |
| TerminalDisplay.StripShows | rust/otap-dataflow/xtask/src/diagnostics.rs:623-657 | on every text, stripping leaves exactly the characters a terminal displays |
| TerminalDisplay.RenderShows | rust/otap-dataflow/xtask/src/diagnostics.rs:860-913 | a terminal displays a rendered line as its pieces' characters, each in its style and under its link, or plain with colours or links off |
| Terminal.UriPartExactly | rust/otap-dataflow/xtask/src/diagnostics.rs:915-927 | exactly letters, digits and `-_.~/:` are not percent-encoded |
| Terminal.StripTerminalSequences | rust/otap-dataflow/xtask/src/diagnostics.rs:623-657 | the loop computes the stripping the lemmas are about |
| Terminal.TimingReportUri | rust/otap-dataflow/xtask/src/diagnostics.rs:915-927 | the loop builds the file URI of the path |
| Percentiles.PercentileMonotone | go/pkg/benchmark/stats/stats.go:112-139 | on sorted values, from 0 to 100, a percentile is defined, grows with the percentage and lies between the least and the greatest value |
| Percentiles.PercentileOfPosition | go/pkg/benchmark/stats/stats.go:130-138 | the percentage that stands for a position yields exactly the value there |
| Percentiles.PercentileInterpolates | go/pkg/benchmark/stats/stats.go:130-138 | a percentage between two positions yields the point of the line between their values, in proportion |
| Percentiles.VarianceExactly | go/pkg/benchmark/stats/stats.go:94-106 | the variance times one less than the number of values is the sum of the squared differences |
| Percentiles.VarianceVanishes | go/pkg/benchmark/stats/stats.go:94-106 | the variance is never negative, and zero exactly for fewer than two values or values that all equal the mean |
| Percentiles.SummaryIgnoresOrder | go/pkg/benchmark/stats/stats.go:62-92 | a summary does not depend on the order in which values were recorded |
| Percentiles.PercentileAdds | go/pkg/benchmark/stats/stats.go:112-139 | every percentile is additive over position-wise sums |
| Percentiles.SummariesAdd | go/pkg/benchmark/stats/stats.go:162-183 | adding summaries makes least value, greatest value, mean and every percentile the sum of the parts', and yields a summary that can be added again |
| Percentiles.Metric.Record | go/pkg/benchmark/stats/stats.go:58-60 | appends the value |
| Percentiles.Metric.PercentileOf | go/pkg/benchmark/stats/stats.go:112-139 | `None`, where the code panics, exactly for two values or more and a percentage out of range; else the percentile that `PercentileInterpolates` gives, on sorted values between the least and the greatest |
| Percentiles.Metric.Var | go/pkg/benchmark/stats/stats.go:94-106 | the sum of squared differences over one less than the number of values |
| Percentiles.Metric.ComputeSummary | go/pkg/benchmark/stats/stats.go:62-92 | sorts the values in place and summarizes them, with the standard deviation and the percentiles at 50, 90, 95 and 99; zeros for no values |
| Percentiles.AddSummaries | go/pkg/benchmark/stats/stats.go:162-183 | nothing for no summaries, a panic exactly for different lengths, else the summary of the position-wise sums |
| LoadGenerator.StepConserves | tools/pipeline_perf_test/load_generator/loadgen.py:326-343 | every step of any thread, also between the resets of a flush, keeps published plus unflushed equal to recorded |
| LoadGenerator.InterleavingsConserve | tools/pipeline_perf_test/load_generator/loadgen.py:457-486 | the same under every interleaving of the threads |
| LoadGenerator.PublishedInTheEnd | tools/pipeline_perf_test/load_generator/loadgen.py:481-486 | a counter that no thread still holds back is complete in the shared metrics |
| LoadGenerator.FlushSteps | tools/pipeline_perf_test/load_generator/loadgen.py:326-343 | the state machine's flush steps, taken in a row, do what `Flush` does |
| LoadGenerator.Metrics.UpdateMetrics | tools/pipeline_perf_test/load_generator/loadgen.py:397-402 | adds the updates to the totals |
| LoadGenerator.BatchMetricsAccumulator.Flush | tools/pipeline_perf_test/load_generator/loadgen.py:326-343 | moves everything into the totals, bytes only along with messages, and clears the accumulator |
| LoadGenerator.WorkerThread | tools/pipeline_perf_test/load_generator/loadgen.py:455-486 | when each batch starts, that starts keep the pace, and that the totals grow by exactly what the turns record, late batches included |
| LoadGenerator.StartPaced | tools/pipeline_perf_test/load_generator/loadgen.py:457-479 | whatever requests and sleeps take, batch k starts no earlier than k - 1 intervals after the thread's beginning |
| LoadGenerator.ThreadPace | tools/pipeline_perf_test/load_generator/loadgen.py:457-479 | a paced thread is never more than two batches ahead of its rate |
| LoadGenerator.LateExactly | tools/pipeline_perf_test/load_generator/loadgen.py:469-479 | a batch counts as late exactly when its request ends after the time the next batch is due |
| LoadGenerator.KeepsUp | tools/pipeline_perf_test/load_generator/loadgen.py:457-479 | when no request takes longer than an interval and no sleep overruns, every batch starts by the time it is due and none is late |
| LoadGenerator.TallyCounts | tools/pipeline_perf_test/load_generator/loadgen.py:459-479 | what a thread records is its batch size times the requests that went through or failed, the bytes of those sent, and the number of late batches |
| LoadGenerator.TargetRateKept | tools/pipeline_perf_test/load_generator/loadgen.py:424-428 | over all possible runs of N threads that share a target rate: at most target rate times elapsed time plus 2 N batches of messages are started by any time |

## Left out

- Arrow IPC bytes, compression, protobuf and gRPC: the codec is modelled at the level of its messages.
- The record builders, adaptive dictionaries, `RelatedDataFrom` and the bounded retry in `recordBuilder`.
- OtapProducer.Producer.Produce: creation and closing counters are unbounded, not 64 bits wide; a producer is not used after it is closed, as its documentation asks.
- OtapProducer.Producer.Close: the record builders it also releases are not modelled.
- Lockstep.Transmission: for up to 2^64 created streams, after which wire ids repeat.
- SchemaId.IdIdentifiesSchema: for the names stated above; what the id does not print (nullability, units, time zones, metadata) is ignored.
- Cbor.RoundTrip: the decoder's definite-length arrays and maps, indefinite-length strings, tags, single-precision and most half-precision floats are refused by the model, since the encoder never writes them; map keys are distinct and lengths fit 63 bits.
- CanonicalJson.IdIdentifies: numbers are the decimal text the code prints for them, and which characters count as printable is a parameter.
- `Equiv` and the MD5-based signatures beside the canonical ids.
- RustLexer.ScanFindsComments: for the char literals and the words before strings said above, which is exact for each; the string prefixes are those of the 2021 edition and later, and a shebang line, which Rust strips before it reads tokens, is read as code; the caller `scan_nonascii` and its exemptions are left out.
- PublishPlan.BuildPlan: whether a version requirement includes a version, and the list of packages in the policy, are parameters; that a package has published dependencies is not recorded in the plan.
- Publication.Session.Publish: files, cargo, curl and the token are answers of the environment; the registry never loses a version, and writing the forecast succeeds.
- Terminal.TimingReportUri: a path that is not valid text gets no link; that case is a rendering without links.
- Percentiles.Metric.ComputeSummary: values are finite, the square root is a parameter, and that a summary shares its values with the metric is not modelled.
- Percentiles.AddSummaries: the sums stay within what a float64 can hold; rounding is not modelled.
- LoadGenerator.WorkerThread: the syslog workers, the network and the text of messages.
- The accessors in `go/pkg/arrow`, benchmark tables and exports, data generators, the comparison dashboard, and `component_inventory.rs`: each is settled by one branch, or is input and output.
