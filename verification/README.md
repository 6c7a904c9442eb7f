# Verification of the gateway's stateful core

This project models the parts of the gRPC-GraphQL gateway that carry state or transform data, and
proves what they promise, for every input, run or interleaving. `dafny verify dfyconfig.toml` checks
all of it.

**GBP codec** (`src/gbp.rs`). `GbpEncoding` and `GbpDecoding` say which bytes are written and how
they are read; `GbpEncoderClass` and `GbpDecoderClass` are the two objects with their pools,
counters, run state, buffer and cursor, proved against them method by method. `GbpMeaning` is a
reference on values alone: what a value becomes when repeated composites are replaced by what was
last registered under their key. `GbpSimulation` proves that decoding what was encoded gives the
meaning. `GbpRoundTrip` says exactly when the meaning is the value; `GbpTellsApart` gives a
condition on the composites of the value and shows what happens without it; `GbpKeys` says what the
dedup key depends on and proves that lists of flat records come back; `GbpWire` has the bytes in
figures; `GbpSize` shows that values of ordinary size fit all 32-bit lengths and counters;
`GbpTransfer` sends values through the two objects. `Varint` has the number formats; the unsigned
one is LEB128, section 7.6 of DWARF 4. `Utf8` says which byte strings are text: table 3-7 of the
Unicode Standard, section 3.9.

**Query normaliser** (`src/query_whitelist.rs`), **certificate rotation** (`src/mtls.rs`), **cost
budgets** (`src/query_cost_analyzer.rs`), **live query store and diff** (`src/live_query.rs`),
**deferred delivery** (`src/defer.rs`), **response cache** (`src/cache.rs`), **entity loader**
(`src/dataloader.rs`) and **circuit breaker** (`src/circuit_breaker.rs`) are one module each
(`LiveQueries`, `FieldDiff` and `PathTexts` for live queries; `ResponseCache`, `CacheKeys` and, for
its runs beside a reference without indices, `CacheRuns` and `MutationNames`; `BlockStrings` and
`QueryCharacters` beside the normaliser; `RotationCalls` beside the rotation; `DeferredStream`
beside the delivery), over `JsonTree`, `InvertedIndex`, `Sets` and `Wrappers`. Time is a number
passed in; hashes and number printing are parameters.

## Where the code does less than it promises

- GBP, back-references: a key is a shallow hash, in which nested values count only by kind and
  length and null and false are the same. Two different composites with one key side by side never
  survive a round trip (`CollidingSiblings`), whatever the hash function; with an ideal one, two
  composites have one key exactly when they look alike from outside (`OneKeyIff`), which arrays do
  that differ in the middle (`MiddleNotSeen`). A hasher that writes a signed number as the unsigned
  one with its bits, as Rust's do by default, also confuses 0 with 0.0 (`ZeroAndZeroPointZero`). The
  exact condition is `RoundTripIff`. A reference means the latest composite registered under its
  key, which need not be the first: a composite nested in another may register the same key before
  the outer one does.
- GBP, empty arrays: the encoder numbers them, the decoder does not (`EmptyArraysFail`).
- GBP, numbers: integers above the i64 range come back as doubles (`BigIntegerChanges`); a column
  run that mixes 0.0 and -0.0 comes back as the first of them (`MixedZerosChange`; `ZeroColumnIff`
  is exact for columns of zeros).
- GBP, order of members: a comment (`src/gbp.rs:316`) takes objects to keep the order of insertion,
  but `serde_json` is built without `preserve_order` (`Cargo.lock:3722-3732`) and sorts them by key.
  Here an object keeps its keys in the order given, and the theorems hold for every order, the
  sorted one included. A decoder fed a shape with unsorted keys returns them sorted, where the model
  keeps the order of the shape.
- Normaliser: equal tokens need not give equal normal forms, since a blank next to a string is kept
  or not as it was written (`BlankBesideStringMatters`; `NormalFormsEqualIff` is exact). Block
  strings (section 2.9.4 of the GraphQL June 2018 specification) are not recognised: a quote in one
  ends a string and a hash then starts a comment, so that different queries can have one normal form
  (`BlockStringsCollide`). `BlockStringsIff` says exactly which queries are read as GraphQL reads
  them; the tokens elsewhere follow the code.
- Rotation: a call cancelled between signing and storing loses its certificate, and the next call
  signs another at once (`CancelledCallRepeats`). `IssuanceSpacing` gives the distance for all
  signed certificates but after the lost ones, `LostIff` says when one is lost, `CloserIff` for
  which lifetimes two can come closer, and `LossContinuesIff` which losses can still be followed by
  a closer signature. With a lifetime under two seconds half of it is 0 and nothing is bounded.
- Budgets: a 64-bit sum that wraps lets cost through (`OverspendsIffWraps`), and a window can then
  accept any number of budgets (`WrappingBreaksBound`; `IntervalBoundIff` is exact).
- Live queries: registering an id in use leaves stale index entries (`EnterInStepIff` is exact),
  after which an event may be counted for too many subscriptions but never for too few, and both
  limits still hold (`NoneMissed`); events with a dot in type or action are miscounted
  (`PatternsMatchIff`, `DottedEventMiscounts`); a per-connection limit of 0 still admits one
  (`OneTooMany`; `ConnectionLimitIff` is exact).
- Live query diffs: a name with a dot or bracket can give two changes one text
  (`DottedNameCollides`). One such name among plain ones does so exactly when it is empty or reads
  as a path itself (`TextsDistinctIff`; `SpelledIff` reads it off the name). That is about one name:
  two of them, each harmless alone, can collide (`TwoOddNamesCollide`).
- Deferred delivery: a client that merges patches in the order sent loses a field deferred inside an
  object that a later fragment defers (`NestedFieldIsLost`; `ForwardRestoresIff` is exact on data
  and fragments). Last to first nothing is lost. After a timeout the remaining patches are never
  sent.
- Cache: writing a key again leaves its old index entries, so an invalidation may remove more than
  carries the name (`StaleFilingRemovesMore`), never less. `InvalidationPreciseIff` says when it
  does, `PutExactIff` which writes lead there, and `StepRefines` what is removed in every case. A
  capacity of 0 still stores one entry (`RunBounded`).
- Cache keys: each part of a key is told apart on its own (`QueriesApart`, `PartsApart`), but
  nothing separates the parts (`PartsRunTogether`).
- Circuit breaker: the half-open counter is 32 bits wide and starts again after 2^32 calls
  (`EpisodeAdmissions` is exact). A failure threshold of 0 acts as 1. A half-open circuit whose
  calls never report an outcome refuses all others until one does or it is reset
  (`UnrecordedRefuses`).

## Model

| member | source | states |
|---|---|---|
| Varint.ReadU32OfLeb | src/gbp.rs:650-672 | For every u32 and any bytes after it, reading what was written gives the number back, leaves exactly those bytes, and took at most 5 |
| Varint.ReadI64OfLeb | src/gbp.rs:675-699 | The same for every i64, `i64::MIN` included, through zigzag: at most 10 bytes |
| Varint.ReadDigitsOfLeb | src/gbp.rs:650-699 | The digit loop undoes LEB128 for every number that has no more digits than it may read |
| Varint.WriteVarint | src/gbp.rs:650-657 | The writing loop appends the LEB128 form and nothing else |
| Varint.WriteVarintI64 | src/gbp.rs:675-682 | The same for signed numbers |
| Varint.ReadWord | src/gbp.rs:659-672 | The reading loop, with its shifts cut off at the word width, returns what the digit reader says, with the same end-of-input and too-long errors |
| Utf8.IsUtf8Iff | src/gbp.rs:456-456 | The byte strings taken for text are just those that spell Unicode scalar values in UTF-8 |
| GbpSimulation.SimValue | src/gbp.rs:121-216 | With tables and decoder in step, decoding what was written for a value, under any later header, gives the meaning of the value, leaves what follows, and keeps both in step: body indices written early still hold in the final pools |
| GbpSimulation.SimColumns | src/gbp.rs:291-378 | Column-major bytes with runs decode to the rows the columns came from; no run leaves its column and none is pending where the next begins |
| GbpSimulation.SimColumn | src/gbp.rs:331-378 | The same inside one column, from any of its rows on |
| GbpSimulation.ReplayRun | src/gbp.rs:484-492 | A pending run delivers its value as often as it has left and then reading goes on where it was |
| GbpSimulation.SimChunks | src/gbp.rs:218-240 | Chunks written by fresh encoders decode, each by a fresh decoder, to the concatenation |
| GbpSimulation.SimSlice | src/gbp.rs:62-95 | A slice written as a message of its own decodes to the array of its meanings |
| GbpSimulation.DecodeOfEncode | src/gbp.rs:35-60 | For every value and hash: decoding the encoded value gives its meaning, in which a back-reference stands for what was last registered under its key, and is an error exactly when the meaning is undefined |
| GbpRoundTrip.RoundTripIff | src/gbp.rs:35-60 | decode(encode(v)) is v if and only if the scan of the value accepts it: each back-reference points at an equal composite, each run repeats one bit pattern, no integer lies beyond an i64 |
| GbpRoundTrip.SliceRoundTripIff | src/gbp.rs:62-95 | The same for slices |
| GbpRoundTrip.ScanValueAgrees | src/gbp.rs:121-216 | The scan accepts a value exactly when the meaning of the value is the value, and then both leave the same pools |
| GbpRoundTrip.RowsAreItems | src/gbp.rs:600-628 | Rows built from columns are the original objects exactly when the columns are the originals |
| GbpRoundTrip.DecodeNeverFails | src/gbp.rs:483-646 | Without empty arrays decoding never fails, for any hash, and gives the meaning |
| GbpRoundTrip.ValueInStep | src/gbp.rs:179-189 | Without empty arrays the decoder's pool is as long as the encoder's counter after every value, so every back-reference is in range |
| GbpTellsApart.RoundTrip | src/gbp.rs:35-60 | decode(encode(v)) == v for every value without empty arrays, negative zeros and integers beyond an i64 whose composites are told apart by the dedup key |
| GbpKeys.OneKeyIff | src/gbp.rs:242-289 | With a digest that never repeats, two objects have one dedup key if and only if their keys are the same and their members look alike from outside, and two arrays if and only if their lengths are the same and both ends look alike |
| GbpKeys.RecordsRoundTrip | src/gbp.rs:121-216 | With such a digest every list of flat records, objects of integers, strings, booleans and doubles other than -0.0, comes back unchanged |
| GbpKeys.RecordsApart | src/gbp.rs:242-250 | Two such records have one key if and only if they are equal |
| GbpKeys.MiddleNotSeen | src/gbp.rs:252-265 | Of two arrays that differ only between their ends the second is lost, for any digest |
| GbpKeys.ZeroAndZeroPointZero | src/gbp.rs:268-279 | `{k:0}` and `{k:0.0}` side by side do not come back when the hasher takes a signed number for the unsigned one with its bits |
| GbpWire.ShortNumbers | src/gbp.rs:650-657 | Numbers below 2^14 take one byte or two, the low seven bits first |
| GbpWire.SignedNumbers | src/gbp.rs:675-682 | 0, -1, 1, -2 and so on stand for 0, 1, 2, 3 |
| GbpWire.ScalarMessages | src/gbp.rs:191-214 | The whole message of every scalar and every short string, byte by byte |
| GbpWire.FiniteIff | src/gbp.rs:195-201 | Eight bytes are a double of JSON unless the eleven bits of the exponent are all ones |
| GbpWire.LongStringMessage | src/gbp.rs:204-207 | The whole message of a longer string: the text in the header, its number in the body |
| GbpWire.SecondCopy | src/gbp.rs:134-141 | A composite written again is one byte and the number it was given |
| GbpWire.ColumnsFromEight | src/gbp.rs:291-330 | Rows of one shape are written by columns if and only if there are 8 or more |
| GbpWire.RunFromSixteen | src/gbp.rs:331-378 | A column of 16 to 2,000,001 rows with one scalar is one run |
| GbpWire.PartsAboveFiftyThousand | src/gbp.rs:218-240 | More than 50,000 items are written in parts of 25,000, each with its length, and leave the tables alone |
| GbpTellsApart.EmptyArraysFail | src/gbp.rs:179-189 | `{"a":[],"b":[]}` does not decode, for any hash |
| GbpTellsApart.NestedObjectsCollide | src/gbp.rs:268-289 | Objects that differ inside a nested object only, have one key |
| GbpTellsApart.NullAndFalseCollide | src/gbp.rs:268-289 | `{k:null}` and `{k:false}` have one key |
| GbpTellsApart.CollidingSiblings | src/gbp.rs:121-160 | Two different composites with one key do not survive side by side, for any hash |
| GbpTellsApart.BigIntegerChanges | src/gbp.rs:194-201 | Every integer above the i64 range comes back as the double it rounds to |
| GbpTellsApart.ZeroColumnIff | src/gbp.rs:331-378 | A column of 8 to 50,000 zeros comes back unchanged if and only if all have one sign or there are no more than 15 |
| GbpTellsApart.MixedZerosChange | src/gbp.rs:331-378 | One 0.0 and fifteen -0.0 in a column do not |
| GbpSize.EncodingFits | src/gbp.rs:35-60 | A value of up to 67 million units loses nothing to a 32-bit cast and takes at most 64 bytes a unit |
| GbpSize.ValueBudget | src/gbp.rs:121-216 | The bytes and table entries of a value, and the headroom left for its container, stay within a fixed rate per unit of its size |
| GbpTransfer.TransferOne | src/gbp.rs:35-60 | One message through the encoder and the decoder object: received unchanged exactly when faithful, never refused without empty arrays |
| GbpTransfer.Transfer | src/gbp.rs:436-470 | The same for any list of values through one pair of objects: nothing carries over from one message to the next |
| GbpEncoderClass.GbpEncoder.Encode | src/gbp.rs:35-60 | The object writes exactly the specified message, whatever it was used for before |
| GbpEncoderClass.GbpEncoder.EncodeSlice | src/gbp.rs:62-95 | The same for slices |
| GbpEncoderClass.GbpEncoder.EncodeRecursive | src/gbp.rs:121-216 | Tables and buffer grow as specified; the map keyed by shape number stands for one keyed by the names of the keys |
| GbpEncoderClass.GbpEncoder.TryEncodeColumnar | src/gbp.rs:291-378 | Taken exactly for 8 or more objects of one shape; a refused attempt may still have interned the first shape |
| GbpEncoderClass.GbpEncoder.TryEncodeParallel | src/gbp.rs:218-240 | Taken exactly above 50,000 elements |
| GbpEncoderClass.GbpEncoder.GetStringIdx | src/gbp.rs:380-390 | The number of the first equal string of the pool, which grows only by new strings |
| GbpEncoderClass.GbpEncoder.GetShapeIdFromMap | src/gbp.rs:392-408 | The same for shapes, whose keys are interned first |
| GbpEncoderClass.GbpEncoder.RaiseInjective | src/gbp.rs:142-160 | Two keys with different shape numbers or hashes never stand for one named key |
| GbpDecoderClass.GbpDecoder.Decode | src/gbp.rs:436-470 | The object, its pools and run state cleared, returns what the specified decoder returns, value or error, invalid UTF-8 in the pool included, on every byte string |
| GbpDecoderClass.GbpDecoder.DecodeRecursive | src/gbp.rs:483-646 | The same for one value at any position, with the state left behind; short strings that are no UTF-8 are refused |
| GbpDecoderClass.GbpDecoder.DecodeTable | src/gbp.rs:600-628 | The loop over columns and rows fills the rows as specified, run state carried through |
| GbpDecoderClass.GbpDecoder.ReadHeader | src/gbp.rs:436-468 | Magic bytes, strings, each valid UTF-8, and shapes as specified |
| QueryNormalizer.NormalizeQuery | src/query_whitelist.rs:255-351 | The scanner returns the normal form on every character sequence, unterminated strings and comments included |
| QueryNormalizer.TokensPreserved | src/query_whitelist.rs:255-351 | A query and its normal form have the same tokens: strings verbatim, single punctuators, maximal words |
| QueryNormalizer.EqualNormalFormsEqualTokens | src/query_whitelist.rs:242-252 | Two queries with one normal form have the same tokens |
| QueryNormalizer.NormalizeIdempotent | src/query_whitelist.rs:709-715 | Normalising twice is normalising once, on every input |
| QueryNormalizer.NormalFormIsComplete | src/query_whitelist.rs:255-351 | Two queries have one normal form exactly when they have the same atoms and the same blanks between atoms that are no punctuators |
| QueryNormalizer.NormalFormsEqualIff | src/query_whitelist.rs:242-252 | Two queries have one normal form if and only if they have the same tokens and keep the same blanks beside string literals |
| QueryNormalizer.SameTokensSameWords | src/query_whitelist.rs:309-345 | Equal tokens fix the characters, the literals and every blank inside and between words |
| QueryNormalizer.BlankBesideStringMatters | src/query_whitelist.rs:309-345 | `a""` and `a ""` have equal tokens and different normal forms |
| QueryNormalizer.RenderReadsBack | src/query_whitelist.rs:309-345 | Reading a written normal form gives the atoms it was written from |
| QueryNormalizer.TokensAreGrouped | src/query_whitelist.rs:255-351 | The tokens of a text are its atoms with adjacent word characters joined |
| QueryNormalizer.CountBackslashes | src/query_whitelist.rs:266-281 | The loop counts the backslashes that stand directly before a position |
| QueryCharacters.OneCharacter | src/query_whitelist.rs:262-264 | The tokens of every query of one character, with the ignored characters and the punctuators in figures |
| QueryCharacters.CommentEnds | src/query_whitelist.rs:268-277 | A comment ends at the next line feed or carriage return, or at the end |
| QueryCharacters.BlankStays | src/query_whitelist.rs:318-345 | Between two characters ignored text becomes one blank, or nothing beside a punctuator |
| BlockStrings.BlockStringsIff | src/query_whitelist.rs:280-302 | When all literals of a query are well-formed GraphQL, they are read as GraphQL reads them if and only if none is a block string |
| BlockStrings.StringBodyAgrees | src/query_whitelist.rs:280-302 | An ordinary string with its escapes ends where GraphQL ends it |
| BlockStrings.BlockStringsCollide | src/query_whitelist.rs:255-351 | Two different block strings with a quote and a hash inside have one normal form |
| SvidRotation.StepKeepsInv | src/mtls.rs:694-735 | Every step of every caller, a cancelled one included, keeps the lock right, the history of stored certificates, and that of all signed ones |
| SvidRotation.RunKeepsInv | src/mtls.rs:694-747 | So does every interleaving |
| SvidRotation.StaleIsOld | src/mtls.rs:93-117 | A certificate is found expired or due for renewal exactly when half its lifetime has passed, in whole seconds |
| SvidRotation.LogOrdered | src/mtls.rs:448-450 | Serials strictly increase along the stored certificates, forced rotations and failed issues included, and any two keep the distance below |
| SvidRotation.RotationSpacing | src/mtls.rs:694-716 | In every run a certificate stored by `get_svid` was decided on no sooner than half the lifetime after any earlier stored one was issued |
| SvidRotation.RotationRate | src/mtls.rs:694-747 | In every run `get_svid` stores a certificate at most once per half lifetime, however many callers there are |
| SvidRotation.IssuanceSpacing | src/mtls.rs:694-735 | In every run a certificate signed for `get_svid`, stored or not, was decided on no sooner than half the lifetime after each that had been stored and each signed before it that no cancelled call lost |
| SvidRotation.NoneLostSpacing | src/mtls.rs:694-735 | Without a call cancelled between signing and storing, after every one signed before |
| SvidRotation.LostIff | src/mtls.rs:719-735 | A signed certificate is lost in a run exactly when a step cancels a call between signing and storing |
| SvidRotation.CloserIff | src/mtls.rs:719-735 | Some run signs two certificates closer than half the lifetime exactly when that half is not zero seconds |
| SvidRotation.CancelledCallRepeats | src/mtls.rs:719-735 | For any lifetime: a call cancelled with its certificate signed, and a second signed at the same instant |
| SvidRotation.LossContinuesIff | src/mtls.rs:694-735 | In any state a run can reach: a call cancelled with its certificate signed can be followed by a signature closer than half the lifetime if and only if that half has not passed since the issue and the current certificate is older, which it always is when the call was a `get_svid` |
| SvidRotation.OneRotationAtATime | src/mtls.rs:706-735 | At most one caller is between taking and releasing the rotation lock |
| RotationCalls.ForcedCallRotates | src/mtls.rs:744-747 | From any state with the lock free a forced call makes one new certificate current, stale or not as the old one is, with the next serial, issued now |
| RotationCalls.ForcedCallEnds | src/mtls.rs:719-747 | In every run a forced call is over only once its certificate has become current, signing has failed or it was cancelled |
| RotationCalls.GetCallEnds | src/mtls.rs:694-716 | In every run a `get_svid` call is over only after one of these, or at the sight of a certificate less than half way through its lifetime |
| CostBudget.QueryCostAnalyzer.CheckUserBudget | src/query_cost_analyzer.rs:132-176 | One call, inline eviction included, changes the map and answers as specified |
| CostBudget.CleanupUnnoticed | src/query_cost_analyzer.rs:260-267 | A cleanup changes no later answer and no later entry of any user, except that it can make room where a call would have been refused for capacity |
| CostBudget.StepKeepsInv | src/query_cost_analyzer.rs:132-176 | Every entry counts exactly what its window accepted, across eviction and cleanup |
| CostBudget.IntervalBound | src/query_cost_analyzer.rs:132-176 | In every run no interval as long as the window sees more than twice the budget accepted for one user |
| CostBudget.BoundIsTight | src/query_cost_analyzer.rs:144-170 | The bound is reached |
| CostBudget.CapacityBound | src/query_cost_analyzer.rs:136-155 | The map never holds more than 50,000 users, whatever the clock and the costs |
| CostBudget.CapacityRefusalIff | src/query_cost_analyzer.rs:136-155 | A call is refused for capacity if and only if its user has no entry and 50,000 others are in a window that is not over |
| CostBudget.RefusalJustified | src/query_cost_analyzer.rs:162-175 | A charge is refused for its budget only when the accepted charges of the last window leave no room, whatever sums have wrapped |
| CostBudget.OverspendsIffWraps | src/query_cost_analyzer.rs:162-175 | A tracked user is let over the budget exactly when the 64-bit sum wraps round |
| CostBudget.IntervalBoundIff | src/query_cost_analyzer.rs:132-176 | With costs up to a given one, the interval bound holds in every run if and only if that cost and the budget together stay below 2^64 |
| CostBudget.WrappingBreaksBound | src/query_cost_analyzer.rs:162-175 | Otherwise a run from the empty map breaks it: fill the budget, wrap round, fill it again |
| LiveQueries.RunIsScan | src/live_query.rs:416-690 | Every run of registrations with fresh ids, removals, prunings and events of plain names gives the answers and subscriptions of a store without indices, and keeps indices and limits right |
| LiveQueries.StepIsScan | src/live_query.rs:416-564 | The same for one operation |
| LiveQueries.EnterInStepIff | src/live_query.rs:449-469 | Registering leaves the indices right exactly when the id is new, or its old subscription had the same connection and no trigger the new one lacks |
| LiveQueries.LinkIsTableIff | src/live_query.rs:451-467 | The same for one index |
| LiveQueries.UnlinkIsTable | src/live_query.rs:482-504 | Unregistering leaves the index a full scan would build, without empty sets |
| LiveQueries.EnterWithinLimits | src/live_query.rs:421-443 | An admitted registration keeps both limits under any id and with any stale entries; a per-connection limit of 0 acts as 1 |
| LiveQueries.RunKeepsLimits | src/live_query.rs:416-690 | Every run, of any ids and events, keeps both limits and files every subscription under all its triggers and its connection |
| LiveQueries.NoneMissed | src/live_query.rs:527-564 | After every run both limits hold, and an event of any names finds every subscription that should update and counts no fewer than those |
| LiveQueries.PrunedIff | src/live_query.rs:235-240 | Pruning takes a subscription if and only if it has a lifetime and that many seconds have passed, and changes no other |
| LiveQueries.SenderCameWithQuery | src/live_query.rs:416-476 | After every run each subscription has the sender that came with it in one registration |
| LiveQueries.RegisteredAs | src/live_query.rs:416-476 | An admitted registration is there with its sender and changes no other; a refused one changes nothing |
| LiveQueries.ConnectionLimitIff | src/live_query.rs:430-443 | The configured limit per connection is kept in every run, of any ids, if and only if it is positive, or the store admits nothing at all |
| LiveQueries.LeaveOneMore | src/live_query.rs:482-504 | Whatever stale entries the indices hold, unregistering ids one by one, in any order, is taking away their subscriptions, senders and own filings at once |
| LiveQueries.AffectedIsSelected | src/live_query.rs:527-564 | The four index lookups find every subscription that should update, stale entries or not, and with right indices and plain names no other |
| LiveQueries.PatternsMatchIff | src/live_query.rs:173-188 | All four patterns match the event exactly when neither type nor action has a dot |
| LiveQueries.MatchesIsPattern | src/live_query.rs:173-188 | A trigger that matches an event is one of the four patterns, for any names |
| LiveQueries.DottedEventMiscounts | src/live_query.rs:531-544 | For an event with a dotted name there is a store in which the count is wrong |
| LiveQueries.SplitJoin | src/live_query.rs:173-177 | Splitting at dots undoes joining with one |
| LiveQueries.LiveQueryStore.Register | src/live_query.rs:416-476 | The store after a registration, or the limit that refused it; when the indices stay right |
| LiveQueries.LiveQueryStore.Unregister | src/live_query.rs:479-511 | The store without one subscription, which is returned if it was there |
| LiveQueries.LiveQueryStore.UnregisterConnection | src/live_query.rs:514-524 | On any store, stale or not, the ids filed under the connection leave, those in use are returned, and the state is as specified; with right indices each subscription is returned once |
| LiveQueries.LiveQueryStore.PruneExpired | src/live_query.rs:670-690 | On any store the expired subscriptions leave and the state is as specified; a TTL of 0 never expires; right indices stay right |
| LiveQueries.LiveQueryStore.Invalidate | src/live_query.rs:527-564 | The number of subscriptions the index finds: never fewer than a scan selects, and as many with right indices and plain names |
| InvertedIndex.UnderLinked | src/live_query.rs:451-467 | Filing and unfiling a key changes what is under each name as it should, and nothing else |
| FieldDiff.ChangesAreADiff | src/live_query.rs:885-1010 | Below the depth limit: nothing is reported iff the values are equal; every report shows two differing values, absent differing from present; no reported path continues another; no difference is missed |
| FieldDiff.ChangesExactly | src/live_query.rs:885-1010 | The reported changes are exactly those of an independent reference on paths |
| FieldDiff.ReportedFinest | src/live_query.rs:919-933 | Two objects or two arrays are reported as a whole only at the depth limit |
| FieldDiff.EmptyIffEqual | src/live_query.rs:892-894 | Nothing is reported iff the values are equal or the limit is reached |
| FieldDiff.DifferenceIsReported | src/live_query.rs:885-1010 | For each differing place a reported path above or below it |
| FieldDiff.DetectFieldChanges | src/live_query.rs:885-1010 | The recursion with its result vector reports exactly the changes, each under the text of its path, no path twice, in whatever order keys come |
| PathTexts.TextInjective | src/live_query.rs:905-962 | Paths of names without dots and brackets, none empty, differ in their text |
| PathTexts.OddNameIff | src/live_query.rs:905-962 | Among such names one other name never gives two paths one text if and only if it is not empty and is not itself the text of a path of several steps |
| PathTexts.SpelledIff | src/live_query.rs:905-962 | Whether a name is such a text can be read off its characters: a plain name, then dots with plain names and brackets with numbers |
| FieldDiff.TextsDistinctIff | src/live_query.rs:885-1010 | For any one name: between values whose names are plain or that one no two changes ever share a text if and only if it is not empty and not the text of a path |
| FieldDiff.TextsDistinct | src/live_query.rs:885-1010 | For two values with such names every change has a text of its own |
| FieldDiff.DottedNameCollides | src/live_query.rs:905-915 | With a dotted name they can be: `a.b` for the member and for the path |
| FieldDiff.TwoOddNamesCollide | src/live_query.rs:905-915 | Two names that are harmless alone, `x.` and `.a`, can give two changes one text |
| Deferral.BackwardRestores | src/defer.rs:433-441 | For any fragments and paths, merging all patches last to first into the initial data restores the data |
| Deferral.ForwardRestoresIff | src/defer.rs:433-441 | Merging them in the order sent restores the data if and only if no fragment that finds a field defers it below a field that a later one defers |
| Deferral.PatchesRestoreIff | src/defer.rs:433-441 | The same told of the patches: none brings back what the path of an earlier, non-empty one goes through |
| Deferral.BringsIff | src/defer.rs:433-441 | A patch brings a place exactly when the data has it, its fragment takes it and no earlier fragment does |
| Deferral.ForwardRestores | src/defer.rs:433-441 | It does when no fragment defers a field on the path of an earlier one |
| Deferral.RootFragmentsRestore | src/defer.rs:247-252 | It does when all paths are root |
| Deferral.NestedFieldIsLost | src/defer.rs:433-441 | A case in which it does not: `bio` of `user`, then `user` |
| Deferral.ExtractSplits | src/defer.rs:530-580 | Extraction splits the data by place: what lies in the named fields goes into the patch, all else stays |
| Deferral.ExtractThenMerge | src/defer.rs:530-580 | Merging undoes one extraction, whether or not the path leads anywhere |
| Deferral.Commute | src/defer.rs:468-505 | Two patches that fit one after the other may be exchanged unless the first brings back what the second one's path goes through |
| Deferral.BroughtOnce | src/defer.rs:437-441 | Every place is in the initial data or brought by one patch only |
| Deferral.SwallowedIsLost | src/defer.rs:468-505 | A patch sent before the one that brings back its target finds no target, and what it carries stays lost |
| Deferral.HasNextUntilLast | src/defer.rs:379-512 | `hasNext` is true for every part but the last, timeouts included, and there are fewer parts than the channel made for them holds |
| Deferral.StreamRestores | src/defer.rs:400-512 | Without a timeout the parts sent restore the data of the response: last to first always, in the order sent exactly under the condition above on the active fragments |
| Deferral.ReceivedIncremental | src/defer.rs:455-466 | A client receives a prefix of the patches, all of them exactly when no timeout strikes |
| DeferredStream.FirstPart | src/defer.rs:400-447 | For every response with `data` and any timing: the first part has just the places of `data` that no enabled fragment takes, and the items of `errors` if that is an array |
| DeferredStream.ClientHasData | src/defer.rs:400-512 | Without a timeout, merging what a client receives last to first gives the `data` of the response |
| DeferredStream.NoData | src/defer.rs:410-414 | A response without `data` counts as null |
| DeferredStream.PatchesInOrder | src/defer.rs:466-496 | Patches come in the order of the enabled fragments, each with its path and label |
| DeferredStream.NumberIsPosition | src/defer.rs:541-551 | A segment that is a number below 2^64 is a position |
| DeferredStream.OtherIsName | src/defer.rs:552-562 | Any other segment is a name |
| Deferral.DeferredExecution.Execute | src/defer.rs:400-512 | What is sent and how the call ends, for every timing and for a receiver that goes away at any point |
| Deferral.DeferredExecution.ExtractAndRemoveFields | src/defer.rs:530-580 | The walk and the field loop give the specified pair on every tree, path and field list |
| Deferral.DeferredExecution.SendPatches | src/defer.rs:455-509 | The sending loop with its timeout check before each patch |
| CacheRuns.StepRefines | src/cache.rs:385-719 | Every put, invalidation, mutation and clear does to the cache, at any capacity, exactly what a book without indices does: a list of entries by last write, and the filings each put added and its entry did not take back |
| CacheRuns.RunRefines | src/cache.rs:385-719 | So does every run: the book of the final state is that of the reference run |
| CacheRuns.RunBounded | src/cache.rs:834-852 | In every run there are at most as many entries as the capacity, and at most one if that is 0 |
| CacheRuns.PutRefines | src/cache.rs:385-445 | A put takes the oldest with what their entries account for, moves the key to the end and adds its filings |
| CacheRuns.PutList | src/cache.rs:401-423 | Of the list it leaves the newest there is room for, less the key, then the entry |
| CacheRuns.EvictedIsOldest | src/cache.rs:834-852 | Eviction takes exactly the oldest writes that make room for one more |
| CacheRuns.MutationLeavesNoTrace | src/cache.rs:670-697 | After any run, a mutation leaves no entry with a type or `Type#id` found at any depth of its response |
| MutationNames.NothingLeft | src/cache.rs:670-697 | After any run and a mutation no entry is left with the `__typename` of any object of its response, or with `Type#id` by its `id`, or by its `_id` where `id` is no string |
| MutationNames.TypesLookedUpIff | src/cache.rs:976-1003 | The types looked up are just the `__typename` strings at some place of the response |
| MutationNames.EntitiesLookedUpIff | src/cache.rs:1005-1036 | The entities looked up are just the `Type#id` at some place of the response |
| MutationNames.GoesIff | src/cache.rs:670-697 | An entry goes with a mutation if and only if it is filed under one of these |
| CacheRuns.InvalidationPreciseIff | src/cache.rs:570-668 | An invalidation removes just the entries that carry the name if and only if no cached key is filed under it besides |
| CacheRuns.InsertExactIff | src/cache.rs:424-445 | Writing keeps the index exact if and only if the key is new or its old entry has no name that the new one lacks |
| CacheRuns.PutExactIff | src/cache.rs:385-445 | The same for a whole put, whose eviction may have taken the key before |
| CacheRuns.StepPrecise | src/cache.rs:385-719 | With exact indices each operation is that of a plain list from which an invalidation takes what carries the name; they stay exact if and only if a write keeps all names of the entry it replaces |
| CacheRuns.RunPrecise | src/cache.rs:385-719 | So every run of such writes is that of the plain list |
| CacheRuns.StaleFilingRemovesMore | src/cache.rs:424-445 | Otherwise an invalidation can remove more: a key written with a type, written again without it, goes with that type |
| CacheKeys.QueriesApart | src/cache.rs:228-263 | With everything else equal two queries have one key if and only if they have the same words, whatever the whitespace |
| CacheKeys.PartsApart | src/cache.rs:228-263 | With everything else equal, variables, operation and further parts are told apart |
| CacheKeys.PartsRunTogether | src/cache.rs:228-263 | A query that is one word and an operation have the key of the two written as one word |
| CacheKeys.PartsInOrder | src/cache.rs:228-263 | What is digested is the query, the variables, the operation and the further parts, in this order |
| ResponseCache.MentionedAtIsMentioned | src/cache.rs:982-1036 | What any place of a response mentions is extracted |
| ResponseCache.MentionedSomewhere | src/cache.rs:982-1036 | What is extracted is mentioned at some place |
| ResponseCache.RemoveAllIsDrop | src/cache.rs:868-905 | Removing keys one by one from three tables is removing them at once, whatever their order |
| ResponseCache.ResponseCache.PutWithTtl | src/cache.rs:385-445 | The object after a put |
| ResponseCache.ResponseCache.EvictIfNeeded | src/cache.rs:834-852 | The drain of the order list and the removal of its keys |
| ResponseCache.ResponseCache.RemoveEntries | src/cache.rs:854-866 | Keys removed from all four tables |
| ResponseCache.ResponseCache.RemoveEntriesInternal | src/cache.rs:868-905 | The loop over keys and the names of their entries |
| ResponseCache.ResponseCache.InvalidateByType | src/cache.rs:570-618 | Entries filed under a type go; how many were filed |
| ResponseCache.ResponseCache.InvalidateByEntity | src/cache.rs:620-668 | Entries filed under an entity go; how many were filed |
| ResponseCache.ResponseCache.InvalidateForMutationResult | src/cache.rs:670-697 | Names invalidated one after the other, each looked up in the index as it then stands, leave what removing all at once leaves; the total is no less than the entries gone |
| ResponseCache.ResponseCache.ExtractRecursive | src/cache.rs:982-1036 | The recursion with its mutable set adds exactly what the value mentions |
| DataLoader.NormalizeIsCanonical | src/dataloader.rs:334-356 | Two representations normalise alike iff they are equal up to the order of members at every depth |
| DataLoader.AscendingIsUnique | src/dataloader.rs:349-356 | There is one ascending list of given entries, so any sort by key gives the same key |
| DataLoader.SortOrders | src/dataloader.rs:349-356 | Sorting by key gives an ascending list of the same entries |
| DataLoader.EqualKeysAnswerAlike | src/dataloader.rs:296-320 | Keys that compare equal are answered alike by a resolver blind to member order |
| DataLoader.EntityBatcher.Load | src/dataloader.rs:161-272 | For any resolver: succeeds iff every type is known and its one call gives a value for each key; each key has an entry, and each entry is what that call gave at the place of the last equal key |
| DataLoader.PointwiseLoad | src/dataloader.rs:161-272 | If batches answer as their members would be answered alone: iff every key resolves alone, and each entry is the answer one of the equal keys gets alone |
| DataLoader.EntityBatcher.ResolveGroup | src/dataloader.rs:221-247 | A group of one goes through the single form, others through the batch form; an answer of another length is refused |
| DataLoader.EntityBatcher.Group | src/dataloader.rs:201-208 | Each type has its keys in their order |
| DataLoader.EntityDataLoader.LoadMany | src/dataloader.rs:103-145 | Refuses more than 500; for any resolver the answers come in the order asked and equal keys get equal ones; for a lawful resolver each gets the answer it would get alone, with an error iff one cannot be resolved |
| CircuitBreakers.StepKeepsInv | src/circuit_breaker.rs:164-257 | Every call keeps the counters equal to what the history says |
| CircuitBreakers.ClosedCountsFailures | src/circuit_breaker.rs:205-257 | While closed the counter is the number of consecutive failures and is below the threshold, where 0 acts as 1 |
| CircuitBreakers.EpisodeAdmissions | src/circuit_breaker.rs:179-200 | A half-open episode of up to 2^32 calls lets through as many as it has, up to the limit; it stays within the limit exactly when it has no more calls than that or the limit is 0 |
| CircuitBreakers.RecoveryNeedsSuccesses | src/circuit_breaker.rs:205-228 | Without a reset the circuit closes only with the required number of successes and no failure in the episode |
| CircuitBreakers.NothingBeforeTimeout | src/circuit_breaker.rs:293-318 | Once open, no later call is let through before the recovery timeout |
| CircuitBreakers.OpensAtThreshold | src/circuit_breaker.rs:231-257 | A failure opens the circuit exactly when half open or the threshold-th in a row |
| CircuitBreakers.AdmittedIff | src/circuit_breaker.rs:164-202 | After every run a request is let through if and only if the circuit is closed, or open with the recovery timeout over and a positive limit, or half open with fewer calls than the limit, modulo 2^32 |
| CircuitBreakers.ObservedIff | src/circuit_breaker.rs:293-318 | Looking at the state turns an open circuit half open if and only if the recovery timeout is over, and changes nothing else |
| CircuitBreakers.OpenSinceFailure | src/circuit_breaker.rs:231-257 | While open, the timeout is counted from the last failure that opened the circuit |
| CircuitBreakers.ClosesIff | src/circuit_breaker.rs:205-228 | In an episode a success closes the circuit if and only if it is the last of the required number |
| CircuitBreakers.ResetAdmits | src/circuit_breaker.rs:338-344 | After a reset requests are let through and earlier failures do not count |
| CircuitBreakers.UnrecordedEpisode | src/circuit_breaker.rs:164-202 | While nothing is recorded a half-open circuit stays half open, and which calls it lets through depends on their number in the episode alone |
| CircuitBreakers.UnrecordedRefuses | src/circuit_breaker.rs:179-200 | Once the limit of an episode is let through and no outcome is recorded, every further call up to the 2^32-th is refused, at any time |
| CircuitBreakers.CircuitBreaker.AllowRequest | src/circuit_breaker.rs:164-202 | State and answer of one call |
| CircuitBreakers.CircuitBreaker.RecordSuccess | src/circuit_breaker.rs:205-228 | State after a success |
| CircuitBreakers.CircuitBreaker.RecordFailure | src/circuit_breaker.rs:231-257 | State after a failure |

## Left out

- LZ4, gzip, rayon, serde: library code. Strings of the codec are valid UTF-8 byte strings. Chunks are encoded one after the other.
- AHash, SHA-256, blake3, number printing: functions given as parameters, without assumptions for the codec, save for `GbpKeys`, where the digest is said to be injective; injective for the loader.
- The encoder's list of byte ranges (`value_positions`): written, never read.
- Memory: a decoder given huge lengths allocates before it reads; the model has no such limit.
- RoundTripIff: asks that no length or counter of the encoding passes 32 bits; what the casts then cut off is not modelled. `EncodingFits` shows that it cannot happen for values of up to 67 million units.
- SliceRoundTripIff: asks the same of a slice.
- DecodeNeverFails: asks the same.
- DecodeOfEncode: asks the same.
- RoundTrip: asks the same.
- SimValue: asks the same of the tables and the value it is about.
- SimColumns: asks the same of its columns.
- SimColumn: asks the same of its column.
- SimChunks: asks the same of its chunks.
- SimSlice: asks the same of its slice.
- Encode: asks the same of what it writes.
- EncodeSlice: asks the same of what it writes.
- EncodeRecursive: asks the same of what it writes.
- TryEncodeColumnar: asks the same of what it writes.
- TryEncodeParallel: asks the same of what it writes.
- GetShapeIdFromMap: asks that the shape table is not so long that a shape gets the number that marks arrays.
- TransferOne: asks the same of its value.
- Transfer: asks the same of each value.
- CacheKeys: variables are given as the JSON library prints them; the key's digest is a parameter.
- Redis branches of cache and loader, `put_all_entities`, cache lookup by key and expiry, statistics: the operations kept are those that write the four tables together.
- Locks inside one call: budgets, breaker, cache and live queries are modelled call by call. Only certificate rotation is modelled by interleaved steps.
- The certificate itself, openssl processes, files: an issue takes a serial, then succeeds or fails.
- The wall clock going back: every clock here is monotone, and certificate times come from one clock.
- `send_update`, throttling, the broadcast of events and their counters in the live query store: channels and statistics. Fields of a subscription that no index uses are dropped.
- RunIsScan: is for fresh ids and plain event names; that neither can be dropped is `EnterInStepIff` and `DottedEventMiscounts`; what holds without them is `NoneMissed`.
- StepIsScan: is for a fresh id and a plain event name, as above.
- IntervalBound: is for runs without a wrapping sum; `IntervalBoundIff` shows that this cannot be dropped.
- CostBudget.StepKeepsInv: is for steps without a wrapping sum.
- RotationSpacing: is about certificates that were stored; `IssuanceSpacing` is about all that were signed.
- RotationRate: counts certificates that were stored.
- ChangesAreADiff: tells paths as steps; their texts are the subject of `TextsDistinctIff`.
- TextsDistinctIff: is about one name besides plain ones.
- `FieldDiff` compares numbers as integers: equality is all that matters there.
- `Deferral` has the client's merge as a reference of its own, which the repository does not contain: members of a patch join the object at its path, and a patch without such an object is ignored. Reading fragments from query text, multipart formatting and per-fragment errors (always empty) are left out.
- LoadMany: stands for the loader library between it and `EntityBatcher.Load`: equal keys are loaded once; caching across calls and delayed batching are left out, and so is the branch for an incomplete result, which cannot occur here. Its last two clauses are for a resolver whose batch form answers as its members would be answered alone and which ignores the order of members.
- SortByKey: stands for the library's sort; any other gives the same list (`AscendingIsUnique`).
- Which of several errors `EntityBatcher.Load` returns depends on map order and is not stated.
- The whitelist's maps of ids and hashes, persisted queries: what remains there is a plain index invariant.
- Query cost multipliers, load factors, analytics, health, metrics, headers, middleware, compression: folds and flags that would only add easy members.
- `@defer` and `@live` detection, field counting, argument parsing: approximate text heuristics by design.
- Gateway, federation, OpenAPI, plugins, gRPC client, error types: builders and plumbing over libraries.
