# Verified core of the Quai Rust SDK

This project models the parts of the SDK where the protocol logic is hard and proves what the rest of the
SDK relies on. Each module follows one component:

- `AbiTypes`, `AbiText`, `AbiEncoding`, `AbiDecoding`, `AbiSoundness`, `AbiCompleteness`, `AbiRoundTrip`,
  `AbiMeasure`, `AbiWriter`, `AbiCodec`: the bounded Solidity ABI codec. A value tree is measured, one buffer
  is allocated, heads and tails are written in place, and the strict decoder accepts only that layout while
  spending a shared node, text and depth budget. The layout follows "Formal Specification of the Encoding"
  and "Strict Encoding Mode" of the Solidity Contract ABI Specification.
- `AbiParser`, `AbiTypeParser`, `AbiSpelling`: printing and parsing of type names, and what a type text spells.
- `AbiEvents`, `AbiLogImage`, `AbiFilters`, `AbiLogs`: event topics, logs in both directions, and filters.
- `AbiDefaults`, `AbiPacked`: closed-form default sizes, and packed encoding.
- `ProtoWire`, `ProtoMessage`, `ProtoRoundTrip`, `ProtoWalkers`, `QuaiTx`, `QiTx`, `TxCodec`: the transaction
  wire format, after "Base 128 Varints" and "Message Structure" of the Protocol Buffers encoding guide: the
  two hand-written walkers, the message budget, and the typed transactions.
- `SocketState`, `SocketProofs`, `SocketRuns`, `SocketSession`, `SocketClient`: the browser WebSocket session as
  a state machine with a history and as the mutable object it is, and the client calls made on it.
- `SchemaGraph`, `SchemaSearch`, `SchemaText`, `SchemaOrder`, `SchemaDeclarations`, `SchemaCompiler`: EIP-712
  schemas: type expressions, declaration checks, the memoised dependency search and type strings.
- `SnapshotStore`: multi-key compare-and-exchange shared between tabs.
- `PaymentChannel`: the resumable search and its cursors.
- `Discount`: the cubic batch discount.

`dafny verify dfyconfig.toml` checks the whole project.

## How the source is represented

- Code that updates things step by step is a method with loops, or a class; each such method is proved against
  a function of its inputs or of the old state, and the properties are proved about those functions.
- `usize` is 64 bits wide: a length read from a word or a digit string that does not fit is an error, and sums
  of in-memory sizes do not wrap. 256-bit and 64-bit bounds are written out.
- Text is the UTF-8 bytes of a `str`. JSON numbers carry their exact 64-bit integer when they have one.
- Keccak is any function from byte strings to byte strings; no property needs more.
- Public-key compression is any function that parsing undoes, and addresses are any function of the key;
  `QiTx.Invertible` is the only assumption about the curve.
- prost's merge of repeated, optional and nested fields is written out from the field numbers in
  `crates/quai-consensus/src/proto.rs`.
- Branches that the proofs show unreachable are not repeated in the models: the length checks after
  `write_sequence` and after packed writing, the errors of `write` and `indexed` after validation, and the
  reachability check on the root of a schema, each of which is an `assert` or a plain return there.
- In the socket model one event handler is one step. Timers, aborts and the order in which a closing session
  visits its requests are left open. The follow-up of a clean-up request happens in the step that settles it.
  Every call has its own abort controller, as in `crates/quai-browser/src/socket.rs:182` and `:257`.
- In the client model a call is split at its await: it starts, and later it returns or is dropped.
- A database transaction is one atomic step.

## What turned out different from the obvious

- `AbiCoder::encode` accepts values whose encoding `decode` refuses: the decoder charges its own spelling, and
  a checksummed address or a decimal integer can be longer than the spelling that was encoded. The exact
  condition is the canonical text size; see `AbiRoundTrip.EncodeThenDecode`, and
  `AbiRoundTrip.EncodeAcceptsWhatDecodeRefuses` for a value. The same condition governs logs; see
  `AbiEvents.LogRoundTrip`, and `AbiEvents.EncodedLogIsRefused` for a log.
- A decoded log need not be encodable either: decoding holds the data to the limits and each topic on its own,
  encoding holds all arguments together to them. The exact condition adds one word and one node to the data
  for each indexed argument; see `AbiLogImage.DecodeThenEncodeLog`, and `AbiLogImage.DecodedLogIsRefused` for a log.
- An accepted type text can have a canonical name that the parser refuses, because `uint` and `int` are
  written out as `uint256` and `int256`. The exact condition is the length of the text without blanks and
  `tuple` keywords and with its aliases written out; texts without aliases and texts of at most 2048 bytes
  always meet it. See `AbiSpelling.ReparseExactly`, and `AbiSpelling.AcceptedNameIsRefused` for texts that do not.
- A clean-up reply that carries both an `error` member and the result `true` keeps the session open, since only
  the result is looked at; `SocketState.Confirms` follows the code.

## Model

| member | source | states |
|---|---|---|
| AbiRoundTrip.DecodeThenEncode | crates/quai-abi/src/codec.rs:23-49 | for all types and bytes: if decode succeeds, encode accepts the result under every node, depth, text and size limit, returns exactly the same bytes, and the result is already in canonical spelling |
| AbiRoundTrip.EncodeThenDecode | crates/quai-abi/src/codec.rs:23-49 | for all encodable values: decoding their encoding gives their canonical spelling, exactly when that spelling fits the text budget of the decoder, and the limit error otherwise |
| AbiRoundTrip.DecodeImage | crates/quai-abi/src/codec.rs:35-49 | the byte strings decode accepts are exactly the encodings of encodable canonical values |
| AbiRoundTrip.DecodeInjective | crates/quai-abi/src/codec.rs:35-49 | no two byte strings decode to the same values |
| AbiRoundTrip.EncodeAcceptsWhatDecodeRefuses | crates/quai-abi/src/codec.rs:273-290 | a concrete list (25000 unprefixed addresses) that encode accepts and whose encoding decode refuses, so the text condition above is needed |
| AbiCodec.Encode | crates/quai-abi/src/codec.rs:23-32 | succeeds exactly on encodable inputs and returns their head and tail encoding; the buffer measured is the buffer filled, so the final length check cannot fail |
| AbiCodec.Validate | crates/quai-abi/src/codec.rs:51-58 | accepts exactly the encodable inputs and returns the length of their encoding |
| AbiMeasure.PreflightValues | crates/quai-abi/src/codec.rs:71-96 | the stack walk accepts exactly values whose total nodes, text and depth are within the limits and that hold no object; the answer does not depend on the order of the walk |
| AbiMeasure.MeasureSequence | crates/quai-abi/src/codec.rs:134-151 | the measured size is the length of the encoding; each error is explained by a type mismatch or an exceeded limit |
| AbiMeasure.Measure | crates/quai-abi/src/codec.rs:152-186 | the same for one value |
| AbiMeasure.Meter.Node | crates/quai-abi/src/codec.rs:278-285 | charges one node, refusing depth and node overruns |
| AbiMeasure.Meter.Text | crates/quai-abi/src/codec.rs:286-289 | charges text bytes, refusing an overrun |
| AbiWriter.WriteSequence | crates/quai-abi/src/codec.rs:216-235 | given blank bytes, the buffer afterwards is the old buffer with the encoding spliced in at the base and nothing else changed; the returned offset is its end |
| AbiWriter.Write | crates/quai-abi/src/codec.rs:236-271 | the same for one value |
| AbiWriter.WriteBlob | crates/quai-abi/src/codec.rs:254-265 | length word, content and the zero padding the buffer already held |
| AbiWriter.ProgressDynamic | crates/quai-abi/src/codec.rs:222-233 | a dynamic entry lands on blank bytes: its offset extends the heads, its encoding extends the tails, and neither touches the other |
| AbiWriter.ProgressStatic | crates/quai-abi/src/codec.rs:222-233 | a static entry lands on blank head bytes and leaves the tails alone |
| AbiCodec.DecodeSequence | crates/quai-abi/src/codec.rs:307-351 | the loop over head and tail cursors computes the specified strict decoder, budget included |
| AbiCodec.DecodeEntry | crates/quai-abi/src/codec.rs:330-348 | one turn of that loop |
| AbiCodec.DecodeValue | crates/quai-abi/src/codec.rs:352-448 | the same for one value |
| AbiCodec.DecodeBlob | crates/quai-abi/src/codec.rs:379-400 | the same for strings and byte strings |
| AbiCodec.DecodeWord | crates/quai-abi/src/codec.rs:401-446 | the same for single-word values |
| AbiCodec.DecodeValues | crates/quai-abi/src/codec.rs:35-49 | the same for a whole parameter list |
| AbiSoundness.DecSound | crates/quai-abi/src/codec.rs:352-448 | whatever one decoded value is, the bytes read are its encoding, it is canonical, and every node and text byte was charged |
| AbiSoundness.DecSeqSound | crates/quai-abi/src/codec.rs:307-351 | the same for sequences |
| AbiCompleteness.DecComplete | crates/quai-abi/src/codec.rs:352-448 | bytes that hold the encoding of a typed value decode to its canonical spelling, or to the limit error exactly when the budget does not suffice |
| AbiCompleteness.DecSeqComplete | crates/quai-abi/src/codec.rs:307-351 | the same for sequences |
| AbiEncoding.StaticLength | crates/quai-abi/src/abi_type.rs:89-145 | every value of a static type fills exactly the cached head |
| AbiEncoding.MinimumNodesBound | crates/quai-abi/src/abi_type.rs:89-145 | the cached minimum bounds the node count of every value of the type from below |
| AbiEncoding.ContainerMetadata | crates/quai-abi/src/abi_type.rs:89-145 | cached metadata of a container, read back from its entries: dynamic, head and node count |
| AbiEncoding.EncSeqLength | crates/quai-abi/src/codec.rs:134-151 | an encoding is its heads followed by its tails, and the heads take the cached head sizes |
| AbiEncoding.EncSeqWholeWords | crates/quai-abi/src/codec.rs:40-42 | every encoding is a whole number of words |
| AbiText.WordRoundTrip | crates/quai-abi/src/codec.rs:401-446 | a word that decodes is the word its printed value encodes to, at every integer width |
| AbiText.PrimitiveRoundTrip | crates/quai-abi/src/codec.rs:187-212 | a primitive value that encodes decodes to its canonical spelling |
| AbiText.IntegerOfWordOfInteger | crates/quai-abi/src/value.rs:49-108 | the word of an integer reads back as its signed decimal text, whatever spelling it came in |
| AbiText.WordOfIntegerOfWord | crates/quai-abi/src/value.rs:49-108 | the decimal text of a sign- or zero-extended word writes back to that word |
| AbiText.ExtensionIsRange | crates/quai-abi/src/codec.rs:410-416 | zero and sign extension of a word are exactly the ranges of its unsigned and two's-complement width |
| AbiText.DecodeHexOfToHex | crates/quai-abi/src/codec.rs:449-458 | reading printed hexadecimal gives the bytes back, up to the byte limit |
| AbiText.ParseAddressOfChecksum | crates/quai-primitives/src/address.rs:172-200 | parsing a checksummed address gives its bytes back, for every hash function |
| AbiParser.ParseOfName | crates/quai-abi/src/abi_type.rs:57-72 | parsing the printed name of any constructed type returns that type with the same cached metadata, exactly when name and syntax nodes fit the limits of the parser; otherwise the limit error |
| AbiParser.NameParses | crates/quai-abi/src/abi_type.rs:209-290 | standing at a printed name inside any text, the parser reads exactly that name and goes on to look for array suffixes |
| AbiParser.ParsedIsSound | crates/quai-abi/src/abi_type.rs:209-290 | a parsed type is validly constructed and was charged one node per syntax node |
| AbiSpelling.NameIsSpelling | crates/quai-abi/src/abi_type.rs:57-76 | the canonical name of any accepted text is that text, read word by word without its grammar: blanks and `tuple` keywords dropped, integer aliases written out, everything else as it is |
| AbiSpelling.ReparseExactly | crates/quai-abi/src/abi_type.rs:57-76 | the canonical name of a parsed text parses to the same type exactly when the spelling of the text fits the byte limit, and is refused with the limit error otherwise; a text without aliases, or of at most half the limit, always fits |
| AbiSpelling.SpelledLength | crates/quai-abi/src/abi_type.rs:242-264 | a spelling exceeds its text by at most three bytes for each integer alias, and is never more than twice as long |
| AbiSpelling.AcceptedNameIsRefused | crates/quai-abi/src/abi_type.rs:57-62 | the tuple of n `uint` fields is accepted for every n its text allows, and its canonical name is refused from 512 fields on |
| AbiSpelling.SameTypeExactly | crates/quai-abi/src/abi_type.rs:57-76 | two accepted texts denote the same type if and only if they are spelled the same |
| AbiTypeParser.Parser.Ty | crates/quai-abi/src/abi_type.rs:209-290 | the cursor-moving parser reads what the specification reads |
| AbiTypeParser.Parser.Base | crates/quai-abi/src/abi_type.rs:219-265 | a tuple or a word |
| AbiTypeParser.Parser.TupleInside | crates/quai-abi/src/abi_type.rs:219-232 | the loop over tuple fields |
| AbiTypeParser.Parser.Suffixes | crates/quai-abi/src/abi_type.rs:266-288 | the loop over array suffixes |
| AbiTypeParser.Parser.Suffix | crates/quai-abi/src/abi_type.rs:267-287 | one array suffix |
| AbiTypeParser.Parser.Skip | crates/quai-abi/src/abi_type.rs:183-191 | moves over the longest stretch of one character class |
| AbiTypeParser.Parser.Eat | crates/quai-abi/src/abi_type.rs:192-200 | skips blanks and takes one byte when it is the one asked for |
| AbiTypeParser.Parser.Count | crates/quai-abi/src/abi_type.rs:201-208 | charges one syntax node, refusing node and depth overruns |
| AbiTypeParser.ParseText | crates/quai-abi/src/abi_type.rs:57-72 | parses a whole text |
| AbiEvents.LogRoundTrip | crates/quai-abi/src/interface.rs:260-322 | decoding an encoded log puts each canonical value, or the topic hash of a compound indexed one, back in its declared slot, exactly when the canonical data fits the text budget |
| AbiEvents.EncodedLogIsRefused | crates/quai-abi/src/interface.rs:260-322 | a concrete log (25000 unprefixed addresses, not indexed) that is encoded and whose decoding is refused, so the text condition above is needed |
| AbiLogImage.DecodeThenEncodeLog | crates/quai-abi/src/interface.rs:260-322 | for every event whose indexed inputs are single words and every log that decoding accepts: the values are typed and canonical and have exactly the same topics and data, and encoding accepts them exactly when data, nodes and text of all arguments together fit |
| AbiLogImage.EncodableWhenAffordable | crates/quai-abi/src/interface.rs:260-288 | all arguments together cost what the data costs plus one word and one node for each indexed one, which decides whether encoding accepts them |
| AbiLogImage.DecodedLogIsRefused | crates/quai-abi/src/interface.rs:260-322 | a concrete log (32766 booleans and an indexed one) that decoding accepts and whose values encoding refuses, so the condition above is needed |
| AbiEvents.IndexedCanonical | crates/quai-abi/src/codec.rs:482-517 | the bytes hashed for a topic depend only on the canonical value, not on its spelling |
| AbiEvents.StaticPreimage | crates/quai-abi/src/codec.rs:503-515 | for a static type the bytes hashed are exactly its canonical encoding |
| AbiEvents.IndexedWholeWords | crates/quai-abi/src/codec.rs:498-501 | inside a compound value every part takes a whole number of words |
| AbiEvents.TopicCanonical | crates/quai-abi/src/codec.rs:463-481 | equal canonical values have equal topics |
| AbiEvents.WordTopicInjective | crates/quai-abi/src/codec.rs:469-474 | equal single-word topics have equal canonical values |
| AbiEvents.DataIsEncodable | crates/quai-abi/src/interface.rs:260-278 | when all arguments together are encodable, the non-indexed part is too, so the inner encode cannot fail |
| AbiEvents.EntryIsEncodable | crates/quai-abi/src/interface.rs:269-272 | and each argument alone is within every limit, so no topic is refused |
| AbiLogs.EncodeLog | crates/quai-abi/src/interface.rs:260-278 | succeeds exactly when all arguments together are encodable; topics and data are the specified partition |
| AbiLogs.DecodeLogs | crates/quai-abi/src/interface.rs:281-322 | computes the specified log decoder |
| AbiLogs.FillSlots | crates/quai-abi/src/interface.rs:297-321 | the loop that steps through topics and decoded values |
| AbiLogs.IndexedEventTopic | crates/quai-abi/src/codec.rs:463-481 | succeeds exactly on values within every limit and returns the specified topic |
| AbiLogs.Indexed | crates/quai-abi/src/codec.rs:482-517 | feeds the hasher exactly the in-place encoding |
| AbiFilters.SatisfyingLogsMatch | crates/quai-abi/src/workflows.rs:41-105 | every log whose values satisfy a filter, in any spelling, matches the encoded topics, trailing wildcards trimmed |
| AbiFilters.MatchingLogsSatisfy | crates/quai-abi/src/workflows.rs:84-100 | when only single-word fields are restricted, only such logs match |
| AbiFilters.TrimKeepsMatches | crates/quai-abi/src/workflows.rs:101-103 | dropping trailing wildcards does not change which long enough logs match |
| AbiLogs.EncodeFilterTopics | crates/quai-abi/src/workflows.rs:41-105 | succeeds exactly on well-shaped filters within the shared budgets, and returns the trimmed topic positions |
| AbiLogs.Gather | crates/quai-abi/src/workflows.rs:45-66 | collects all values asked for; refuses restrictions on fields that are not indexed and alternatives outside 1 to 128 |
| AbiLogs.Afford | crates/quai-abi/src/workflows.rs:67-79 | accepts exactly the values within the shared node, text, depth and byte budgets |
| AbiLogs.DropWildcards | crates/quai-abi/src/workflows.rs:101-103 | the loop that pops trailing wildcards |
| AbiDefaults.DefaultValues | crates/quai-abi/src/typed_value.rs:111-128 | accepts exactly the type lists whose defaults encode, before building any of them |
| AbiDefaults.TextSizeExact | crates/quai-abi/src/typed_value.rs:129-151 | the closed-form text size is the text of the built default, or the limit error exactly when that is too much |
| AbiDefaults.BodySizeExact | crates/quai-abi/src/typed_value.rs:168-187 | the closed-form body size is the length of the encoded default, or the limit error exactly when that is too much |
| AbiDefaults.DefaultIsExact | crates/quai-abi/src/typed_value.rs:152-166 | a default is well typed, canonical, within depth, and has exactly the minimum number of nodes |
| AbiDefaults.DefaultsRoundTrip | crates/quai-abi/src/typed_value.rs:111-128 | accepted defaults decode back to themselves |
| AbiPacked.SolidityPacked | crates/quai-abi/src/packed.rs:17-38 | succeeds exactly on encodable values of tuple-free types; its output is the specified bytes, of the measured length and never longer than the canonical encoding |
| AbiPacked.PackedIsShorter | crates/quai-abi/src/packed.rs:17-38 | packed output is never longer than the canonical encoding |
| AbiPacked.SizeExact | crates/quai-abi/src/packed.rs:58-87 | the measured size is the length of what is written |
| AbiPacked.ScalarRecovered | crates/quai-abi/src/packed.rs:100-109 | extending a packed scalar again gives its word: packing loses nothing of a scalar |
| AbiPacked.ScalarArrayPacked | crates/quai-abi/src/packed.rs:90-103 | a fixed array of scalars packs to its canonical encoding |
| AbiPacked.Write | crates/quai-abi/src/packed.rs:88-112 | appends exactly the packed form |
| ProtoWalkers.Preflight | crates/quai-consensus/src/lib.rs:117-179 | the budgeted walk computes the specified message count and errors |
| ProtoWalkers.ReadVarint | crates/quai-consensus/src/lib.rs:119-136 | reads a varint of at most ten bytes that fits 64 bits |
| ProtoWalkers.TakeField | crates/quai-consensus/src/lib.rs:137-177 | one field: key, wire type and payload |
| ProtoRoundTrip.WalkOfEncode | crates/quai-consensus/src/lib.rs:117-179 | on an encoding the walk spends exactly the number of messages in it |
| ProtoRoundTrip.MergeOfEncode | crates/quai-consensus/src/lib.rs:97-102 | merging the fields of an encoding gives the message back |
| ProtoRoundTrip.StrictDecodeImage | crates/quai-consensus/src/lib.rs:91-103 | strict decoding accepts exactly the encodings of well-formed messages within the byte and message limits |
| ProtoRoundTrip.StrictDecodeInjective | crates/quai-consensus/src/lib.rs:91-103 | no two byte strings decode strictly to the same message |
| ProtoWire.ParseOfEncode | crates/quai-consensus/src/lib.rs:137-177 | splitting encoded fields gives the fields back |
| ProtoWalkers.HasTransactionInputs | crates/quai-consensus/src/lib.rs:197-264 | the lenient walker computes the specified scan |
| ProtoWalkers.SameBoundary | crates/quai-consensus/src/lib.rs:197-264 | where the strict walker finds a field, the lenient one finds the same tag, wire type and extent |
| ProtoWalkers.ScanAgreesWithPreflight | crates/quai-consensus/src/lib.rs:197-264 | on bytes preflight accepts, the lenient walker answers true exactly when there is a top-level length-delimited field 15 |
| ProtoWalkers.ScanFlagsInputs | crates/quai-consensus/src/lib.rs:197-264 | among strictly decoded transactions it flags exactly those with an inputs field |
| QuaiTx.IntegerRoundTrip | crates/quai-consensus/src/lib.rs:73-84 | reading a minimal integer gives it back |
| QuaiTx.IntegerMinimal | crates/quai-consensus/src/lib.rs:78-84 | accepted integer bytes are the minimal spelling of their value |
| QuaiTx.ClosedFormCount | crates/quai-consensus/src/quai.rs:67-81 | the closed-form message count is the number of messages in the protobuf form |
| QuaiTx.UnsignedRoundTrip | crates/quai-consensus/src/quai.rs:36-151 | encoding a representable transaction gives the bytes if and only if strict decoding of the bytes gives the transaction |
| TxCodec.DecodeMessage | crates/quai-consensus/src/lib.rs:91-103 | size limit, budgeted walk, merge and comparison with the re-encoding |
| TxCodec.EncodeQuai | crates/quai-consensus/src/quai.rs:67-88 | computes the specified unsigned bytes |
| TxCodec.ReadQuai | crates/quai-consensus/src/quai.rs:104-151 | computes the specified reading of the protobuf form |
| TxCodec.DecodeQuai | crates/quai-consensus/src/quai.rs:95-102 | strict decoding; what it accepts re-encodes to the same bytes |
| TxCodec.CollectEntries | crates/quai-consensus/src/quai.rs:115-137 | the loop that collects the access list |
| QiTx.Validate | crates/quai-consensus/src/qi.rs:94-185 | accepts exactly the transactions with distinct outpoints of one zone, fresh change addresses, one conversion destination, and data that fits the mode, and returns the origin zone; otherwise the first error in the order of the checks |
| QiTx.CheckInputs | crates/quai-consensus/src/qi.rs:137-151 | none exactly when outpoints are distinct and of the origin zone and keys have Qi addresses there; otherwise the error of the first input at fault, a reused outpoint before a wrong scope |
| QiTx.CheckOutputs | crates/quai-consensus/src/qi.rs:152-184 | none exactly when no Qi address is reused and there is one conversion destination, present when the mode asks for it; otherwise the error of the first output at fault, then the missing destination |
| QiTx.ValidationExact | crates/quai-consensus/src/qi.rs:94-185 | the ordered checks report no error exactly for the transactions that are valid as declared |
| QiTx.QiProtobufShape | crates/quai-consensus/src/qi.rs:103-111 | the closed-form count of three per input, one per output and three is the number of messages in the protobuf form |
| QiTx.QiUnsignedRoundTrip | crates/quai-consensus/src/qi.rs:228-333 | in every mode, encoding gives the bytes if and only if strict decoding of the bytes gives the transaction |
| QiTx.QiPayloadIsFlagged | crates/quai-consensus/src/lib.rs:197-264 | every unsigned Qi payload is flagged as carrying inputs |
| QiTx.QuaiPayloadIsNotFlagged | crates/quai-consensus/src/lib.rs:197-264 | no unsigned account payload is |
| TxCodec.ReadQi | crates/quai-consensus/src/qi.rs:238-325 | computes the specified reading, errors included; what it returns is representable and valid for the mode |
| TxCodec.DecodeQi | crates/quai-consensus/src/qi.rs:327-333 | strict decoding as specified, errors included; what it accepts is valid and re-encodes to the same bytes |
| TxCodec.CollectInputs | crates/quai-consensus/src/qi.rs:247-287 | the loop over inputs |
| TxCodec.CollectOutputs | crates/quai-consensus/src/qi.rs:288-314 | the loop over outputs |
| SocketProofs.StepKeepsInv | crates/quai-browser/src/socket.js:13-175 | every step keeps: queued bytes equal the sum of all queues and stay in bounds; pending subscribes are counted; subscriptions plus pending subscribes stay within the maximum; a waiter has an empty queue and no delivery; closed means nothing pending and every subscription in error; notifications are accounted for |
| SocketProofs.StepKeepsOnce | crates/quai-browser/src/socket.js:41-127 | every step keeps the ledger: each request is pending or settled once, with an error or a frame carrying its own id, and recorded outcomes never change |
| SocketRuns.RunInvariants | crates/quai-browser/src/socket.js:13-200 | both hold in every state of every run |
| SocketRuns.NotificationsInOrder | crates/quai-browser/src/socket.js:90-97 | over every run, acknowledged notifications are a gap-free prefix of those received, and without an error received equals acknowledged, then in delivery, then queued |
| SocketRuns.SubscriptionContinues | crates/quai-browser/src/socket.js:129-157 | over every run, what a subscription received and acknowledged only grows, and its error is final |
| SocketRuns.NothingLostSilently | crates/quai-browser/src/socket.js:17-26 | over every run in which a subscription stays registered, it ends in error or everything it held is still acknowledged, in delivery or queued, in the same order |
| SocketRuns.LossIsReported | crates/quai-browser/src/socket.js:92-97 | over every run, from a notification that does not fit or a caller that leaves after delivery on, the subscription's error is lagged for as long as it stays registered, each call for the next notification is refused, and nothing more is acknowledged |
| SocketRuns.SettlesOnce | crates/quai-browser/src/socket.js:102-127 | over every run, a settled request keeps its one outcome |
| SocketRuns.ClosedSettlesAll | crates/quai-browser/src/socket.js:27-38 | over every run, a closed session stays closed and has settled every request ever made |
| SocketRuns.LateReplyIsIgnored | crates/quai-browser/src/socket.js:75-79 | over every run, a reply to a request that has settled changes nothing |
| SocketRuns.FailedSubscribeCloses | crates/quai-browser/src/socket.js:115-175 | over every run, a request that is no longer pending has one outcome; when a subscribe failed after it was sent, or an unsubscribe was not confirmed by the result true, the session is closed |
| SocketSession.Session.constructor | crates/quai-browser/src/socket.js:54-55 | a fresh session: nothing pending, next id 1, both invariants hold |
| SocketSession.Session.ClearQueue | crates/quai-browser/src/socket.js:13-16 | the byte counter falls by exactly the sizes of the queue's frames |
| SocketSession.Session.End | crates/quai-browser/src/socket.js:17-26 | an error-free subscription gets the error, loses queue, waiter and delivery, and gives its bytes back; one that has an error only loses its delivery |
| SocketSession.Session.Settle | crates/quai-browser/src/socket.js:115-123 | the request leaves the pending map with this one outcome recorded; a failed subscribe or an unconfirmed clean-up closes the session; the invariant and the ledger of outcomes are kept |
| SocketSession.Session.Shut | crates/quai-browser/src/socket.js:27-38 | every pending request fails once with the error, every subscription ends with it, both counters are zero; a closed session is left alone; invariant and ledger are kept |
| SocketSession.Session.FailPending | crates/quai-browser/src/socket.js:31-31 | every pending request, in any order, fails exactly once and the pending-subscribe counter ends at zero, though each failure would close the session |
| SocketSession.Session.EndAll | crates/quai-browser/src/socket.js:32-35 | every subscription, in any order, is ended with the error and the byte counter ends at zero |
| SocketSession.Session.OnFrame | crates/quai-browser/src/socket.js:70-99 | an oversized or malformed frame closes the session, others go to reply or notification handling; invariant and ledger are kept |
| SocketSession.Session.OnReply | crates/quai-browser/src/socket.js:75-89 | an id never issued closes the session, a settled one is ignored, a subscribe reply registers a well-formed unused id before it settles |
| SocketSession.Session.OnNotice | crates/quai-browser/src/socket.js:90-97 | the frame goes to the waiter, to the end of the queue, or ends the subscription as lagged, and is recorded as received |
| SocketSession.Session.DrawId | crates/quai-browser/src/socket.js:41-46 | the counter's value, never used by a request before, and the counter moves on; refused when closed or past the last safe integer |
| SocketSession.Session.Submit | crates/quai-browser/src/socket.js:102-128 | the first applicable refusal, or the request is entered; a failing send settles it and closes; a request with a new id keeps the ledger |
| SocketSession.Session.CallNext | crates/quai-browser/src/socket.js:129-157 | what is handed out is the first notification received and not yet acknowledged; otherwise a wait or the first applicable refusal |
| SocketSession.Session.StopWait | crates/quai-browser/src/socket.js:146-153 | only the waiter flag is cleared: no notification is lost |
| SocketSession.Session.Abandon | crates/quai-browser/src/socket.js:138-141 | a delivery that was not acknowledged ends the subscription as lagged; without one nothing changes |
| SocketSession.Session.AcknowledgeNotification | crates/quai-browser/src/socket.js:195-200 | succeeds exactly with a delivery and no error, and then the acknowledged prefix of the received notifications grows by one |
| SocketSession.Session.ForgetSubscription | crates/quai-browser/src/socket.js:158-161 | the subscription is ended and removed with its history, and its bytes are given back |
| SocketSession.Session.DropSubscription | crates/quai-browser/src/socket.js:162-175 | the subscription is forgotten; then an unsubscribe is on its way or the session is closed; invariant and ledger are kept |
| SocketClient.PermitsAreCalls | crates/quai-browser/src/socket.rs:88-99 | over every client run, the permit counter is the number of calls in flight and within its maximum, every call in flight is pending or settled, and what is pending beyond the calls are clean-up requests |
| SocketClient.ClientStepKeepsInv | crates/quai-browser/src/socket.rs:159-198 | starting, returning, failing and dropping of calls keep both session invariants, give each permit back exactly once, and leave every request with its call |
| SocketClient.ClientRefinesSession | crates/quai-browser/src/socket.rs:159-198 | every client run is a session run that passes through the client's session states in order, so whatever holds over session runs holds under every client |
| SocketClient.UnsubscribeBegins | crates/quai-browser/src/socket.rs:291-309 | the subscription is gone at once, and the call awaits its reply or the session is closed |
| SocketClient.UnsubscribeCompletes | crates/quai-browser/src/socket.rs:291-320 | over every client run, an explicit unsubscribe that has returned or was dropped leaves the session closed, the node's confirmation, or the clean-up request its drop made, pending or confirmed |
| SchemaSearch.Search.Visit | crates/quai-abi/src/schema.rs:260-290 | a successful visit leaves a correct cache with the type in it; otherwise the error is that of the search in ascending order of the children, and it is a cycle only where there is one and the limit only where a path without repetition is too long |
| SchemaSearch.Search.VisitChildren | crates/quai-abi/src/schema.rs:276-286 | the loop over the children in ascending order gathers exactly what they reach and the longest path, or stops at the first obstacle |
| SchemaSearch.Closures | crates/quai-abi/src/schema.rs:212-216 | succeeds on all types exactly when no path is longer than the limit, and each cached set is then exactly the types reached; otherwise reports the first obstacle of the ascending search: always the limit in a graph without cycles, always a cycle where no path without repetition is too long |
| SchemaGraph.BoundedIsAcyclic | crates/quai-abi/src/schema.rs:259-290 | a bound on path length already excludes cycles |
| SchemaGraph.UnboundedExactly | crates/quai-abi/src/schema.rs:259-290 | paths exceed the limit exactly when there is a cycle or a path that is too long before it repeats anything |
| SchemaGraph.RootReachesAll | crates/quai-abi/src/schema.rs:217-224 | with exactly one unreferenced type, the types it reaches are all the others, so the later reachability check cannot fail |
| SchemaCompiler.Compile | crates/quai-abi/src/schema.rs:134-238 | compiles exactly the schemas of 1 to 128 types with struct names, distinct field identifiers, valid expressions of declared types, bounded sizes, bounded paths and one root; every cached type string is the canonical one; the error is the first fault of the declarations, then the first obstacle of the search, then a missing root |
| SchemaDeclarations.RootListsEverything | crates/quai-abi/src/schema.rs:225-232 | the type string of the root lists every declared type exactly once |
| SchemaDeclarations.TypeStringUnique | crates/quai-abi/src/schema.rs:225-232 | there is only one canonical type string |
| SchemaDeclarations.TypeStringDetermines | crates/quai-abi/src/schema.rs:225-232 | two schemas with the same root type string are the same schema with the same root: names, field order and type expressions can be read off the string |
| SchemaDeclarations.DeclaredExactly | crates/quai-abi/src/schema.rs:134-211 | the checks of names, sizes and fields find no fault exactly in well-declared schemas |
| SchemaText.ExpressionExact | crates/quai-abi/src/schema.rs:54-130 | a type expression is accepted with a base and dimensions if and only if it is their printed form, within 256 bytes, 16 suffixes and the node limit; so no two texts denote the same type |
| SchemaText.ParseExpression | crates/quai-abi/src/schema.rs:95-130 | the loop over array suffixes computes that reading, errors included |
| SchemaCompiler.Resolve | crates/quai-abi/src/schema.rs:167-211 | dependencies, references and own declarations of all types, or the error of the first field at fault in ascending order of the types |
| SchemaCompiler.CheckNames | crates/quai-abi/src/schema.rs:141-166 | names and running totals of fields and bytes, with the error of the first type at fault in ascending order |
| SchemaCompiler.ReadFields | crates/quai-abi/src/schema.rs:171-201 | one type's dependencies and own declaration, or the error of its first field at fault |
| SchemaCompiler.Finish | crates/quai-abi/src/schema.rs:217-238 | succeeds exactly with one unreferenced type, which then reaches all others, and caches every canonical type string |
| SchemaCompiler.Render | crates/quai-abi/src/schema.rs:225-232 | own declaration, then the dependencies in ascending order |
| SchemaOrder.InOrder | crates/quai-abi/src/schema.rs:227-229 | ascending iteration over a set of names |
| SnapshotStore.Database.CompareExchange | crates/quai-browser/src/storage.js:61-101 | commits exactly when every key names its current revision, is readable, is not at the last revision, there is room and the browser carries it through; then every key moves to its next revision, otherwise nothing changes and the one error is that of the arguments, else of the first key at fault or not reached, else of the browser |
| SnapshotStore.Database.Check | crates/quai-browser/src/storage.js:62-73 | none exactly for well-formed batches of open handles of one database with distinct keys and bounded sizes; otherwise the error of the first entry at fault |
| SnapshotStore.Database.Stage | crates/quai-browser/src/storage.js:83-98 | succeeds exactly when every key matches, there is room and the browser reads all keys, with all next revisions; otherwise the error of the first key at fault or not reached |
| SnapshotStore.AfterMeaning | crates/quai-browser/src/storage.js:61-101 | a batch changes all its keys by one revision and nothing else, or changes nothing |
| SnapshotStore.KeyMoves | crates/quai-browser/src/storage.js:90-94 | a key keeps its record or its revision rises by exactly one |
| SnapshotStore.RevisionNamesOneValue | crates/quai-browser/src/storage.js:31-36 | over any interleaving, a key and a revision never name two values, tombstones included |
| SnapshotStore.NoDoubleCommit | crates/quai-browser/src/storage.js:90-94 | over any interleaving, two batches that expect the same revision of a key cannot both commit |
| SnapshotStore.AlwaysGood | crates/quai-browser/src/storage.js:84-92 | over any interleaving, at most 2048 keys are stored and every revision stays in range |
| PaymentChannel.Search | crates/quai-payments/src/channel.rs:49-94 | computes the specified search and reports honestly: everything before the reported point was examined and did not match |
| PaymentChannel.LeastMatch | crates/quai-payments/src/channel.rs:62-94 | a match that is returned is the least from the start |
| PaymentChannel.Resumes | crates/quai-payments/src/channel.rs:49-94 | when a search was cut off, a second call from where it stopped reports what one longer call from the start would have reported, attempts added up, however the second call itself ends |
| PaymentChannel.ZoneIndexInjective | crates/quai-payments/src/channel.rs:284-287 | different zones have different cursors |
| PaymentChannel.Channel.constructor | crates/quai-payments/src/channel.rs:117-125 | all cursors start at zero |
| PaymentChannel.Channel.AdvanceCursor | crates/quai-payments/src/channel.rs:195-218 | moves one cursor forward or refuses |
| PaymentChannel.Channel.ReserveNext | crates/quai-payments/src/channel.rs:225-266 | searches from the cursor and moves it past everything examined; a derivation error leaves it |
| PaymentChannel.NeverBack | crates/quai-payments/src/channel.rs:195-266 | over any sequence of calls a cursor never moves back and an exhausted one stays exhausted |
| PaymentChannel.ReservedIncrease | crates/quai-payments/src/channel.rs:225-266 | over any sequence of calls reserved indices strictly increase |
| PaymentChannel.SkippedWereExamined | crates/quai-payments/src/channel.rs:225-266 | without outside advances every index passed was handed out or examined without a match, however budgets and cancellations cut the searches |
| Discount.InRange | crates/quai-consensus/src/conversion.rs:307-326 | a discount lies in 20 to 9000 |
| Discount.MiddleIsCeiling | crates/quai-consensus/src/conversion.rs:317-325 | between one and ten times the flow it is the exact ceiling formula, capped, and has no value exactly when ten times the flow or the scaled cube does not fit a word |
| Discount.CeilIsLeast | crates/quai-consensus/src/conversion.rs:324-324 | the ceiling is the least multiplier that covers the numerator |
| Discount.CeilingIsSmall | crates/quai-consensus/src/conversion.rs:324-325 | up to ten times the flow the ceiling is at most 10000, so the checked addition and the narrowing to 16 bits never fail |
| Discount.DefinedExactly | crates/quai-consensus/src/conversion.rs:307-326 | exactly which inputs give no value: zero flow, tenfold flow overflow, or cube overflow in the middle range; the last two checks add none |
| Discount.GrowsWithTotal | crates/quai-consensus/src/conversion.rs:307-326 | where defined, it never falls as the total grows, across both branch boundaries |
| Discount.FallsWithFlow | crates/quai-consensus/src/conversion.rs:307-326 | where defined, it never rises as the flow grows |

## Left out

- SocketSession.Session.Submit: `bufferedAmount`, an aborted signal and a throwing `send` are parameters.
- SnapshotStore.Database.CompareExchange: whether the browser gives up, and after how many keys, is a parameter of the batch.
- PaymentChannel.Search: the cancellation callback is the number of polls after which it first answers yes.
- SchemaCompiler.Compile: type hashes are left out, as Keccak of the type strings.
- QiTx.Validate: the text inside a field error is not modelled; the kind of error is.
- Opening of a socket, `acknowledgeSocket` and `acknowledgeSubscription`: they only decide whether a close happens, and a close can happen at any step.
- Parsing of frames and replies: frames arrive parsed, and how the client reads a reply is any function of the frame.
- Signing, transaction ids and signed payloads: they rest on opaque cryptography.
- EIP-712 value encoding, human-readable ABI fragments, named results, artifacts and documents: string and JSON plumbing around the core.
- Wallet prompts, HTTP, timers, storage opening and version changes: input and output.
- Conversion hold windows and other single-branch limits: each is decided by one comparison.
