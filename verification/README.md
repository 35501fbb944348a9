# signal-frame: a verified model

`signal-frame` is one pipeline. A channel declaration is parsed, validated and rewritten by a macro; the macro emits an
operation enum with its routing, dispatch, stream witnesses, text codec and observer set; frames carry those operations
under a packed header and a length prefix; a thin command-line client sends one request and accepts one reply. This
project models each stage and proves what holds of it, and then of the stages together.

## How it is laid out

| file | stage |
|---|---|
| `Bytes.dfy`, `Text.dfy`, `Wrappers.dfy` | integers as bytes, searching and splitting text, result types |
| `Binding.dfy`, `Frame.dfy` | contract binding, short header, length prefix, guarded decoding |
| `Channel.dfy`, `Validation.dfy` | the declaration's data and what the macro accepts |
| `Augment.dfy`, `Desugared.dfy`, `RewrittenCodec.dfy` | the observable rewrite, what it amounts to written out, and what its enums decode |
| `Arms.dfy`, `Witness.dfy`, `Dispatch.dfy` | emitted `match` blocks, stream witnesses, routing and the dispatch gate |
| `Observers.dfy` | the emitted observer set |
| `Grammar.dfy`, `Parser.dfy`, `Printing.dfy` | the declaration grammar, the cursor parser, printing and block order |
| `NonEmpty.dfy`, `Messages.dfy` | non-empty sequences, requests, replies, frame bodies |
| `TextCodec.dfy` | the DOTOS codec on block trees, request heads and socket routing |
| `Client.dfy` | reading frames off a stream and accepting a reply |
| `EnvironmentStem.dfy`, `ProcessStat.dfy` | two string routines of the client |
| `EndToEnd.dfy` | the stages composed |

## How the code is read

- An emitted `match` is a list of arms indexed by the specification, and the first arm that matches is taken. A value of
  an emitted enum is the variant it was built with and its payload, so every theorem ranges over all declarations.
- Words are bounded integers. The header's shifted fields never overlap, so their bitwise or is written as a sum, and
  the mask test of `WireRoute::try_from_log_variant` as a bound. `index as u8` and `kind as u8` are remainders.
- The rkyv body codec is a pair of functions; where a round trip is claimed it is assumed that what was serialized
  deserializes to itself. The DOTOS payload codecs are treated in the same way.
- A DOTOS text is the block tree its lexer makes of it. Only atoms read as strings, only delimited blocks have parts,
  and a delimited block's first part is its `root_object_at(0)`.
- A Rust type is one token: a word, or a tree standing for anything longer. Types are compared by their text, as the
  validator does.
- The client prints replies and never reads them; reading them back is taken to be what `Request` does with operations,
  a bracket as a list and anything else as one.
- A closure passed to be called (`decoder`, `deliver`) is an object that records its calls. The handler is an object with
  the contract author's handling function and its state.
- A socket is the bytes the peer will still deliver before it closes.
- The two frame body enums are one datatype; an exchange-only channel never builds the subscription-event constructor.

## What turned out not to hold

- Routing is by one byte. The validator does not bound the number of operations, and an operation at index 256 or later
  builds a frame that its own channel refuses, reporting two equal bytes (`RequestFrameVerdict`). All operations are
  admitted exactly when there are at most 256 (`AllOperationsAdmittedIff`), acceptable declarations have any number
  (`ManyOperationsAccepted`), and the injected `Tap` and `Untap` take two of them (`ObserverVerbsAdmittedIff`).
- Streams may share a close operation; then `closed_stream` names the first and never the later one
  (`SharedCloseIsAccepted`, exact condition in `CloseReportsStream`). The validator does not ask for distinct stream
  names (`RepeatedStreamIsAccepted`); the emitter then declares `StreamKind` with a variant twice
  (`macros/src/emit.rs:648-705`), so what such a declaration expands to does not compile.
- A request head can route a block that no contract can decode: `[[(Name payload)]]` does, when exactly one of the two
  contracts has an operation `Name` (`NestedBracketsRouteOnly`). Which blocks decode, and as which request, is
  `RequestDecodesIffSpelled`; which of them reach a handler once routed is `TypedRequestArrives`.
- Live observer tokens can coincide: when one subscriber outlasts 2^64 - 1 others, the next is issued its token and one
  unregistering drops both (`WrapCollides`). Live tokens are distinct exactly when no two live registrations are a
  multiple of 2^64 apart (`LiveTokensDistinctIff`).
- The rewrite can make a refused declaration acceptable (`RewriteCanHideARefusal`), so validating the original matters.
  An acceptable rewriting comes from a refused declaration exactly when that has a name collision, streams without an
  event block or the reverse, or a reference to something injected (`RewriteAcceptanceExact`).

Every declaration exhibited here is one that can be written (`ManyOperationsAccepted`, `ExhibitedDeclarationsParse`).

Where documentation and code differ, the code is modelled: `macros/README.md:53-55` speaks of a projected record-head
uniqueness check, while the validator compares only event payload heads with the two observable records; and
`src/log_variant.rs:9-10` describes discriminators in bytes 1 to 7, while the emitted `log_variant` writes byte 0 alone.

## Model

| member | source | states |
|---|---|---|
| `Binding.RouteFromLogVariant` | src/binding.rs:137-145 | a log variant is a route exactly when nothing above its low sixteen bits is set, and the two bytes then make it up |
| `Frame.Bound` | src/frame.rs:26-33 | packing a binding and a route gives a valid header from which both are read back |
| `Frame.HeaderIsItsParts` | src/frame.rs:43-58 | every valid header is the packing of its own binding and route, so the correspondence is one to one |
| `Frame.ValidateRaw` | src/frame.rs:79-86 | raw bits are kept when accepted, and refused only when the contract or the revision is zero |
| `Frame.HeaderFieldBytes` | src/frame.rs:60-73 | on the wire the contract is bytes 0-3 and the revision bytes 4-5, least significant first, the variant byte 6 and the root byte 7 |
| `Frame.BoundHeaderBytes` | src/frame.rs:26-73 | the header a binding and a route are packed into is written with the contract first, least significant byte first, then the revision, the variant byte and the root byte |
| `Frame.StripInvertsPrefix` | src/frame.rs:218-242 | stripping bytes yields an archive exactly when prefixing the archive yields the bytes |
| `Frame.StripOutcome` | src/frame.rs:229-242 | an archive is accepted exactly when four bytes, most significant first, spell its length; otherwise which error |
| `Frame.LengthPrefix` | src/frame.rs:218-227 | the framed buffer opens with the archive's length, most significant byte first, strips back to the archive, and is refused exactly past the u32 limit |
| `Frame.ShortHeaderFromArchive` | src/frame.rs:244-251 | the word read has the first eight bytes as its little-endian bytes |
| `Frame.EncodeFrameArchive` | src/frame.rs:257-266 | an archive opens with its header and goes on with the serialized body |
| `Frame.WireImage` | src/frame.rs:218-266 | what each byte of an encoded frame holds, from the length down to the body archive, and exactly when and why there is no encoding |
| `Frame.GuardOutcome` | src/binding.rs:76-92 | which guard refuses, by the raw bytes: size, zero identifiers, contract, revision; the body passes exactly when none does |
| `Frame.DecodeGuarded` | src/frame.rs:273-283 | a refusal by the raw bytes is reported with the decoder not called; otherwise the decoder runs once on the body bytes and its answer is returned |
| `Frame.DecodeLengthPrefixedGuarded` | src/frame.rs:285-292 | a bad prefix is reported with the decoder not called; otherwise the guards decide on the stripped archive and the decoder gets its body bytes once exactly when they pass |
| `Frame.DecodeOutcome` | src/frame.rs:341-351 | every archive decodes to the guard's refusal, the deserializer's, or a frame under the route in its bytes |
| `Frame.DecodedHeaderIsCanonical` | src/frame.rs:341-351 | a decoded frame's header bytes are the first eight bytes read, although it is rebuilt from the route |
| `Frame.FrameRoundTrip` | src/frame.rs:302-351 | an encoded frame decodes to itself under its contract |
| `Frame.LengthPrefixedRoundTrip` | src/frame.rs:306-356 | the same through the length prefix |
| `Frame.ForeignFrameNeverReachesDecoder` | src/binding.rs:76-92 | under any other binding an encoded frame is refused before its body is read, by contract first and then by revision |
| `NonEmptySeq.FromSeqInvertsToSeq` | src/non_empty.rs:27-33 | construction fails on the empty vector alone and otherwise inverts listing the values |
| `NonEmptySeq.TryFromVec` | src/non_empty.rs:27-33 | removing the head in place leaves a value listing the vector |
| `NonEmptySeq.NonEmptyIterator.Next` | src/non_empty.rs:104-109 | yields the first value that remains and keeps the others |
| `NonEmptySeq.Collect` | src/non_empty.rs:55-67 | iterating to the end yields every value once in order |
| `Messages.RequestBuilder.Push` | src/request.rs:114-116 | appends one payload |
| `Messages.RequestBuilder.Build` | src/request.rs:118-126 | fails exactly when nothing was pushed, and otherwise carries the pushes in order and no caller |
| `Channel.ProjectedHeadOfPath` | macros/src/validate.rs:162-169 | a path projects to its last segment, however the separator is spaced |
| `Channel.ProjectedHeadOfName` | macros/src/validate.rs:162-169 | a bare name projects to itself |
| `Channel.ProjectedHeadIsLastSegment` | macros/src/validate.rs:162-169 | for every type, the head is what follows the last separator of its text without spaces |
| `Channel.StripSpacesDrops` | macros/src/validate.rs:162-169 | a space anywhere in the text makes no difference |
| `Validation.ValidateObservableDoesNotCollide` | macros/src/validate.rs:29-124 | success means no injected name is taken; a diagnostic is of the first collision in the order of the checks |
| `Validation.FirstDuplicate` | macros/src/validate.rs:126-136 | the growing set finds nothing exactly when the names are distinct, and otherwise the name of the first repetition |
| `Validation.ValidateVariantUniqueness` | macros/src/validate.rs:126-160 | success exactly when all three enums have distinct names; a diagnostic names the first repetition in the first enum that has one |
| `Validation.ValidateOpens` | macros/src/validate.rs:188-212 | success means every `opens` resolves and every stream is opened; a diagnostic is of the first fault in order |
| `Validation.ValidateBelongs` | macros/src/validate.rs:214-236 | success means every event belongs to a declared stream; a diagnostic is of the first event that does not, and says how |
| `Validation.ValidateStream` | macros/src/validate.rs:264-337 | success exactly when the stream's reply, events and close resolve and the token matches; a diagnostic is of the first of these that fails; no `expect` fails |
| `Validation.ValidateStreamRelations` | macros/src/validate.rs:171-340 | success exactly when the stream relations hold; a diagnostic is of the first broken one |
| `Validation.BrokenRelationRefutes` | macros/src/validate.rs:171-340 | what a relation diagnostic claims is incompatible with the relations holding |
| `Validation.Validate` | macros/src/validate.rs:10-15 | accepts exactly the well-formed specifications; a refusal is of the first failing phase and of the first fault in it |
| `Augment.AugmentWithObservable` | macros/src/emit.rs:70-167 | the pushes build the rewritten specification the lemmas below are about |
| `Augment.AugmentedNames` | macros/src/emit.rs:94-150 | the rewrite appends its names after the author's in each enum and adds one stream name |
| `Augment.AugmentKeepsStream` | macros/src/emit.rs:143-150 | each stream of the author's still resolves after the rewrite |
| `Augment.AugmentPreservesWellFormedness` | macros/src/emit.rs:62-167 | a well-formed specification is rewritten to a well-formed one, which is never validated itself |
| `Augment.EmissionNeverPanics` | macros/src/emit.rs:670-742 | the emitter's unwraps of the event block and of each `belongs` succeed on every rewritten accepted specification; it is streaming exactly when events or observation were declared |
| `Augment.RewriteAcceptanceExact` | macros/src/lib.rs:48-57 | a declaration is acceptable exactly when its rewriting is, no injected name is taken, streams and events come together, and nothing injected is referred to |
| `Augment.RewriteCanHideARefusal` | macros/src/lib.rs:53-56 | a refused specification without collisions whose rewriting would be accepted: its event belongs to the injected stream |
| `Desugared.RewriteIsWrittenOut` | macros/src/emit.rs:70-167 | a declaration with `Tap`, `Untap`, the opened reply, the two events and the observer stream written out token by token in place of the observable block reads as the rewritten specification |
| `RewrittenCodec.TapDecodesIff` | macros/src/emit.rs:99-104 | in a rewritten channel `Tap` decodes exactly from `(Tap x)` with `x` read as the filter type declared, or as the generated one |
| `RewrittenCodec.UntapDecodesIff` | macros/src/emit.rs:105-109 | `Untap` decodes exactly from `(Untap x)` with `x` read as the observer token |
| `RewrittenCodec.OpenedReplyDecodesIff` | macros/src/emit.rs:111-115 | the opened reply decodes exactly from its name and a payload of its own type |
| `RewrittenCodec.RecordDecodesIff` | macros/src/emit.rs:122-132 | each observable event decodes exactly from its name and its own record |
| `RewrittenCodec.RewriteKeepsDecoding` | macros/src/emit.rs:94-142 | the same blocks decode to each of the author's operations, replies and events before and after the rewrite |
| `Witness.WitnessesAnswerDeclarations` | macros/src/emit.rs:653-686 | `opened_stream` and `stream_kind` answer what each operation and event declares |
| `Witness.CloseReportsStream` | macros/src/emit.rs:662-667 | `closed_stream` names a stream for its close operation exactly when the first stream with that operation has its name |
| `Witness.ClosedStreamIsFirst` | macros/src/emit.rs:662-667 | for every operation, the stream reported closed is the first one it closes, and there is none exactly when it closes none |
| `Witness.SharedCloseIsAccepted` | macros/src/emit.rs:662-667 | an accepted specification with two streams closed by one operation, the second never reported |
| `Witness.RepeatedStreamIsAccepted` | macros/src/validate.rs:188-212 | repeating a stream of any accepted specification is accepted |
| `Witness.RewriteKeepsWitnesses` | macros/src/emit.rs:94-150 | no witness of the author's operations and events changes; only `Tap` opens, only `Untap` closes, and only the two records ride on the injected stream |
| `Dispatch.LogVariant` | macros/src/emit.rs:350-378 | an operation's log variant is its declaration index modulo 256 |
| `Dispatch.ComputeLogVariant` | macros/src/emit.rs:369-375 | writing byte zero of a cleared word and reading it little-endian gives the log variant |
| `Dispatch.RouteArmsDecide` | macros/src/emit.rs:510-559 | the route arms decide by declaration index; arms past 255 are shadowed |
| `Dispatch.RequestRoute` | src/request.rs:86-88 | a request's route always exists and is its first operation's index byte with variant zero |
| `Dispatch.Handler.HandleValidated` | macros/src/emit.rs:424-427 | handling is one step of the handler's state on one operation |
| `Dispatch.Handler.Dispatch` | macros/src/emit.rs:438-486 | the handler runs once on the admitted operation, and a refusal leaves it untouched |
| `Dispatch.GateOutcome` | macros/src/emit.rs:438-486 | which guard refuses, for every constructible frame; frame errors and route mismatches cannot occur |
| `Dispatch.ForeignHeaderRefused` | macros/src/emit.rs:442-445 | a header of another binding is refused as a frame error, by contract and then by revision |
| `Dispatch.HandlerReachedIff` | macros/src/emit.rs:438-486 | the handler is reached exactly by one operation under the route (its index, 0) |
| `Dispatch.RequestFrameVerdict` | macros/src/emit.rs:769-776 | a built request frame is admitted exactly when it carries one operation of index below 256; otherwise which error |
| `Dispatch.IntoFrameCarries` | macros/src/emit.rs:769-776 | an operation's own frame always exists and carries it alone, with no caller, on the exchange given, under its index byte |
| `Dispatch.CallVerdict` | macros/src/emit.rs:769-776 | that frame is admitted as the operation exactly below index 256; otherwise which error |
| `Dispatch.RewriteKeepsRootBytes` | macros/src/emit.rs:94-104 | the rewrite leaves each author's operation its index and root byte |
| `Observers.ObserverSet.Register` | macros/src/emit.rs:1138-1145 | appends a subscription; the list is the live one of the whole history; the token is new below the wrap bound |
| `Observers.ObserverSet.Unregister` | macros/src/emit.rs:1149-1153 | true exactly when the token was held, and then one subscription goes, below the wrap bound |
| `Observers.ObserverSet.PublishOperationReceived` | macros/src/emit.rs:1171-1187 | delivers to the live subscriptions of the history that admit the event, and changes nothing else |
| `Observers.ObserverSet.PublishEffectEmitted` | macros/src/emit.rs:1189-1205 | the same for committed effects |
| `Observers.RunIsLive` | macros/src/emit.rs:1128-1153 | after any history the list is what was registered and not since unregistered, in registration order |
| `Observers.LiveTokensDistinct` | macros/src/emit.rs:1138-1145 | up to 2^64 registrations the live tokens are pairwise distinct |
| `Observers.LiveTokensDistinctIff` | macros/src/emit.rs:1138-1145 | after any history the live tokens are distinct exactly when no two live registrations are a multiple of 2^64 registrations apart |
| `Observers.WrapCollides` | macros/src/emit.rs:1138-1153 | one subscriber outlasting 2^64 - 1 others that come and go shares its token with the next, and one unregistering removes both |
| `Observers.RetainRemoves` | macros/src/emit.rs:1149-1153 | retaining shortens the list exactly when the token is held, by one when tokens are distinct |
| `Observers.DeliveredOncePerPosition` | src/observable.rs:26-31 | one delivery for each admitting position, in increasing order of position |
| `Observers.AdmittingPositionsComplete` | src/observable.rs:26-31 | a position is delivered to exactly when its filter admits the event |
| `Parser.ParseRequestVariant` | macros/src/parse.rs:116-135 | the cursor method computes the grammar's operation variant |
| `Parser.ParseReplyVariant` | macros/src/parse.rs:155-170 | the same for a reply variant, with or without payload |
| `Parser.ParseEventVariant` | macros/src/parse.rs:190-208 | the same for an event variant |
| `Parser.ParseOperations` | macros/src/parse.rs:40-47 | the push loop reads the grammar's comma-separated list |
| `Parser.ParseReplyBlock` | macros/src/parse.rs:137-153 | the cursor method computes the grammar's reply block |
| `Parser.ParseEventBlock` | macros/src/parse.rs:172-188 | the same for the event block |
| `Parser.ParseEventSlots` | macros/src/parse.rs:225-230 | the peek loop reads the grammar's event slots |
| `Parser.ParseStreamBlock` | macros/src/parse.rs:210-247 | the same for a stream block |
| `Parser.ParseObservableBlock` | macros/src/parse.rs:249-309 | the same for the observable block |
| `Parser.ParseBlocks` | macros/src/parse.rs:54-81 | the block loop reads the grammar's blocks, with its duplicate errors |
| `Parser.ParseChannel` | macros/src/parse.rs:30-97 | the whole parser computes the grammar |
| `Printing.ListReadsBack` | macros/src/parse.rs:42-47 | a variant list reads back from its print with or without a trailing comma |
| `Printing.AddSectionsOutcome` | macros/src/parse.rs:59-81 | reading blocks succeeds exactly when only streams repeat, and keeps each kind in order |
| `Printing.ParseInvertsPrint` | macros/src/parse.rs:30-309 | every printable specification reads back from its print in every comma style |
| `Printing.ParserAcceptsExactly` | macros/src/parse.rs:30-309 | the parser yields a specification exactly from the token lists that are its header, its operations with or without a last comma, and blocks in some order that assemble to it |
| `Printing.ParserImage` | macros/src/parse.rs:30-309 | the printable specifications are exactly those the parser produces |
| `Printing.RefusedForBlocks` | macros/src/parse.rs:54-96 | a written declaration is refused for the first kind of block that may not be repeated and is, else for a missing reply block, and otherwise read |
| `Printing.StreamWithoutEvents` | macros/src/parse.rs:225-236 | a stream block whose opened reply is followed by no event is refused for that |
| `Printing.IncompleteObservable` | macros/src/parse.rs:249-309 | which of its three declarations an observable block is refused for lacking, in order, or for going on after them |
| `Printing.BlockOrderIrrelevant` | macros/src/parse.rs:54-96 | permuting blocks with streams kept in order changes neither acceptance nor the result; acceptance needs one reply, at most one event block and at most one observable block |
| `TextCodec.EnumRoundTrip` | macros/src/emit.rs:834-919 | every value of an emitted enum, unit or carrying, decodes from its encoding |
| `TextCodec.DecodesIffSpelled` | macros/src/emit.rs:886-917 | the blocks that decode to a value are exactly those that spell it under a declared kind |
| `TextCodec.EnumRefusals` | macros/src/emit.rs:886-917 | which error a block that spells no value gets, in the order the decoder looks at it |
| `TextCodec.UnknownVariantsNameTheirEnum` | macros/src/emit.rs:834-840 | an unknown variant of an operation, reply or event is reported under that enum's own name |
| `TextCodec.RequestDecodesIffSpelled` | src/request.rs:159-186 | the blocks that decode to a request are exactly those that spell its one operation bare, or its operations one for one in a bracket; the caller is never read |
| `TextCodec.RequestRefusals` | src/request.rs:159-186 | a request is refused as its first undecodable operation is, or for being an empty bracket |
| `TextCodec.OperationRoundTrip` | macros/src/emit.rs:834-919 | an operation decodes from its block, which is never a bracketed sequence |
| `TextCodec.RequestRoundTrip` | src/request.rs:141-187 | every request of an accepted channel is written bare when it carries one operation and otherwise as a bracket with one block for each, in order, and decodes from that with the caller dropped |
| `TextCodec.RepliesRoundTrip` | src/command_line.rs:768-779 | what is printed for the replies of an accepted channel, unit or carrying, reads back: bare for one, and a bracket with one block for each of several |
| `TextCodec.RepliesReadOnce` | src/command_line.rs:768-779 | no printed text reads as two different lists of replies |
| `TextCodec.HeadExact` | src/command_line.rs:420-437 | a block has a head exactly when a name, alone or first in parentheses or braces, stands first within any number of brackets; an empty innermost bracket is the one other error |
| `TextCodec.HeadAgreesWithDecoding` | src/command_line.rs:420-437 | a block that decodes has its first operation's name for a head, among the contract's heads |
| `TextCodec.RoutingAgreesWithDecoding` | src/command_line.rs:197-211 | routing picks the contract that decodes unless both have the head, and never one that does not decode while the other does |
| `TextCodec.NestedBracketsRouteOnly` | src/command_line.rs:420-437 | a doubly bracketed operation that one contract alone has is routed there by its head, and neither contract decodes it |
| `Client.ByteStream.ReadFrom` | src/command_line.rs:713-736 | reads the frame the prefix counts, most significant byte first, and leaves the bytes after it |
| `Client.ReaderNeverMiscounts` | src/command_line.rs:729-735 | the decoder is given exactly the bytes its own length check wants |
| `Client.ReadOutcome` | src/command_line.rs:713-736 | what is made of every stream: closed early, too large before the body is awaited, closed within the body, refused by the decoder, or a frame and what follows it |
| `Client.ReadsEncodedFrame` | src/command_line.rs:713-736 | an encoded frame is read whole exactly when its archive is within the limit, and is too large otherwise |
| `Client.StreamRoundTrip` | src/command_line.rs:713-736 | frames written back to back are read back, all of them and nothing else |
| `Client.ReadsAllIffFramed` | src/command_line.rs:713-736 | over all byte streams, reading to the end yields exactly the frames the stream consists of, each delivered by the bytes its prefix counts |
| `Client.CollectReplyPayloads` | src/command_line.rs:738-766 | the push loop yields every payload, or the first refusal |
| `Client.PayloadsIffAllDone` | src/command_line.rs:738-766 | payloads come out exactly when the reply is accepted and each sub-reply is done, one for one; the empty case cannot arise |
| `Client.RefusedReply` | src/command_line.rs:571-588 | which error a frame that is no finished reply to the exchange gets |
| `Client.AwaitReply` | src/command_line.rs:693-695 | reading, matching the exchange and collecting give the client's verdict on what arrives |
| `Client.ClientAcceptsIff` | src/command_line.rs:678-766 | over all byte streams, payloads are returned exactly for a frame of the contract that replies to the client's exchange with every operation done |
| `EnvironmentStem.FromBinaryName` | src/command_line.rs:330-347 | the loop equals joining `PERSONA` and the upper-cased alphanumeric runs by underscores |
| `EnvironmentStem.StemParts` | src/command_line.rs:330-347 | splitting the stem at underscores gives `PERSONA` and the upper-cased runs, letter for letter |
| `EnvironmentStem.StemIsClean` | src/command_line.rs:330-347 | the stem has no doubled, leading or trailing underscore and starts with `PERSONA` |
| `ProcessStat.StatFieldsAfterName` | src/caller.rs:149-153 | for every process name the fields counted are those after it |
| `ProcessStat.ParseExact` | src/caller.rs:152 | a field parses to a number exactly when it is its decimal digits, with any zeros and at most a plus sign before them, and below 2^64 |
| `ProcessStat.NoNameNoTicks` | src/caller.rs:150 | a line with no closing parenthesis before a space has no start time |
| `ProcessStat.StartTimeIsRead` | src/caller.rs:149-153 | a decimal u64 in the twentieth of them is what is returned |
| `EndToEnd.ExpandSignalChannel` | macros/src/lib.rs:48-57 | expansion succeeds exactly on declarations that parse to a well-formed specification, and emits a well-formed rewriting of it; otherwise it reports the parse error or the first validation fault |
| `EndToEnd.RequestOverWire` | src/frame.rs:302-356 | a request frame survives encoding and decoding whole, or is refused for its body's serialization or size, and is then judged by its operation count and index |
| `EndToEnd.SubmitOverWire` | macros/src/emit.rs:438-486 | the bytes sent carry the request whole on its exchange; it is judged by its operation count and index: the admitted operation reaches the handler once, anything else touches nothing |
| `EndToEnd.CallOverWire` | macros/src/emit.rs:438-486 | an operation's own frame carries it on the exchange given, and it reaches the handler once as itself exactly when its index is below 256, and otherwise touches nothing |
| `EndToEnd.AuthoredOperationAdmitted` | macros/src/emit.rs:769-776 | the emitted channel frames an author's operation alone, with no caller, on the exchange given and under its declared index, decodes it so from the bytes, and admits it |
| `EndToEnd.OperationFramed` | macros/src/emit.rs:769-776 | whatever its index, an operation's frame carries it on the exchange given, and so does what its bytes decode to |
| `EndToEnd.AllOperationsAdmittedIff` | macros/src/emit.rs:510-520 | all operations are admitted exactly when there are at most 256 |
| `EndToEnd.ManyOperationsAccepted` | macros/src/validate.rs:10-15 | some declaration of any given number of operations parses and is acceptable, and past 256 some operation is refused |
| `EndToEnd.ExhibitedDeclarationsParse` | macros/src/parse.rs:30-97 | the declarations exhibited by `RewriteCanHideARefusal` and `SharedCloseIsAccepted` are ones the parser produces, and a produced one with a stream repeated is too |
| `EndToEnd.ObserverVerbsAdmittedIff` | macros/src/emit.rs:94-104 | `Tap` is admitted up to 255 operations of the author's, `Untap` up to 254 |
| `EndToEnd.SocketExact` | src/command_line.rs:197-211 | over all blocks: the socket of the one contract that declares the head, ambiguous when both declare it, unknown when neither does, and no head otherwise |
| `EndToEnd.TypedRequestArrives` | src/command_line.rs:657-676 | a typed block brings an operation to the working handler exactly when it spells it, bare or alone in a bracket, the meta contract lacks its head, its index is below 256 and its frame fits; and the same for meta |
| `EndToEnd.SubmitTypedRequest` | src/command_line.rs:657-676 | the head picks one contract; its handler takes one step on the arriving operation or none, and the other handler is untouched; a head neither or both declare is refused with both untouched; what is sent carries the caller |
| `EndToEnd.ReplyReachesClient` | src/command_line.rs:678-696 | a finished reply to the client's exchange is handed over payload for payload |
| `EndToEnd.ReplyPrintsBack` | src/command_line.rs:678-779 | a finished reply of a declared channel is received, and what the client prints of it reads as its payloads |

## Left out

- rkyv serialization and its validation, and the DOTOS lexer and printer: foreign code, taken as functions and as block trees.
- Opening, writing and flushing sockets, environment variables, reading `/proc` and request files, exit codes and message texts: input and output.
- Token spans, derives, trait bounds and the privacy of the validated-operation wrapper: matters of the Rust compiler.
- The `async` handler method is one synchronous step on the handler's state.
- Arbitrary Rust type syntax in declarations: a type is one token, so where a type ends is not modelled.
- Which of several parse errors is reported: leftover tokens inside a group are an error where they stand, while `syn` reports them after parsing; acceptance is the same.
- Parse errors carry the missing keyword and not their message and span.
- `NonEmpty` is a value, since frames carry it; its `push`, which nothing here calls, is not modelled.
- `RequestBuilder::with` and `Request::with_caller`: `with` appends as `push` does, and the caller is a field update.
- The text codecs of the observer token, opened reply and default filter, and the default filter's match: easy members of the kinds already covered.
- `Parse for RequestBlockSpec`, which the channel parser does not use, and `namespace.rs`, `identity.rs`, `version.rs`, `subscription.rs`: plain data.
- Handshake bodies are carried by frames and not interpreted.
- Allocation of lane sequences, epochs across reconnects and atomic execution: owned by other crates.
- ByteStream.ReadExact: drains the stream when it fails, where the operating system leaves that unspecified; the client drops the stream then.
