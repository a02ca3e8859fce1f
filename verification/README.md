# Verified models of ExtCheckpoint and its keyspace notification client

This project models four parts of the repository and proves what they are for.

1. **Operator-state messages.** The five generated messages (`SourceOperatorState`, `MapOperatorState`, `ReduceOperatorState`,
   `SinkOperatorState`, `VTState`) share one shape; a `Schema` says which of the fields 3 to 6 a type declares and what the
   default of field 5 is. `Wire`, `OperatorState`, `CodecProofs`, `CodecSizes` and `PackedLists` treat messages and bytes as
   values, and `WireFormat` pins them to literal tags and bytes; the wire primitives follow the Protocol Buffers "Encoding" specification (Base 128 Varints, Length-Delimited
   Records, Packed Repeated Fields, Last One Wins, Maps). `Parsing` and `Writing` are the generated loops, proved against
   those values. `Builders` has the messages and builders as objects that share lists and maps by reference, and `Sharing`
   proves that any interleaving of calls behaves as if nothing were shared. `Calls` says what each single call then does.
2. **The causal state graph.** `Chain` is the arrival rule of one operator's states as a fold over sequences. `StateNode` has
   the nodes as objects with pointers and edges; each method is specified by what it does to the pointers and edges of all
   nodes. `ChainPointers` proves that the pointers always spell out the chain, `GraphState` has a whole graph as a value that
   arrivals keep consistent, and `CausalStateGraph` proves that every graph built by `AddNode` shows such a value and is the
   fold of its log of arrivals. `KeptArrivals` says in closed form which arrivals a chain keeps, and `StuckCut` builds a graph
   on which the consistent cut never returns. The causal test is a parameter: everything holds for any test, so also for
   `isCausallyBefore` as written, which `VectorTimeStamp` shows to be false on all non-empty vectors.
3. **Event loop adapters.** `Hooks` says what a sequence of hook calls has asked for. `Libevent` is the adapter with deferred
   deletion, driven by handler entries whose callbacks call arbitrary hooks; `Adapters` has ae, libev, libuv, glib and Qt,
   and shows that all six agree.
4. **String headers.** `Sds` is the five header layouts on a byte array, with the wrap-around of each field width.

Notes for readers:

- The has-bits of messages and builders are sets of bit positions. `StateMessage.View()` and `Builder.View()` give the value
  shown by the getters; equality of values is the generated `equals`.
- `OperatorCausalStateNode` takes a vector time stamp and does not store it
  (`ExtCheckpoint/src/main/java/edu/uiuc/cs/extchk/graph/OperatorCausalStateNode.java:21-29`); the model stores it, since
  otherwise every comparison is a null pointer.
- Operator ids are integers instead of decimal strings, and upstream operators may be visited in any order.
- The comment at `keyspace-notification-c++/include/sds.h:183` promises more than the code keeps; `Sds.AllocIsAvailPlusLen`
  says exactly when it holds.
- What an event loop demands of its callers (no `event_assign` on a pending event, nothing created twice, nothing used after
  it was freed) is a precondition of the loop's model, so that the adapters are proved to meet it.
- A method that touches an adapter object requires the object to be live, so a run that verifies never touches a freed one.
- Ghost fields named `state`, `trace`, `store` and `repr` record the calls and the objects so far; no decision depends on them.

## Model

| member | source | states |
|---|---|---|
| `Wire.ReadWrittenInt32` | ExtCheckpoint/src/main/java/edu/uiuc/cs/extchk/operators/SourceOperatorState.java:388-395 | reading a written int32 gives it back and stops right behind it, negative values (sign-extended to ten bytes) included |
| `Wire.ReadWrittenRecord` | ExtCheckpoint/src/main/java/edu/uiuc/cs/extchk/operators/SourceOperatorState.java:388-415 | the same for a tagged record of any wire type with whatever follows it |
| `Wire.Int32RoundTrip` | ExtCheckpoint/src/main/java/edu/uiuc/cs/extchk/operators/SourceOperatorState.java:45-49 | sign extension to 64 bits followed by truncation to 32 is the identity on int32 |
| `Wire.RecordPrefix` | ExtCheckpoint/src/main/java/edu/uiuc/cs/extchk/operators/SourceOperatorState.java:39-41 | a record that can be read is read the same way when more input follows |
| `WireFormat.VarintShape` | ExtCheckpoint/src/main/java/edu/uiuc/cs/extchk/operators/SourceOperatorState.java:388-395 | a varint has seven bits per byte, least significant first, and the high bit says that more follow |
| `WireFormat.MinusOne` | ExtCheckpoint/src/main/java/edu/uiuc/cs/extchk/operators/SourceOperatorState.java:388-395 | minus one on the wire is nine bytes ff and one byte 01 |
| `WireFormat.VarintEnds` | ExtCheckpoint/src/main/java/edu/uiuc/cs/extchk/operators/SourceOperatorState.java:39-41 | a varint can be read exactly if one of the next ten bytes is below 0x80 |
| `WireFormat.IsTagOfIff` | ExtCheckpoint/src/main/java/edu/uiuc/cs/extchk/operators/SourceOperatorState.java:107-111 | which tags and payloads go together: field number at least 1, wire types 0, 1, 2 and 5 with their sizes |
| `WireFormat.RecordRead` | ExtCheckpoint/src/main/java/edu/uiuc/cs/extchk/operators/SourceOperatorState.java:39-41 | a tag is cut to 32 bits; below 8 it is refused, and otherwise its low three bits say how the payload is read |
| `WireFormat.PayloadRead` | ExtCheckpoint/src/main/java/edu/uiuc/cs/extchk/operators/SourceOperatorState.java:107-111 | wire type 0 is a varint, 1 eight bytes, 2 a length and as many bytes, 5 four bytes, any other is refused |
| `WireFormat.DelimitedRead` | ExtCheckpoint/src/main/java/edu/uiuc/cs/extchk/operators/SourceOperatorState.java:58-60 | a negative length, or one beyond the input, is refused |
| `WireFormat.IntFieldsRead` | ExtCheckpoint/src/main/java/edu/uiuc/cs/extchk/operators/SourceOperatorState.java:45-57 | after any input that parses, tag 8 sets field 1, tag 40 field 5 and tag 48 field 6, so that the last value wins, and tag 16 adds one element at the end of field 2 |
| `WireFormat.PackedFieldRead` | ExtCheckpoint/src/main/java/edu/uiuc/cs/extchk/operators/SourceOperatorState.java:58-70 | after any input that parses, tag 18 adds the elements of its block at the end of field 2; a block that does not hold whole elements is refused |
| `WireFormat.PackedElementsRead` | ExtCheckpoint/src/main/java/edu/uiuc/cs/extchk/operators/SourceOperatorState.java:65-67 | the elements of a block in order, one after the other |
| `WireFormat.InputFieldRead` | ExtCheckpoint/src/main/java/edu/uiuc/cs/extchk/operators/SourceOperatorState.java:71-83 | after any input that parses, tag 26 puts its entry into the input counts and changes nothing else |
| `WireFormat.OutputFieldRead` | ExtCheckpoint/src/main/java/edu/uiuc/cs/extchk/operators/SourceOperatorState.java:84-96 | after any input that parses, tag 34 puts its entry into the output counts and changes nothing else |
| `WireFormat.EntryFieldsRead` | ExtCheckpoint/src/main/java/edu/uiuc/cs/extchk/operators/SourceOperatorState.java:77-81 | in a map entry tag 8 is the key and tag 16 the value; both are 0 unless given, and the last one wins |
| `WireFormat.OtherFieldsRead` | ExtCheckpoint/src/main/java/edu/uiuc/cs/extchk/operators/SourceOperatorState.java:107-111 | a field that the type does not declare goes to the end of the unknown fields of its tag and changes nothing else |
| `WireFormat.MalformedRefused` | ExtCheckpoint/src/main/java/edu/uiuc/cs/extchk/operators/SourceOperatorState.java:116-120 | after any input that parses, bytes that are not a record make it malformed |
| `WireFormat.EmptyInput` | ExtCheckpoint/src/main/java/edu/uiuc/cs/extchk/operators/SourceOperatorState.java:42-44 | no input gives a message with nothing set |
| `WireFormat.TypesSay` | ExtCheckpoint/src/main/java/edu/uiuc/cs/extchk/operators/MapOperatorState.java:18 | an unset field 5 shows as 1, 2, 3 or 4 in the source, map, reduce and sink types, unset fields 1 and 6 show as 0; which type declares which fields |
| `WireFormat.EntryWritten` | ExtCheckpoint/src/main/java/edu/uiuc/cs/extchk/operators/SourceOperatorState.java:396-407 | a map entry on the wire is its tag, its length, the key behind tag 8 and the value behind tag 16 |
| `WireFormat.TagsWritten` | ExtCheckpoint/src/main/java/edu/uiuc/cs/extchk/operators/SourceOperatorState.java:390-414 | the tags that writeTo emits, in order: 8 if field 1 is set, 16 per element, 26 per input count, 34 per output count, 40 and 48 if set, then the unknown fields |
| `CodecProofs.RoundTrip` | ExtCheckpoint/src/main/java/edu/uiuc/cs/extchk/operators/SourceOperatorState.java:388-415 | parsing what is written gives an equal message, for every message type, every int32, every list, every map in every iteration order, every set of has-bits, and unknown fields |
| `CodecProofs.RoundTripExactly` | ExtCheckpoint/src/main/java/edu/uiuc/cs/extchk/operators/SourceOperatorState.java:107-111 | the round trip holds if and only if the message is canonical: no undeclared field set, no declared tag or empty list among the unknown fields |
| `CodecProofs.MisplacedFieldIsMoved` | ExtCheckpoint/src/main/java/edu/uiuc/cs/extchk/operators/SourceOperatorState.java:107-111 | a message with field 1 among its unknown fields is not what comes back |
| `CodecProofs.ReparseIsIdentity` | ExtCheckpoint/src/main/java/edu/uiuc/cs/extchk/operators/SourceOperatorState.java:26-128 | every message that was parsed survives write-then-parse unchanged, also from input written in another way |
| `CodecProofs.ParseFromCanonical` | ExtCheckpoint/src/main/java/edu/uiuc/cs/extchk/operators/SourceOperatorState.java:26-128 | parsing only ever makes canonical messages |
| `CodecProofs.ConcatenationIsMerge` | ExtCheckpoint/src/main/java/edu/uiuc/cs/extchk/operators/SourceOperatorState.java:39-115 | if two inputs each parse, their concatenation parses to the merge of the two messages |
| `CodecProofs.ParseFromAppend` | ExtCheckpoint/src/main/java/edu/uiuc/cs/extchk/operators/SourceOperatorState.java:39-115 | parsing a concatenation is parsing the second part on top of what the first part made, failures included |
| `CodecProofs.ApplyMerge` | ExtCheckpoint/src/main/java/edu/uiuc/cs/extchk/operators/SourceOperatorState.java:41-114 | one record applied to a merged message is the record applied to the second one, merged |
| `CodecProofs.MergeSays` | ExtCheckpoint/src/main/java/edu/uiuc/cs/extchk/operators/SourceOperatorState.java:800-828 | field by field what mergeFrom leaves: an optional field is that of the other message if set there and else what it was, lists are joined, map entries of the other message override, unknown fields of a tag are joined |
| `CodecProofs.MergeIdentity` | ExtCheckpoint/src/main/java/edu/uiuc/cs/extchk/operators/SourceOperatorState.java:619-622 | the default instance is neutral on both sides of mergeFrom |
| `CodecProofs.MergeAssociative` | ExtCheckpoint/src/main/java/edu/uiuc/cs/extchk/operators/SourceOperatorState.java:800-828 | mergeFrom is associative up to equals |
| `CodecProofs.SourcePassesThrough` | ExtCheckpoint/src/main/java/edu/uiuc/cs/extchk/operators/SourceOperatorState.java:102-111 | the other operators' message types keep field 6 of a source operator's message among their unknown fields and write the same bytes again, so that it reads back unharmed |
| `CodecProofs.CommonFieldsAgree` | ExtCheckpoint/src/main/java/edu/uiuc/cs/extchk/operators/VTState.java:38-78 | what one of the five message types writes of fields 1 and 2, each of the others reads as the same message |
| `CodecSizes.UInt32SizeExact` | ExtCheckpoint/src/main/java/edu/uiuc/cs/extchk/operators/SourceOperatorState.java:418-467 | the comparison cascade of the size calculator is the length of the varint that the writer emits |
| `CodecSizes.Int32SizeExact` | ExtCheckpoint/src/main/java/edu/uiuc/cs/extchk/operators/SourceOperatorState.java:424-434 | ten bytes for negative values, the varint length otherwise |
| `CodecSizes.EntrySizeExact` | ExtCheckpoint/src/main/java/edu/uiuc/cs/extchk/operators/SourceOperatorState.java:436-445 | a map entry is as long as calculated, nested length prefix included |
| `CodecSizes.SumAnyOrder` | ExtCheckpoint/src/main/java/edu/uiuc/cs/extchk/operators/SourceOperatorState.java:436-455 | a sum over the entries of a map does not depend on the iteration order |
| `CodecSizes.SizeIsExact` | ExtCheckpoint/src/main/java/edu/uiuc/cs/extchk/operators/SourceOperatorState.java:418-467 | the calculated size is the number of bytes written, even when the two iterate over the maps in different orders |
| `PackedLists.MixtureDecodes` | ExtCheckpoint/src/main/java/edu/uiuc/cs/extchk/operators/VTState.java:38-78 | any mixture of single elements, packed blocks (also empty) and other fields decodes to the elements in order, next to what the other fields give on their own |
| `PackedLists.ChunkSays` | ExtCheckpoint/src/main/java/edu/uiuc/cs/extchk/operators/SourceOperatorState.java:50-70 | the bytes of a single element (tag 16) and of a block (tag 18, length, elements) |
| `PackedLists.AdmissibleIff` | ExtCheckpoint/src/main/java/edu/uiuc/cs/extchk/operators/SourceOperatorState.java:58-70 | which mixtures are meant: blocks below two gigabytes, other bytes that parse on their own and hold no field 2 |
| `Parsing.CodedInput.ReadTag` | ExtCheckpoint/src/main/java/edu/uiuc/cs/extchk/operators/VTState.java:39-43 | 0 exactly at the limit, an error for a malformed varint or field number 0, else the tag, using up what the value-level reader uses up |
| `Parsing.CodedInput.PushLimit` | ExtCheckpoint/src/main/java/edu/uiuc/cs/extchk/operators/VTState.java:58-60 | narrows the input to the next bytes and hands out the old limit; refuses negative and overlong lengths |
| `Parsing.ReadPackedBlock` | ExtCheckpoint/src/main/java/edu/uiuc/cs/extchk/operators/VTState.java:57-70 | reads exactly the elements of a delimited block and restores the limit |
| `Parsing.ReadMapEntry` | ExtCheckpoint/src/main/java/edu/uiuc/cs/extchk/operators/SourceOperatorState.java:71-83 | last key and last value of the entry, defaults 0, other fields skipped, limit restored |
| `Parsing.ParseField` | ExtCheckpoint/src/main/java/edu/uiuc/cs/extchk/operators/SourceOperatorState.java:41-114 | one turn of the switch: the rest of the input parses to the same result as before the turn; `WireFormat` says what each literal tag does |
| `Parsing.ParsePartialFrom` | ExtCheckpoint/src/main/java/edu/uiuc/cs/extchk/operators/SourceOperatorState.java:26-128 | the loop with its limit stack computes the value-level parse, ends at the limit and leaves the limit as it was |
| `Writing.SerializeMapTo` | ExtCheckpoint/src/main/java/edu/uiuc/cs/extchk/operators/SourceOperatorState.java:396-407 | writes every entry of the map once, in some order |
| `Writing.SizeOfMap` | ExtCheckpoint/src/main/java/edu/uiuc/cs/extchk/operators/SourceOperatorState.java:436-455 | adds up the entry sizes in some order of its own |
| `Writing.WriteTo` | ExtCheckpoint/src/main/java/edu/uiuc/cs/extchk/operators/SourceOperatorState.java:388-415 | writes the message in some iteration order, with the literal tags of `WireFormat.TagsWritten`, and every schema for which it is canonical reads it back |
| `Writing.SumOfSizes` | ExtCheckpoint/src/main/java/edu/uiuc/cs/extchk/operators/SourceOperatorState.java:422-464 | the sum over the fields is the length of what writeTo emits in any order |
| `Writing.SizedMessage.GetSerializedSize` | ExtCheckpoint/src/main/java/edu/uiuc/cs/extchk/operators/SourceOperatorState.java:417-467 | returns that length modulo 2^32, from the memo if there is one, and leaves it in the memo |
| `Builders.MessageBits` | ExtCheckpoint/src/main/java/edu/uiuc/cs/extchk/operators/SourceOperatorState.java:730-753 | builder bits 0x1, 0x10, 0x20 become message bits 0x1, 0x2, 0x4; no other bit is passed on, the list ownership bit neither |
| `Builders.StateMessage.Parsed` | ExtCheckpoint/src/main/java/edu/uiuc/cs/extchk/operators/SourceOperatorState.java:26-128 | a parsed message holds the parsed value in parts of its own, and the shared empty list where nothing was read |
| `Builders.Builder.EnsureVtIsMutable` | ExtCheckpoint/src/main/java/edu/uiuc/cs/extchk/operators/SourceOperatorState.java:888-893 | afterwards the list is writable by this builder alone: its own already, or a fresh copy |
| `Builders.Builder.MutableInputs` | ExtCheckpoint/src/main/java/edu/uiuc/cs/extchk/operators/SourceOperatorState.java:965-975 | an immutable or absent map is replaced by a fresh one with the same entries |
| `Builders.Builder.SetVt` | ExtCheckpoint/src/main/java/edu/uiuc/cs/extchk/operators/SourceOperatorState.java:917-923 | element replaced in a list of its own; an index out of range, also a negative one, changes no value |
| `Builders.Builder.Clear` | ExtCheckpoint/src/main/java/edu/uiuc/cs/extchk/operators/SourceOperatorState.java:692-705 | afterwards the builder shows the default message |
| `Builders.Builder.Perform` | ExtCheckpoint/src/main/java/edu/uiuc/cs/extchk/operators/SourceOperatorState.java:871-1262 | every setter, adder, remover and clearer changes the value shown by exactly that edit, as `Calls.OptionalFieldsSay` to `Calls.UnknownAndClearSay` say it for each edit, and writes only parts the builder owns |
| `Builders.Builder.MergeFrom` | ExtCheckpoint/src/main/java/edu/uiuc/cs/extchk/operators/SourceOperatorState.java:800-828 | afterwards the builder shows the merge of both values, as `CodecProofs.MergeSays` says it field by field; the list is adopted by reference only if it was empty |
| `Builders.Builder.Build` | ExtCheckpoint/src/main/java/edu/uiuc/cs/extchk/operators/SourceOperatorState.java:728-756 | the message shows the builder's value, has the message has-bits, and no part that either of them could still write |
| `Sharing.MessagesNeverChange` | ExtCheckpoint/src/main/java/edu/uiuc/cs/extchk/operators/SourceOperatorState.java:727-756 | among plain values no call touches an existing message |
| `Calls.NewBuilderSays` | ExtCheckpoint/src/main/java/edu/uiuc/cs/extchk/operators/SourceOperatorState.java:612-622 | a new builder shows a message with nothing set |
| `Calls.BuildSays` | ExtCheckpoint/src/main/java/edu/uiuc/cs/extchk/operators/SourceOperatorState.java:728-756 | build adds the builder's value to the messages and changes no builder |
| `Calls.ParseSays` | ExtCheckpoint/src/main/java/edu/uiuc/cs/extchk/operators/SourceOperatorState.java:26-128 | parseFrom adds the message that was read, or nothing for malformed input |
| `Calls.MergeMessageSays` | ExtCheckpoint/src/main/java/edu/uiuc/cs/extchk/operators/SourceOperatorState.java:800-828 | merging a message into a builder, field by field, with every other builder and all messages as before |
| `Calls.EditSays` | ExtCheckpoint/src/main/java/edu/uiuc/cs/extchk/operators/SourceOperatorState.java:871-1262 | an edit changes one builder and no message |
| `Calls.UndeclaredSays` | ExtCheckpoint/src/main/java/edu/uiuc/cs/extchk/operators/VTState.java:490-600 | an edit of a field that the message type does not declare does not exist, and changes nothing |
| `Calls.OptionalFieldsSay` | ExtCheckpoint/src/main/java/edu/uiuc/cs/extchk/operators/SourceOperatorState.java:871-886 | setting and clearing fields 1, 5 and 6: that field has the value or none, and every other field is as before |
| `Calls.ListSays` | ExtCheckpoint/src/main/java/edu/uiuc/cs/extchk/operators/SourceOperatorState.java:917-948 | setting an element changes that element and keeps all others, adding appends, clearing empties; every other field is as before |
| `Calls.PutInputsSays` | ExtCheckpoint/src/main/java/edu/uiuc/cs/extchk/operators/SourceOperatorState.java:1057-1075 | after putting, the input counts hold the new entries and all others that were there; every other field is as before |
| `Calls.RemoveInputsSays` | ExtCheckpoint/src/main/java/edu/uiuc/cs/extchk/operators/SourceOperatorState.java:1039-1045 | after removing, no key named is in the input counts and every other key maps as before; every other field is as before |
| `Calls.PutOutputsSays` | ExtCheckpoint/src/main/java/edu/uiuc/cs/extchk/operators/SourceOperatorState.java:1180-1198 | the same for putting into the output counts |
| `Calls.RemoveOutputsSays` | ExtCheckpoint/src/main/java/edu/uiuc/cs/extchk/operators/SourceOperatorState.java:1162-1168 | the same for removing from the output counts |
| `Calls.UnknownAndClearSay` | ExtCheckpoint/src/main/java/edu/uiuc/cs/extchk/operators/SourceOperatorState.java:692-705 | clear leaves nothing set, unknown fields neither; setting the unknown fields replaces them |
| `Sharing.World.Merged` | ExtCheckpoint/src/main/java/edu/uiuc/cs/extchk/operators/SourceOperatorState.java:800-828 | merging by reference shows what merging values shows, and keeps every other builder and message |
| `Sharing.World.Built` | ExtCheckpoint/src/main/java/edu/uiuc/cs/extchk/operators/SourceOperatorState.java:728-756 | building by sharing shows what copying shows |
| `Sharing.World.Copied` | ExtCheckpoint/src/main/java/edu/uiuc/cs/extchk/operators/SourceOperatorState.java:619-622 | toBuilder shows the message's value, and keeps every other builder and message |
| `Sharing.CopyIsOriginal` | ExtCheckpoint/src/main/java/edu/uiuc/cs/extchk/operators/SourceOperatorState.java:619-622 | toBuilder followed by build gives an equal message, whatever was built before; by `Sharing.World.RunAll` also on the shared heap |
| `Sharing.World.Read` | ExtCheckpoint/src/main/java/edu/uiuc/cs/extchk/operators/SourceOperatorState.java:540-560 | parseFrom adds the parsed message, or nothing for malformed input |
| `Sharing.World.RunAll` | ExtCheckpoint/src/main/java/edu/uiuc/cs/extchk/operators/SourceOperatorState.java:727-975 | over any interleaving of calls on any number of builders, the heap with shared lists and maps shows exactly the unshared store |
| `Sharing.World.Run` | ExtCheckpoint/src/main/java/edu/uiuc/cs/extchk/operators/SourceOperatorState.java:727-975 | copy-on-write isolation: every message that existed before still shows the same value after any run |
| `VectorTimeStamps.IsConcurrent` | ExtCheckpoint/src/main/java/edu/uiuc/cs/extchk/operators/VectorTimeStamp.java:93-115 | with its early exit: true exactly for vectors of equal length where one component is smaller and another one larger, false for different lengths |
| `VectorTimeStamps.TicksSay` | ExtCheckpoint/src/main/java/edu/uiuc/cs/extchk/operators/VectorTimeStamp.java:24-49 | ticks are compared as they are, and the next tick is counted modulo 2^32 |
| `VectorTimeStamps.ConcurrentSymmetric` | ExtCheckpoint/src/main/java/edu/uiuc/cs/extchk/operators/VectorTimeStamp.java:93-115 | concurrency is symmetric and irreflexive |
| `VectorTimeStamps.IsCausallyBefore` | ExtCheckpoint/src/main/java/edu/uiuc/cs/extchk/operators/VectorTimeStamp.java:58-75 | as written: index out of bounds exactly for two empty vectors, false for all others |
| `Chain.ArriveAtPosition` | ExtCheckpoint/src/main/java/edu/uiuc/cs/extchk/graph/AbstractOperatorCausalStateNode.java:37-81 | the recursive walk stops at the first tick not below the arrival's and appends, inserts or ignores there |
| `Chain.ArriveItems` | ExtCheckpoint/src/main/java/edu/uiuc/cs/extchk/graph/AbstractOperatorCausalStateNode.java:37-81 | the chain gains the arrival exactly when it lies beyond the last tick or its successor is linked to its predecessor and not ordered; otherwise it holds the same nodes |
| `Chain.ArriveAscending` | ExtCheckpoint/src/main/java/edu/uiuc/cs/extchk/graph/AbstractOperatorCausalStateNode.java:37-81 | one arrival keeps the chain strictly ascending |
| `Chain.ChainAscending` | ExtCheckpoint/src/main/java/edu/uiuc/cs/extchk/graph/AbstractOperatorCausalStateNode.java:37-81 | after any arrivals in any order the chain is strictly ascending (so finite and acyclic) |
| `Chain.ChainHoldsTheTaken` | ExtCheckpoint/src/main/java/edu/uiuc/cs/extchk/graph/AbstractOperatorCausalStateNode.java:37-81 | the chain holds exactly the arrivals that found a place when they came |
| `KeptArrivals.TakenIffKept` | ExtCheckpoint/src/main/java/edu/uiuc/cs/extchk/graph/AbstractOperatorCausalStateNode.java:37-81 | in ticks and order of arrival alone: an arrival finds a place if and only if it is the first, a record high, or right below an unordered record high (above every other tick so far that is below it) |
| `KeptArrivals.ChainHoldsTheKept` | ExtCheckpoint/src/main/java/edu/uiuc/cs/extchk/graph/AbstractOperatorCausalStateNode.java:37-81 | the chain holds exactly the arrivals of that closed form |
| `Chain.LinkedIffAppended` | ExtCheckpoint/src/main/java/edu/uiuc/cs/extchk/graph/AbstractOperatorCausalStateNode.java:52-60 | a parent pointer leads to the chain predecessor exactly for nodes that were appended at the end |
| `Chain.LatestIsNeverLost` | ExtCheckpoint/src/main/java/edu/uiuc/cs/extchk/graph/AbstractOperatorCausalStateNode.java:62-81 | the highest tick that ever arrived is always the last of the chain |
| `Chain.InOrderArrivals` | ExtCheckpoint/src/main/java/edu/uiuc/cs/extchk/graph/AbstractOperatorCausalStateNode.java:62-81 | ascending arrivals are all kept, in order, each linked to its predecessor |
| `Chain.AdoptionOrdersOnlyByWrapAround` | ExtCheckpoint/src/main/java/edu/uiuc/cs/extchk/graph/AbstractOperatorCausalStateNode.java:52-60 | setParent computes isOrdered as true only when id + 1 wraps around |
| `Chain.OutOfOrderArrivalIsLost` | ExtCheckpoint/src/main/java/edu/uiuc/cs/extchk/graph/AbstractOperatorCausalStateNode.java:52-60 | ticks 0, 10, 5, 3 in this order: 3 is dropped |
| `StateNodes.StateNode.SetParent` | ExtCheckpoint/src/main/java/edu/uiuc/cs/extchk/graph/AbstractOperatorCausalStateNode.java:52-60 | the pointers of all nodes afterwards: new parent, new child of the old parent, child of the new node, isOrdered; nothing else |
| `StateNodes.StateNode.OrderStateNode` | ExtCheckpoint/src/main/java/edu/uiuc/cs/extchk/graph/AbstractOperatorCausalStateNode.java:37-50 | the pointers and edges of all nodes afterwards, as a walk along the chain; returns the parent |
| `StateNodes.StateNode.TakeOverEdges` | ExtCheckpoint/src/main/java/edu/uiuc/cs/extchk/graph/AbstractOperatorCausalStateNode.java:64-75 | the new node takes over, in order, exactly the edges that pass the causal test |
| `StateNodes.StateNode.NotifyStateNode` | ExtCheckpoint/src/main/java/edu/uiuc/cs/extchk/graph/AbstractOperatorCausalStateNode.java:89-97 | terminates on every chain, changes no chain pointer, and adds an edge at the placement unless the vectors there are concurrent |
| `StateNodes.PlacementIsLongestPrefix` | ExtCheckpoint/src/main/java/edu/uiuc/cs/extchk/graph/AbstractOperatorCausalStateNode.java:89-97 | the placement is the end of the longest prefix whose members after the first all pass the causal test |
| `StateNodes.OrderHandsOver` | ExtCheckpoint/src/main/java/edu/uiuc/cs/extchk/graph/AbstractOperatorCausalStateNode.java:62-81 | an arrival adds to no list of edges but its own, and to that what the passed nodes hand over |
| `StateNodes.HandedOverSays` | ExtCheckpoint/src/main/java/edu/uiuc/cs/extchk/graph/AbstractOperatorCausalStateNode.java:62-81 | what is handed over, node by node down to the first tick not below the arrival's |
| `StateNodes.CausallyAfterSays` | ExtCheckpoint/src/main/java/edu/uiuc/cs/extchk/graph/AbstractOperatorCausalStateNode.java:64-75 | of a node's edges, those to nodes that the arrival's vector is causally before, in the order of the list |
| `StateNodes.OrderKeepsEdges` | ExtCheckpoint/src/main/java/edu/uiuc/cs/extchk/graph/AbstractOperatorCausalStateNode.java:62-81 | an arrival keeps edges leading to higher operators and happens-before pointers witnessed by edges |
| `StateNodes.NotifyKeepsEdges` | ExtCheckpoint/src/main/java/edu/uiuc/cs/extchk/graph/AbstractOperatorCausalStateNode.java:89-97 | a notification keeps them too |
| `StateNodes.CausalUpstreamDependencies` | ExtCheckpoint/src/main/java/edu/uiuc/cs/extchk/flink/dag/FlinkDataflowDAG.java:29-35 | every operator number from 0 below the given one |
| `StateNodes.StateNode.CalculateConsistentCut` | ExtCheckpoint/src/main/java/edu/uiuc/cs/extchk/graph/OperatorCausalStateNode.java:32-51 | for every size of the stack: returns if and only if the whole happens-before trail fits on the stack and no node on it is stuck; visits the trail as far as it gets and cancels if one of the visited is not ordered; on return the cut holds, per operator, the node on the trail, else the initial state for operators upstream of the start (if the trail leads upstream), else what it held before |
| `StateNodes.TrailVisitsDistinctOperators` | ExtCheckpoint/src/main/java/edu/uiuc/cs/extchk/graph/OperatorCausalStateNode.java:32-51 | the whole trail of happens-before pointers goes strictly upstream: each operator at most once, at most operator number + 1 nodes |
| `StateNodes.CutCompletesIffNeverStuck` | ExtCheckpoint/src/main/java/edu/uiuc/cs/extchk/graph/OperatorCausalStateNode.java:36-50 | with room for one call per operator, the cut returns if and only if no node on the whole trail has a happens-before pointer, a parent and two or more upstream operators |
| `StateNodes.CutCompletesIffAllVisited` | ExtCheckpoint/src/main/java/edu/uiuc/cs/extchk/graph/OperatorCausalStateNode.java:36-50 | for every size of the stack: the cut returns if and only if it visits the whole trail |
| `StateNodes.CutEndsSays` | ExtCheckpoint/src/main/java/edu/uiuc/cs/extchk/graph/OperatorCausalStateNode.java:32-51 | what the end of a cut means: visited nodes, cancel flag, when it returns, and for any operator what the cut then holds |
| `StateNodes.TrailSays` | ExtCheckpoint/src/main/java/edu/uiuc/cs/extchk/graph/OperatorCausalStateNode.java:48-49 | each node of the trail is the one that happened before the previous, and the last has none before it |
| `StateNodes.ReachedSays` | ExtCheckpoint/src/main/java/edu/uiuc/cs/extchk/graph/OperatorCausalStateNode.java:36-50 | the walk ends behind the last node, where the stack ends, or at the first node with a parent, a happens-before pointer and two or more upstream operators |
| `StateNodes.CutEntrySays` | ExtCheckpoint/src/main/java/edu/uiuc/cs/extchk/graph/OperatorCausalStateNode.java:36-47 | the cut holds the first node of the operator on the trail, else its initial state if it is upstream of a start that has a happens-before pointer, else what it held before |
| `StateNodes.StateNode.SearchOthers` | ExtCheckpoint/src/main/java/edu/uiuc/cs/extchk/graph/OperatorCausalStateNode.java:38-46 | puts the initial state of every other upstream operator, or fails with the first search: exactly if there is another operator and a parent (or no stack left) |
| `StateNodes.StateNode.FindLatestHappensBefore` | ExtCheckpoint/src/main/java/edu/uiuc/cs/extchk/graph/AbstractOperatorCausalStateNode.java:101-112 | for every size of the stack: with a parent the recursion uses up the stack, without one it finds the initial state |
| `ChainPointers.ArrivalRefinesChain` | ExtCheckpoint/src/main/java/edu/uiuc/cs/extchk/graph/AbstractOperatorCausalStateNode.java:37-81 | the child and parent pointers after an arrival spell out the chain after the arrival |
| `ChainPointers.ArrivalKeepsOtherChains` | ExtCheckpoint/src/main/java/edu/uiuc/cs/extchk/graph/AbstractOperatorCausalStateNode.java:37-81 | an arrival leaves the chains of all other operators as they are |
| `ChainPointers.ArrivalKeepsParents` | ExtCheckpoint/src/main/java/edu/uiuc/cs/extchk/graph/AbstractOperatorCausalStateNode.java:52-60 | parents stay within the operator |
| `ChainPointers.ChainIsWalkable` | ExtCheckpoint/src/main/java/edu/uiuc/cs/extchk/graph/AbstractOperatorCausalStateNode.java:37-81 | from every link the child pointers lead through the rest of the chain and end |
| `CausalGraphs.LogOneMore` | ExtCheckpoint/src/main/java/edu/uiuc/cs/extchk/graph/CausalStateGraph.java:31-40 | the chains of all operators follow the log of arrivals |
| `CausalGraphs.NextArrival` | ExtCheckpoint/src/main/java/edu/uiuc/cs/extchk/graph/CausalStateGraph.java:38-40 | a later arrival turns the pointers of all nodes into those of the updated chains |
| `GraphStates.Placed` | ExtCheckpoint/src/main/java/edu/uiuc/cs/extchk/graph/CausalStateGraph.java:33-40 | placing a new node turns a consistent graph into one whose log has one arrival more; the index gets an entry only for the first of an operator |
| `GraphStates.Notified` | ExtCheckpoint/src/main/java/edu/uiuc/cs/extchk/graph/CausalStateGraph.java:42-47 | telling an upstream operator keeps the graph consistent and changes edges only |
| `GraphStates.StateArrived` | ExtCheckpoint/src/main/java/edu/uiuc/cs/extchk/graph/CausalStateGraph.java:31-49 | joining, placing and telling together change the edges as `AddNode` says |
| `GraphStates.ArrivedSays` | ExtCheckpoint/src/main/java/edu/uiuc/cs/extchk/graph/CausalStateGraph.java:31-49 | for every node: its list gains the arrival if it was told there and loses nothing, its happens-before pointer moves exactly if the arrival took the edge over, and the arrival points to a node that was told |
| `CausalGraphs.ToldAtIff` | ExtCheckpoint/src/main/java/edu/uiuc/cs/extchk/graph/AbstractOperatorCausalStateNode.java:89-97 | who is told: the last node down the chain up to which all but the first pass the causal test, unless the vectors are concurrent |
| `CausalStateGraphs.CausalStateGraph.constructor` | ExtCheckpoint/src/main/java/edu/uiuc/cs/extchk/graph/CausalStateGraph.java:10-13 | an empty graph has an empty index and log, and is valid |
| `CausalStateGraphs.CausalStateGraph.GetNthState` | ExtCheckpoint/src/main/java/edu/uiuc/cs/extchk/graph/CausalStateGraph.java:19-25 | the n-th node of the chain, null exactly one past the end, a null pointer beyond; the head for negative n |
| `CausalStateGraphs.NthStateSays` | ExtCheckpoint/src/main/java/edu/uiuc/cs/extchk/graph/CausalStateGraph.java:19-25 | the same case by case, for every number and operator, also one without a chain |
| `CausalStateGraphs.CausalStateGraph.AddNode` | ExtCheckpoint/src/main/java/edu/uiuc/cs/extchk/graph/CausalStateGraph.java:31-49 | for any causal test, any arrival and any iteration order: chains stay the fold of the log, the index names their heads, edges stay in order, each upstream operator told adds the node to exactly one list or to none, the node takes over the edges of the nodes it passed, no other edge changes, and a missing index entry is the only failure |
| `CausalStateGraphs.CausalStateGraph.NotifyUpstream` | ExtCheckpoint/src/main/java/edu/uiuc/cs/extchk/graph/CausalStateGraph.java:42-47 | the loop tells the upstream operators in any order up to the first without an index entry |
| `CausalStateGraphs.InOrderArrivalsAreKept` | ExtCheckpoint/src/main/java/edu/uiuc/cs/extchk/graph/CausalStateGraph.java:19-49 | if an operator's states arrive in strictly ascending ticks, the n-th state is the n-th arrival, and parent and child are inverse along them |
| `CausalStateGraphs.CausalStateGraph.CalculateConsistentCut` | ExtCheckpoint/src/main/java/edu/uiuc/cs/extchk/graph/CausalStateGraph.java:56-66 | starts at the sink's third state, visits different operators going upstream, and ends as the cut from that node ends; cancelled if the chain ends right before it, a null pointer if it is shorter |
| `CausalStateGraphs.InOrderSinkOverflows` | ExtCheckpoint/src/main/java/edu/uiuc/cs/extchk/graph/OperatorCausalStateNode.java:38-49 | if the sink's states arrived in order and the third has a happens-before pointer, the cut overflows every stack |
| `StuckCuts.Overflow` | ExtCheckpoint/src/main/java/edu/uiuc/cs/extchk/graph/CausalStateGraph.java:56-66 | such a graph exists: for every causal test and every size of the stack, seven arrivals in order lead to a cut that overflows |
| `Hooks.InterestIff` | keyspace-notification-c++/include/async.h:79-86 | a direction is asked for exactly when it was added and neither removed nor cleaned up since |
| `Hooks.AskTwice` | keyspace-notification-c++/include/async.h:79-86 | asking twice in a row asks once |
| `Hooks.ReadInterest` | keyspace-notification-c++/include/async.h:79-86 | reading is asked for exactly after an addRead with no delRead and no cleanup since |
| `Hooks.WriteInterest` | keyspace-notification-c++/include/async.h:79-86 | the same for writing, and nothing else is ever asked for |
| `Hooks.LastTimeoutIs` | keyspace-notification-c++/include/async.h:85-86 | the last timeout set is the one that counts |
| `Libevent.EverEffectiveIff` | keyspace-notification-c++/include/adapters/libevent.h:82-104 | nothing is asked for until the first hook that adds a direction or sets a timeout |
| `Libevent.LibeventEvents.Update` | keyspace-notification-c++/include/adapters/libevent.h:82-104 | a request that changes nothing leaves the event alone; any other registers the new flags, persistently, with the present timeout, on a non-pending event |
| `Libevent.LibeventEvents.Request` | keyspace-notification-c++/include/adapters/libevent.h:106-144 | after every hook the event, if pending, has the socket, the flags asked for plus EV_PERSIST, no timeout exactly if the last one set is zero in seconds and microseconds, and else that one; it is pending from the first effective hook on |
| `Libevent.LibeventEvents.SetTimeoutTo` | keyspace-notification-c++/include/adapters/libevent.h:138-144 | keeps the flags, also when there are none, and registers them with the new timeout, none exactly if both seconds and microseconds are zero |
| `Libevent.LibeventEvents.CleanUp` | keyspace-notification-c++/include/adapters/libevent.h:122-136 | frees the event; frees the object at once outside of the handler and marks it deleted inside |
| `Libevent.LibeventEvents.Handler` | keyspace-notification-c++/include/adapters/libevent.h:53-80 | the timeout callback's hooks come first, then those of read, then those of write, each exactly if its flag is among the events; a callback that cleans up is the last, and then the object is freed, else it is idle again and registered as asked |
| `Libevent.Attach` | keyspace-notification-c++/include/adapters/libevent.h:146-174 | refuses where something is attached already, else attaches a fresh idle object with nothing registered |
| `Libevent.Run` | keyspace-notification-c++/include/adapters/libevent.h:53-144 | in every run the object is freed exactly once if some hook was a cleanup and never otherwise, and until then the event is registered as asked |
| `Libevent.RunSays` | keyspace-notification-c++/include/adapters/libevent.h:53-144 | the hooks of each step: the one called, or those of the timeout, read and write callbacks that fired, in this order, up to the first callback that cleans up |
| `Libevent.LegalRunSays` | keyspace-notification-c++/include/adapters/libevent.h:53-144 | the runs meant: no hook is called behind a cleanup |
| `Libevent.TracksSays` | keyspace-notification-c++/include/adapters/libevent.h:82-104 | what being registered as asked means on the event: pending exactly after some add or timeout, the flags asked for plus EV_PERSIST, no timeout exactly for zero, and else the last one set |
| `Libevent.FiredIs` | keyspace-notification-c++/include/adapters/libevent.h:67-78 | timeout, read and write callbacks in this order, each only if its flag is among the events, and none after one that cleans up |
| `Libevent.WatchedIsInterest` | keyspace-notification-c++/include/adapters/libevent.h:82-136 | the directions the loop watches are those asked for, also before the first request and after the cleanup |
| `Adapters.Ae.Perform` | keyspace-notification-c++/include/adapters/ae.h:59-100 | after every hook the registered mask is what was asked for; events are only created when unregistered and only deleted when registered |
| `Adapters.Libev.Perform` | keyspace-notification-c++/include/adapters/libev.h:67-140 | the same for the watchers; the timer runs exactly while the last timeout is not zero, and then repeats after its seconds plus microseconds / 1000000 |
| `Adapters.Libuv.Perform` | keyspace-notification-c++/include/adapters/libuv.h:29-85 | the polled mask is what was asked for; the handle is closed by cleanup and not used afterwards |
| `Adapters.Glib.Perform` | keyspace-notification-c++/include/adapters/glib.h:16-69 | the poll record's mask is what was asked for |
| `Adapters.Qt.Perform` | keyspace-notification-c++/include/adapters/qt.h:96-123 | the notifiers held are alive and are those asked for; none is deleted twice |
| `Adapters.AllAgree` | keyspace-notification-c++/include/adapters/ae.h:59-100 | given the same hooks, all six adapters have performed them, watch the same directions, after every prefix, and are valid to go on with unless cleaned up |
| `Sds.ValueOfBytes` | keyspace-notification-c++/include/sds.h:55-78 | bytes written little-endian read back as the number modulo the field width |
| `Sds.Value8` | keyspace-notification-c++/include/sds.h:73-78 | the number in eight bytes, little-endian, byte by byte |
| `Sds.HeaderSays` | keyspace-notification-c++/include/sds.h:51-89 | the low three bits of the flags byte are the type, and the headers take 1, 3, 5, 9 and 17 bytes |
| `Sds.LenSays` | keyspace-notification-c++/include/sds.h:91-106 | which bytes hold the length, for each type; type 5 has it in the upper five bits of its one byte |
| `Sds.AllocSays` | keyspace-notification-c++/include/sds.h:184-199 | which bytes hold the allocation, for each type; type 5 shows its length |
| `Sds.LenSetSays` | keyspace-notification-c++/include/sds.h:134-181 | setting a length stores it modulo 32, 2^8, 2^16, 2^32 or 2^64, keeps the type and the allocation, and changes nothing for types 5 to 7 |
| `Sds.AllocSetSays` | keyspace-notification-c++/include/sds.h:201-220 | setting an allocation stores it modulo 2^8, 2^16, 2^32 or 2^64, keeps the flags byte and the length, and changes nothing for any other type |
| `Sds.SetLen` | keyspace-notification-c++/include/sds.h:134-156 | the length reads back as the argument modulo the field width; type bits and all other bytes stay; an unknown type is left alone |
| `Sds.IncLen` | keyspace-notification-c++/include/sds.h:158-181 | leaves what setting the length to the old length plus the increment (as size_t) leaves, for every argument and type |
| `Sds.LenSetUnique` | keyspace-notification-c++/include/sds.h:134-181 | there is only one memory that setting a length can leave, so the two calls leave the same bytes |
| `Sds.SetAlloc` | keyspace-notification-c++/include/sds.h:201-220 | the allocation reads back modulo the field width, type bits and all other bytes stay; nothing changes for type 5 |
| `Sds.AllocIsAvailPlusLen` | keyspace-notification-c++/include/sds.h:183-199 | sdsalloc() = sdsavail() + sdslen() holds in size_t if and only if the header is not a 32 bit one with more length than allocation |
| `Sds.AllocPromiseFails` | keyspace-notification-c++/include/sds.h:122-125 | a 32 bit header with length 1 and allocation 0 for which the promise fails |
| `Sds.NoUnderflow` | keyspace-notification-c++/include/sds.h:108-132 | without wrap-around the promise holds exactly when the length is within the allocation |
| `Sds.FitsIff` | keyspace-notification-c++/include/sds.h:134-220 | which calls are in bounds, and the exact account after each |
| `Sds.Run` | keyspace-notification-c++/include/sds.h:134-220 | over any run of calls in bounds the accounts are exact, what is available never underflows, and the text is untouched |

## Left out

- Protocol buffer groups (wire types 3 and 4) count as malformed input.
- Malformed input yields no message; the unfinished message that the exception carries is not modelled.
- ReadMapEntry: a key or value of another wire type is skipped as unknown, and the nesting depth limit of the runtime is not modelled.
- `getMutableInputCounts` and `getMutableOutputCounts`, which hand the builder's own map to the caller. A write through such a handle while the builder still owns the map is a put on the builder; after build the Protocol Buffers runtime refuses it, since the map is immutable then.
- Byte buffer and stream overloads of `parseFrom`, reflection, descriptors, `hashCode`, `clone`, nested builders and change notification.
- Unknown fields are payloads in order per tag, not per field number and wire type; a field entry without payloads cannot be told from none.
- ParsePartialFrom: the loop accumulates a value instead of writing the fields of a message under construction.
- The out-of-memory paths of all adapters and the failure of `uv_poll_init_socket`.
- StateNode: channel states and the state bytes, which are only carried.
- FindLatestHappensBefore: the stack is counted in calls, not bytes.
- CutContext: the context keeps the last node put for each operator, the log of captured nodes and the cancel flag; `CheckpointContextImpl` counts channels with mismatched key types and is not modelled.
- Attach: the function pointers that attach installs are not part of the model; a hook is called by its name.
- `CausalStateGraph.checkpoint` (operator name "0,") and the empty graph compaction.
- `VectorTimeStamp.incrementTimeStamp`, `isPreviousProcessVClockTick`, `isFirstProcessVClockTick`, and `isCausallyAfter`, which repeats `isCausallyBefore`.
- Handler: a nested entry of the same handler is not modelled; the client never runs the loop from a callback.
- The read, write and timeout callbacks of ae, libev, libuv, glib and Qt only call into the client and are left out.
- Libuv: the memory is freed by the close callback, which the loop runs later; that callback is not modelled.
- Libev: seconds and microseconds are added as reals, without rounding.
- `ivykis.h` and `macosx.h` start with both directions enabled and are outside the equivalence.
- Sds: fields are little-endian; strings with header types 5 to 7 have no length, and runs are over types 0 to 4.
- Redis, Kafka and Flink connections, plan loading, worker threads and locking.
