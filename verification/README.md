# MiniProtobufFramework in Dafny

A model of the core of MiniProtobufFramework, a small C++ client/server framework, with proofs
of what its parts promise. `dafny verify dfyconfig.toml` checks everything.

- **Stream buffer** (`StreamBuf.dfy`): asio's `basic_streambuf`, an array with four offsets, as a
  byte queue.
- **Wire format** (`Wire.dfy`, `WireFields.dfy`, `Messages.dfy`, `MessageFields.dfy`,
  `MessageGrammar.dfy`, `MessageOrder.dfy`): protobuf's varints, tags, skipping of unknown fields
  and the generated parse loops; serialisation, merging and size computation of the five message
  types. `WireFields` says which bytes are skipped, `MessageFields` that unknown fields do not
  matter, `MessageGrammar` what is accepted and what it means, `MessageOrder` what is written.
- **Message route** (`Framing.dfy`, `Route.dfy`): the framed stream. `Framing` has the receiver as
  a transition function, on malformed input too, and the theorems over whole runs; `Route` has the
  object with its loops over the stream buffers.
- **Callback list** (`CallbackSpec.dfy`, `CallbackCourse.dfy`, `CallbackArena.dfy`,
  `CallbackList.dfy`, `CallbackDispatch.dfy`, `CallbackCopy.dfy`, `CallbackStale.dfy`,
  `CallbackWay.dfy`, `CallbackRaw.dfy`): eventpp's doubly linked list, which callbacks may edit and
  dispatch again while it is being traversed, and the wrapper that removes a listener after a
  number of calls. `CallbackSpec` is the reference on plain sequences, `CallbackCourse` the course
  that each of its dispatches takes, `CallbackArena` the node graph as a value, `CallbackList` and
  `CallbackDispatch` the heap code; `CallbackStale`, `CallbackWay` and `CallbackRaw` treat uses of
  nodes already removed.
- **Event queue** (`EventQueue.dfy`, `EventQueueWake.dfy`, `EventQueueOrder.dfy`,
  `EventQueueCalls.dfy`): eventpp's queue as a machine of atomic steps in which any number of calls
  interleave; `EventQueueCalls` has what a single call takes, does and answers.
- **HTTP server** (`RequestParser.dfy`, `RequestGrammar.dfy`, `RequestLanguage.dfy`,
  `RequestHandler.dfy`): the request automaton and its language, percent decoding, path checks.

## Where the code falls short of what one might expect

- A `prepare` that asks for too much throws after the bytes were moved and before the offsets
  were, so the queue is kept only under the condition of `StreamBuf.RefusedPrepareKeepsQueue`.
- A frame whose payload is shorter than eight bytes stalls until other bytes follow if its header
  was taken by an earlier call (`Framing.ShortPayloadStalls`), and is taken at once if it was all
  there (`Framing.WholeFrameIsTaken`). No frame that `Send` builds is that short.
- A body longer than 1024 bytes can be sent and is dropped on arrival, so `Framing.Sendable` asks
  for at most 1024; `Framing.DeliversAll` says what happens to longer ones.
- `remove` does not notice that a node was removed before and is kept alive by a running
  traversal. A second removal can cut the list (`CallbackStale.SecondRemovalCutsOff`) or leave the
  list in order and mislead a traversal that stands on another removed node
  (`SecondRemovalMisleads`). `CallbackWay.SecondRemovalExact` has the exact condition for harm, and
  `CallbackStale.SecondRemovalHarmless` the one for the invariant of the model, which is stricter.
  Inserting before such a node never leaves a sound list (`InsertNeedsLinked`). Dispatches end and
  call nobody twice even then (`CallbackRaw.Walked`, `CallbackRaw.CalledOnce`).
- `enqueue` reads the list and the counter without the lock. If `processIf` takes the new event
  after the append and puts it back between the two reads, the producer does not notify, and a
  sleeping consumer is not woken: `EventQueueWake.LostWakeUp`. It cannot happen without
  `processIf` (`SafeWithoutProcessIf`), nor if nothing is put back while the consumer sleeps
  (`SafeUndisturbed`).
- A traversal during which the 64-bit counter overflows can call callbacks added after its start:
  `CallbackArena.OverflowLetsNewcomerIn`, with the exact condition in `NewcomerIsTold`.
- A path with an encoded zero byte is cut there when the file is opened, while the extension is
  taken from the whole path: `RequestHandler.OpenedIsNamed`, `NamesCanDiffer`.
- The length of a nested message may run past the end of the input if that message comes last; it
  is then read as if the length were right: `MessageGrammar.UserIff`, `MessageGrammar.SigninIff`.
- A float of negative zero comes back as positive zero: `Messages.MoveRoundTrip`.

## Reading the model

Bytes are integers below 256 and text is a byte sequence. Whether text is valid UTF-8 is a
function parameter of parsing. Floats are 32-bit patterns. What a callback does is a script that
the run consumes: one behaviour per invocation, each a list of edits and nested dispatches. An
edit that names a removed callback says whether the node is still held by a traversal or its
handle has expired; the heap methods report a run as lawful unless it relied on such a node where
that does harm, and then follow it no further. A listener that runs inside an event queue step is
an activity of its own, so runs of the machine include re-entrant calls. Two-character number
extraction in percent decoding follows the C++ standard's `num_get` in the classic locale.

## Model

| member | source | states |
|---|---|---|
| `StreamBuf.StreamBuf.constructor` | Shared/asio/asio/include/asio/basic_streambuf.hpp:131-141 | a new buffer represents the empty queue |
| `StreamBuf.StreamBuf.Size` | Shared/asio/asio/include/asio/basic_streambuf.hpp:158-161 | the length of the queue between the get and put offsets |
| `StreamBuf.StreamBuf.MoveDown` | Shared/asio/asio/include/asio/basic_streambuf.hpp:321-326 | the in-place copy leaves the array equal to its live bytes followed by the old tail, although source and target overlap |
| `StreamBuf.StreamBuf.Reserve` | Shared/asio/asio/include/asio/basic_streambuf.hpp:308-346 | succeeds exactly when queue and request fit in the maximum; then the queue is as before and the room is there; a refusal has moved the bytes and not the offsets |
| `StreamBuf.RefusedPrepareKeepsQueue` | Shared/asio/asio/include/asio/basic_streambuf.hpp:308-346 | a refused request keeps every queue if and only if the get offset is zero or the queue is no longer than that offset |
| `StreamBuf.StreamBuf.Prepare` | Shared/asio/asio/include/asio/basic_streambuf.hpp:214-219 | as Reserve |
| `StreamBuf.StreamBuf.Commit` | Shared/asio/asio/include/asio/basic_streambuf.hpp:233-238 | appends to the queue the first min(n, room) bytes of the output area |
| `StreamBuf.StreamBuf.ReadInto` | Shared/asio/asio/include/asio/basic_streambuf.hpp:214-238 | prepare, store and commit together append the data, or refuse when it does not fit |
| `StreamBuf.StreamBuf.Consume` | Shared/asio/asio/include/asio/basic_streambuf.hpp:247-254 | drops min(n, size) bytes from the front, bytes not yet published to the get area included |
| `StreamBuf.StreamBuf.Underflow` | Shared/asio/asio/include/asio/basic_streambuf.hpp:263-274 | publishes everything committed and leaves the queue as it is; reports whether a byte is there |
| `StreamBuf.StreamBuf.Overflow` | Shared/asio/asio/include/asio/basic_streambuf.hpp:283-306 | appends one byte, growing the array when it is full; fails if and only if the queue already has the maximum size, and then keeps it |
| `StreamBuf.StreamBuf.Write` | Shared/asio/asio/include/asio/basic_streambuf.hpp:283-306 | writing through overflow appends as long a prefix of the data as fits, in order |
| `StreamBuf.StreamBuf.Read` | Shared/asio/asio/include/asio/basic_streambuf.hpp:263-274 | reading through underflow takes the first min(n, size) bytes off the queue |
| `Wire.WriteVarint` | Shared/protobuf/src/google/protobuf/io/coded_stream.h:1149-1158 | the shifting loop writes the base-128 encoding of the value |
| `Wire.ReadVarint64Slow` | Shared/protobuf/src/google/protobuf/io/coded_stream.cc:521-548 | the byte loop yields the value modulo 2^64 that up to ten bytes denote, or fails when they end or run on |
| `Wire.DecodeEncoded` | Shared/protobuf/src/google/protobuf/io/coded_stream.cc:521-548 | decoding inverts encoding for every natural number within the byte budget, whatever follows |
| `Wire.Varint64RoundTrip` | Shared/protobuf/src/google/protobuf/io/coded_stream.cc:402-440 | every 64-bit value survives encoding and reading; a 32-bit read keeps its low word |
| `Wire.EncodedLength` | Shared/protobuf/src/google/protobuf/io/coded_stream.h:1237-1255 | the encoding takes one byte per seven bits: floor(log2)/7 + 1 bytes |
| `Wire.VarintSizeExact` | Shared/protobuf/src/google/protobuf/io/coded_stream.h:1237-1255 | the multiply-and-shift size formula is the exact encoded length for every 64-bit value |
| `Wire.LittleEndian32RoundTrip` | Shared/protobuf/src/google/protobuf/io/coded_stream.h:942-985 | a fixed 32-bit word reads back, whatever follows |
| `Wire.MergePartial` | Shared/code/protobuf/BaseCmd.pb.cc:522-612 | the generated parse loop computes the recursive reference parse for any field table; what that accepts and yields is the subject of the MessageGrammar rows |
| `Wire.RunsThen` | Shared/code/protobuf/BaseCmd.pb.cc:522-612 | parsing is compositional: what two byte strings do in turn is what their concatenation does |
| `Wire.RunsWhole` | Shared/code/protobuf/BaseCmd.pb.cc:522-612 | bytes that run from one message to another parse successfully to it |
| `Wire.RunsOneField` | Shared/code/protobuf/BaseCmd.pb.cc:522-612 | a one-byte tag and a body its case consumes exactly make one step of any parse |
| `Wire.ReadTextBack` | Shared/protobuf/src/google/protobuf/wire_format_lite.cc:586-596 | a length-delimited string reads back with exactly its bytes, failing iff it is not valid text |
| `Wire.ReadInt32Back` | Shared/protobuf/src/google/protobuf/wire_format_lite_inl.h:57-64 | an int32 reads back from its sign-extended varint, negative values included |
| `Wire.ReadNestedBack` | Shared/protobuf/src/google/protobuf/wire_format_lite_inl.h:443-453 | a nested message reads back under its pushed limit, and the rest of the input is untouched |
| `Wire.FieldSizesExact` | Shared/protobuf/src/google/protobuf/wire_format_lite_inl.h:930-990 | the size functions for strings and int32 are the exact encoded lengths, ten bytes for negatives |
| `WireFields.VarintIff` | Shared/protobuf/src/google/protobuf/io/coded_stream.cc:402-548 | reading a varint succeeds if and only if one to ten bytes are there of which just the last is below 128; its value is their seven-bit digits, lowest first, modulo 2^64 or 2^32 |
| `WireFields.SkipsBody` | Shared/protobuf/src/google/protobuf/wire_format.cc:83-170 | any body that fits its tag is stepped over to its last byte: a varint, eight bytes, a length and as many bytes, a group of such fields within the recursion budget, four bytes |
| `WireFields.SkipFieldIff` | Shared/protobuf/src/google/protobuf/wire_format.cc:83-170 | nothing else is: field number zero, wire types 4, 6 and 7, a body cut short, a group too deep or closed by another number all fail |
| `WireFields.UnknownAnywhere` | Shared/code/protobuf/BaseCmd.pb.cc:594-601 | behind any bytes that parse, any number of fields unknown to the switch can be put in or left out |
| `MessageFields.UnknownIsSkipped` | Shared/code/protobuf/BaseCmd.pb.cc:594-601 | for each of the five messages, a field with any tag its switch does not know and a body that fits leaves the message as it is |
| `MessageFields.CmdTypeAmongUnknown` | Shared/code/protobuf/BaseCmd.pb.cc:522-612 | unknown fields before, between and behind the fields of a CmdType do not change what it parses to |
| `MessageFields.MoveAmongUnknown` | Shared/code/protobuf/BaseCmd.pb.cc:2302-2358 | the same for reqMove |
| `MessageFields.SigninAmongUnknown` | Shared/code/protobuf/BaseCmd.pb.cc:1786-1826 | the same for reqSignin, with unknown fields around users, around the fields of each user and around those of each phone |
| `MessageGrammar.ParseIff` | Shared/code/protobuf/BaseCmd.pb.cc:522-612 | for a switch that takes exactly the bodies of a grammar, an input parses if and only if it is a sequence of such fields, and to the message they fold to |
| `MessageGrammar.CmdTypeIff` | Shared/code/protobuf/BaseCmd.pb.cc:522-612 | a CmdType parses if and only if it is a sequence of fitting fields in any order whose texts are valid; each member has the value of its last field |
| `MessageGrammar.PhoneIff` | Shared/code/protobuf/BaseCmd.pb.cc:1128-1187 | the same for sUser.ePhoneNumber |
| `MessageGrammar.UserIff` | Shared/code/protobuf/BaseCmd.pb.cc:1422-1508 | the same for sUser; its phones are those of field number 4 in order, and only a last length may run past the end |
| `MessageGrammar.SigninIff` | Shared/code/protobuf/BaseCmd.pb.cc:1786-1826 | the same for reqSignin and its users |
| `MessageGrammar.MoveIff` | Shared/code/protobuf/BaseCmd.pb.cc:2302-2358 | the same for reqMove, on the bits of four bytes, lowest first |
| `Messages.WriteUser` | Shared/code/protobuf/BaseCmd.pb.cc:1510-1555 | the serialising loop over the phones writes the reference serialisation |
| `Messages.WriteSignin` | Shared/code/protobuf/BaseCmd.pb.cc:1828-1848 | the serialising loop over the users writes the reference serialisation |
| `Messages.CmdTypeMerges` | Shared/code/protobuf/BaseCmd.pb.cc:522-660 | parsing a serialised CmdType onto any message is MergeFrom, default-valued fields keeping the old value |
| `Messages.PhoneMerges` | Shared/code/protobuf/BaseCmd.pb.cc:1128-1216 | the same for sUser.ePhoneNumber |
| `Messages.UserMerges` | Shared/code/protobuf/BaseCmd.pb.cc:1422-1555 | the same for sUser, its phones appended |
| `Messages.SigninMerges` | Shared/code/protobuf/BaseCmd.pb.cc:1786-1848 | the same for reqSignin, its users appended |
| `Messages.MoveMerges` | Shared/code/protobuf/BaseCmd.pb.cc:2302-2381 | the same for reqMove, on float bit patterns |
| `Messages.CmdTypeRoundTrip` | Shared/code/protobuf/BaseCmd.pb.cc:522-660 | parse inverts serialise for every CmdType with valid text |
| `Messages.SigninRoundTrip` | Shared/code/protobuf/BaseCmd.pb.cc:1786-1848 | parse inverts serialise for every reqSignin, nested repeated messages included |
| `Messages.MoveRoundTrip` | Shared/code/protobuf/BaseCmd.pb.cc:2302-2381 | parse inverts serialise up to the sign of zero: a negative zero is not written and comes back as zero |
| `Messages.SigninConcatenation` | Shared/code/protobuf/BaseCmd.pb.cc:1913-1921 | parsing two serialised reqSignin one after the other is merging the second into the first |
| `Messages.CmdTypeConcatenation` | Shared/code/protobuf/BaseCmd.pb.cc:772-794 | the same for CmdType |
| `Messages.MoveConcatenation` | Shared/code/protobuf/BaseCmd.pb.cc:2447-2460 | the same for reqMove, up to the sign of zero |
| `Messages.ByteSizeCmdType` | Shared/code/protobuf/BaseCmd.pb.cc:715-755 | the computed size is the length of the serialisation |
| `Messages.ByteSizePhone` | Shared/code/protobuf/BaseCmd.pb.cc:1250-1275 | the computed size is the length of the serialisation |
| `Messages.ByteSizeUser` | Shared/code/protobuf/BaseCmd.pb.cc:1607-1651 | the size loop computes the length of the serialisation |
| `Messages.ByteSizeSignin` | Shared/code/protobuf/BaseCmd.pb.cc:1873-1896 | the size loop computes the length of the serialisation |
| `Messages.ByteSizeMove` | Shared/code/protobuf/BaseCmd.pb.cc:2408-2430 | the computed size is the length of the serialisation |
| `MessageOrder.CmdTypeWritten` | Shared/code/protobuf/BaseCmd.pb.cc:614-660 | the serialisation is a sequence of fields in ascending order, none twice, none with a default value, every number in its shortest form |
| `MessageOrder.PhoneWritten` | Shared/code/protobuf/BaseCmd.pb.cc:1189-1216 | the same for sUser.ePhoneNumber |
| `MessageOrder.UserWritten` | Shared/code/protobuf/BaseCmd.pb.cc:1510-1555 | the same for sUser, only its phones repeated |
| `MessageOrder.SigninWritten` | Shared/code/protobuf/BaseCmd.pb.cc:1828-1848 | the same for reqSignin, only its users repeated |
| `MessageOrder.MoveWritten` | Shared/code/protobuf/BaseCmd.pb.cc:2360-2381 | the same for reqMove, a zero of either sign counting as default |
| `Framing.CutPayload` | Shared/code/utility/MessageRoute.cpp:135-162 | total on malformed lengths too: a payload cut out whole has consistent lengths, and a dropped one takes no more than there is |
| `Framing.BodyLenExact` | Shared/code/utility/MessageRoute.cpp:155-162 | the 32-bit subtraction and conversion to int accept exactly the body lengths between 0 and the buffer size |
| `Framing.PayloadConsumed` | Shared/code/utility/MessageRoute.cpp:135-188 | a complete payload is consumed to its last byte, delivered, or dropped when a part exceeds the buffer |
| `Framing.PollStep` | Shared/code/utility/MessageRoute.cpp:69-200 | one call against any stream of frames and four-byte noise words waits, remembers a length, skips a word or delivers the next frame, and never loses its place; it returns true if and only if it consumed a frame whose parts fit the buffer |
| `Framing.RunTracks` | Shared/code/utility/MessageRoute.cpp:40-200 | after every interleaving of arrivals and calls the receiver is at a segment boundary of the stream, or past a remembered header |
| `Framing.DeliversPrefix` | Shared/code/utility/MessageRoute.cpp:40-200 | the messages delivered so far are those of a prefix of the segments, in order |
| `Framing.DeliversAll` | Shared/code/utility/MessageRoute.cpp:40-200 | when a stream ending in a frame has arrived, as many calls as segments deliver all of it and leave the receiver idle |
| `Framing.ShortPayloadStalls` | Shared/code/utility/MessageRoute.cpp:77-92 | with the header taken by an earlier call and the payload present, a call makes progress if and only if the payload has at least eight bytes |
| `Framing.WholeFrameIsTaken` | Shared/code/utility/MessageRoute.cpp:93-188 | a frame that is all there when its header is read is taken at once, however short its payload |
| `Framing.SentHead` | Shared/code/utility/MessageRoute.cpp:202-231 | the head that Send writes parses to a CmdType with the type name and the body size of the message and empty addresses, and the body is its serialisation |
| `Framing.FrameLayout` | Shared/code/utility/MessageRoute.cpp:214-231 | a frame is the marker, the little-endian count of the bytes after it less four, the little-endian head length, head and body |
| `Framing.SentIsDelivered` | Shared/code/utility/MessageRoute.cpp:164-240 | the frame that Send builds has that head and body and delivers the message it was built from |
| `Framing.ReassemblyIsPrefix` | Shared/code/utility/MessageRoute.cpp:40-240 | for all messages sent and every cutting and interleaving, the messages dispatched are a prefix of those sent |
| `Framing.ReassemblyIsComplete` | Shared/code/utility/MessageRoute.cpp:40-240 | once all bytes have arrived, one call per message dispatches all of them, in order, and empties the receiver |
| `Route.FillTo` | Shared/code/utility/MessageRoute.cpp:135-164 | reading a number of bytes through an input stream takes whole blocks from the buffer |
| `Route.MessageRoute.constructor` | Shared/code/utility/MessageRoute.cpp:34-38 | a new route is idle with empty streams |
| `Route.MessageRoute.Receive` | Shared/code/utility/MessageRoute.cpp:40-60 | the copy loop moves all arrived bytes behind those held, in pieces |
| `Route.MessageRoute.ProcessRecv` | Shared/code/utility/MessageRoute.cpp:69-200 | on the buffers, a call does exactly one step of the framing machine: state, dispatched messages and result |
| `Route.MessageRoute.ReadParts` | Shared/code/utility/MessageRoute.cpp:135-164 | head and body are the bytes the reference cut names, and the buffer keeps the rest |
| `Route.MessageRoute.Send` | Shared/code/utility/MessageRoute.cpp:202-240 | appends exactly the frame of the message to the outgoing stream and counts its bytes: marker, lengths, a head that tells its type name and size, its serialisation |
| `CallbackSpec.TraversalVisitsSnapshot` | Shared/code/eventpp/callbacklist.h:291-317 | a dispatch invokes callbacks linked at its start, in order, each at most once; one that stays linked is invoked unless a callback stopped it |
| `CallbackSpec.UndisturbedTraversal` | Shared/code/eventpp/callbacklist.h:291-317 | if callbacks leave the list alone, exactly all are invoked, in order |
| `CallbackCourse.RunOpsConsumes` | Shared/code/eventpp/callbacklist.h:291-317 | a run consumes one behaviour per invocation, in the order of invocation, nested dispatches included |
| `CallbackCourse.OpsInTurn` | Shared/code/eventpp/callbacklist.h:199-263 | the operations of a callback are done one after the other, each on the list and the behaviours that those before leave |
| `CallbackCourse.CourseOf` | Shared/code/eventpp/callbacklist.h:291-317 | every dispatch goes from one callback of its snapshot that is still linked to the next, with the list and the behaviours that the invocation before left; it goes on exactly after those whose behaviour lets it, and is done iff none stops it |
| `CallbackCourse.StopsAtOnce` | Shared/code/eventpp/callbacklist.h:291-317 | a first callback that stops the dispatch is the only one called |
| `CallbackCourse.FlatCourse` | Shared/code/eventpp/callbacklist.h:291-317 | without nested dispatches the k-th callback called has the k-th behaviour: all but the last let the dispatch go on, and it ran to its end iff the last did too |
| `CallbackSpec.RunOpsGrows` | Shared/code/eventpp/callbacklist.h:199-263 | on plain sequences, over any program with nested dispatches, the list stays well formed and registrations are permanent |
| `CallbackSpec.RunOpsPaid` | Shared/code/eventpp/utilities/counterremover.h:122-161 | over any such run, invocations of a counted listener and its remaining allowance add up to at most, and if spared exactly, what was granted |
| `CallbackSpec.CountedListenerBound` | Shared/code/eventpp/utilities/counterremover.h:122-161 | a listener with trigger count k is invoked at most k times, and exactly k minus the triggers left if nobody else removes it |
| `CallbackSpec.LastInvocationUnlinks` | Shared/code/eventpp/utilities/counterremover.h:122-128 | the last permitted call finds the listener off the list, and is its only invocation even if it dispatches again |
| `CallbackArena.TickedGood` | Shared/code/eventpp/callbacklist.h:382-398 | drawing a counter keeps the node graph sound, across the 64-bit overflow too |
| `CallbackArena.NewcomerIsTold` | Shared/code/eventpp/callbacklist.h:301-308 | the counter test of a traversal that started at counter c leaves a newly registered node out if and only if the counter stood at c or above before and did not overflow, or c is zero at the overflow |
| `CallbackArena.OverflowLetsNewcomerIn` | Shared/code/eventpp/callbacklist.h:301-314 | across the overflow a traversal on the last node finds a callback appended meanwhile next on its way, not of its snapshot, and passes it in the counter test |
| `CallbackArena.LinkedGood` | Shared/code/eventpp/callbacklist.h:199-251 | linking a node anywhere keeps both chains, the counters and the promises of removed nodes |
| `CallbackArena.UnlinkedGood` | Shared/code/eventpp/callbacklist.h:359-380 | unlinking keeps them too, and the removed node still leads to where a traversal on it must go |
| `CallbackArena.CursorHit` | Shared/code/eventpp/callbacklist.h:304-309 | a node that passes the counter test is exactly the next one of the snapshot |
| `CallbackArena.CursorMiss` | Shared/code/eventpp/callbacklist.h:304-309 | a node that fails it is not one that the snapshot walk would call now |
| `CallbackArena.CursorStep` | Shared/code/eventpp/callbacklist.h:311-314 | following a link, from a removed node too, steps only over nodes that are off the list |
| `CallbackArena.CursorLater` | Shared/code/eventpp/callbacklist.h:291-317 | edits made by a callback leave a running traversal at the same place in its snapshot |
| `CallbackList.CallbackList.NextCounter` | Shared/code/eventpp/callbacklist.h:382-398 | the loop on overflow restarts exactly the linked nodes and yields a non-zero counter |
| `CallbackList.CallbackList.Append` | Shared/code/eventpp/callbacklist.h:199-216 | the list is as before with the new callback at its end; old handles and counters stand |
| `CallbackList.CallbackList.Prepend` | Shared/code/eventpp/callbacklist.h:218-235 | the same at its front |
| `CallbackList.CallbackList.Insert` | Shared/code/eventpp/callbacklist.h:237-251 | the same before a linked node, and at the end for an expired handle |
| `CallbackList.CallbackList.Remove` | Shared/code/eventpp/callbacklist.h:253-263 | takes exactly that node off; an expired handle changes nothing and is reported; a node already removed changes nothing on the list either, under the condition of SecondRemovalHarmless |
| `CallbackStale.SecondRemovalHarmless` | Shared/code/eventpp/callbacklist.h:359-380 | removing a node a second time keeps the invariant of the node graph if and only if its old neighbours, where linked, still close the gap, and its old predecessor, if off the list too, is turned past no linked node as old as its removal and to no node removed before it |
| `CallbackWay.SecondRemovalExact` | Shared/code/eventpp/callbacklist.h:359-380 | it leaves the list in order, and every removed node leading to all that is linked ahead and as old as its removal, if and only if the gap is closed and the old successor leads to all that a removed predecessor has to serve |
| `CallbackWay.TraversalsUnharmed` | Shared/code/eventpp/callbacklist.h:291-380 | every traversal under way then still comes to all of its snapshot that is linked and ahead |
| `CallbackWay.InvariantIsStricter` | Shared/code/eventpp/callbacklist.h:359-380 | the condition for the invariant is stricter: a second removal that does no harm and that it refuses |
| `CallbackStale.HarmlessIsUnnoticed` | Shared/code/eventpp/callbacklist.h:359-380 | where the invariant is kept, the list holds the same and every running traversal keeps its place |
| `CallbackStale.ClosedGapSuffices` | Shared/code/eventpp/callbacklist.h:359-380 | the links alone can show it: the old predecessor, linked or not, still leads to the old successor, which if linked leads back |
| `CallbackStale.SecondRemovalCutsOff` | Shared/code/eventpp/callbacklist.h:253-263 | the gap need not be closed: remove the last node, append, remove the first one again, and the appended node is unreachable |
| `CallbackStale.SecondRemovalMisleads` | Shared/code/eventpp/callbacklist.h:253-263 | nor need a removed predecessor keep its way: take it off as well before the second removal, and the list is in order while a traversal standing on it ends without the appended node |
| `CallbackStale.InsertNeedsLinked` | Shared/code/eventpp/callbacklist.h:340-352 | inserting before a node leaves links that can be read as a sound list if and only if that node is linked |
| `CallbackDispatch.ForEach` | Shared/code/eventpp/callbacklist.h:291-317 | for every script of edits and nested dispatches, unless an edit met a removed node in a harmful place, the loop over the links ends having invoked exactly what a walk of the initial snapshot invokes |
| `CallbackDispatch.DispatchAll` | Shared/code/eventpp/callbacklist.h:273-287 | under the same proviso, on the heap: those invoked were linked at the start, come in list order, once each, and include all that stay linked, unless one stops it; the dispatch takes such a course through its snapshot, and stops where a behaviour says so; scripts that keep to linked or expired handles always qualify |
| `CallbackDispatch.Edit` | Shared/code/eventpp/callbacklist.h:199-263 | one operation on the heap list reports exactly whether it relied on a removed node still alive, a second removal across a closed gap excepted, and if it did not, does what the reference says |
| `CallbackDispatch.Call` | Shared/code/eventpp/utilities/counterremover.h:122-128 | one invocation with everything it does to the list refines its reference, unless an edit in it met a removed node in a harmful place |
| `CallbackDispatch.Trigger` | Shared/code/eventpp/utilities/counterremover.h:122-128 | the wrapper counts down and takes its listener off before the last call |
| `CallbackDispatch.Perform` | Shared/code/eventpp/callbacklist.h:199-263 | a callback that edits and dispatches on the heap list does what its reference program does, under the same proviso, which always holds for linked or expired handles |
| `CallbackRaw.Walked` | Shared/code/eventpp/callbacklist.h:291-317 | on the node graph and for every script without exception, harmful uses of removed nodes and counter overflow included: the traversal ends (or follows a null pointer, which ends everything), links still lead forward, and the callbacks it called lie ever further ahead |
| `CallbackRaw.CalledOnce` | Shared/code/eventpp/callbacklist.h:291-317 | so no dispatch ever calls a callback twice |
| `CallbackRaw.DrawnIsTicked` | Shared/code/eventpp/callbacklist.h:382-398 | on a sound list drawing a counter on the node graph is the operation proved for the heap: from the head links lead to exactly the linked nodes |
| `CallbackRaw.AppendedIsLinked` | Shared/code/eventpp/callbacklist.h:199-216 | so is append |
| `CallbackRaw.PrependedIsLinked` | Shared/code/eventpp/callbacklist.h:218-235 | so is prepend |
| `CallbackRaw.InsertedIsLinked` | Shared/code/eventpp/callbacklist.h:237-251 | so is insert before a linked node |
| `CallbackRaw.FreedIsUnlinked` | Shared/code/eventpp/callbacklist.h:359-380 | so is the removal of a linked node |
| `CallbackCopy.Copied` | Shared/code/eventpp/callbacklist.h:400-422 | a copy has the same callbacks in the same order on new nodes |
| `CallbackCopy.CloneNodes` | Shared/code/eventpp/callbacklist.h:400-419 | the loop links each new node to the one before and leaves the tail unset |
| `CallbackCopy.Swap` | Shared/code/eventpp/callbacklist.h:171-180 | two lists exchange their contents, both staying valid |
| `EventQueue.StorageIsSound` | Shared/code/eventpp/eventqueue.h:109-150 | over every interleaving, event storage is constructed once and destroyed once: pending items are full, free ones empty, and no step finds the opposite |
| `EventQueue.NodesAreConserved` | Shared/code/eventpp/eventqueue.h:215-388 | pending, free and in-flight lists together hold each list node ever created exactly once |
| `EventQueue.EventsAreConserved` | Shared/code/eventpp/eventqueue.h:215-388 | each event appended is settled once, pending, or in flight: exactly one of these |
| `EventQueue.SettledAtMostOnce` | Shared/code/eventpp/eventqueue.h:271-388 | no event is dispatched, taken or cleared twice |
| `EventQueueWake.GuardIsCount` | Shared/code/eventpp/eventqueue.h:46-58 | the guard counter is the number of process calls between raising and lowering it |
| `EventQueueWake.NotEmptyWhileInFlight` | Shared/code/eventpp/eventqueue.h:245-248 | while a process call holds anything, the counter read of an empty() call answers false |
| `EventQueueWake.EmptyAnsweredTrue` | Shared/code/eventpp/eventqueue.h:245-248 | an empty() call has answered true if and only if its own list read found the list empty and, at its own later counter read, no process call held anything |
| `EventQueueWake.AlwaysWakeable` | Shared/code/eventpp/eventqueue.h:390-396 | a consumer goes to sleep on an empty list only, and while it sleeps each pending event was put back meanwhile or has its producer about to notify |
| `EventQueueWake.PendingIsAnnounced` | Shared/code/eventpp/eventqueue.h:215-508 | while the consumer sleeps, for each pending event that was not put back two further steps of its producer wake the consumer |
| `EventQueueWake.NoLostWakeUp` | Shared/code/eventpp/eventqueue.h:390-508 | whenever the consumer sleeps, events are pending and none was put back meanwhile, some producer has appended and is yet to notify |
| `EventQueueWake.LostWakeUp` | Shared/code/eventpp/eventqueue.h:215-248 | a run in which processIf puts an event back between the two reads of its producer: every call returns, the event is pending, the consumer sleeps on |
| `EventQueueWake.SafeWithoutProcessIf` | Shared/code/eventpp/eventqueue.h:338-396 | over all runs, wake-ups are safe if and only if calls of processIf are not allowed |
| `EventQueueWake.SafeUndisturbed` | Shared/code/eventpp/eventqueue.h:338-396 | no run loses a wake-up in which no processIf puts events back while the consumer sleeps, as when one thread waits and then processes |
| `EventQueueOrder.ProcessIfSplits` | Shared/code/eventpp/eventqueue.h:338-388 | processIf dispatches exactly the accepted events in order, as the record of all settled events shows, and puts the others back in order, ahead of what came meanwhile |
| `EventQueueOrder.AlwaysInOrder` | Shared/code/eventpp/eventqueue.h:215-336 | with one consuming call at a time and no processIf, settled, in-flight and pending events together are the appended sequence |
| `EventQueueOrder.FirstInFirstOut` | Shared/code/eventpp/eventqueue.h:271-302 | so without processIf events are settled in the order in which they were appended |
| `EventQueueOrder.AlwaysAppendOrder` | Shared/code/eventpp/eventqueue.h:215-388 | with one consuming call at a time, processIf included, events kept back, still to be settled and pending always come in append order |
| `EventQueueCalls.HoldsWhatItTook` | Shared/code/eventpp/eventqueue.h:271-453 | over all runs, a call under way holds exactly what it found under the lock: the first pending item for processOne and takeEvent, the whole list for process, processIf and clearEvents |
| `EventQueueCalls.AnsweredBecause` | Shared/code/eventpp/eventqueue.h:271-453 | over all runs, a call has answered false only if it found the list empty or took items and settled none, and true only if it settled one |
| `EventQueueCalls.CallAlone` | Shared/code/eventpp/eventqueue.h:250-453 | a call that is not interrupted returns: it has settled in order the items it was to take and accepts, put the others back in front, freed their nodes, and answers true iff it settled something |
| `EventQueueCalls.ProcessAlone` | Shared/code/eventpp/eventqueue.h:271-302 | so process settles every pending event, in order |
| `EventQueueCalls.ProcessOneAlone` | Shared/code/eventpp/eventqueue.h:304-336 | processOne exactly the first one |
| `EventQueueCalls.TakeAlone` | Shared/code/eventpp/eventqueue.h:433-453 | takeEvent hands out exactly the first one |
| `EventQueueCalls.ClearAlone` | Shared/code/eventpp/eventqueue.h:250-269 | clearEvents drops all of them |
| `EventQueueCalls.ProcessIfAlone` | Shared/code/eventpp/eventqueue.h:338-388 | processIf dispatches exactly the events it accepts and leaves exactly the others pending |
| `EventQueueCalls.EnqueueAlone` | Shared/code/eventpp/eventqueue.h:215-243 | enqueue appends its event, on a free node if there is one, and wakes a sleeping consumer |
| `EventQueueCalls.AskAlone` | Shared/code/eventpp/eventqueue.h:245-248 | empty() answers whether nothing is pending and nothing in flight |
| `EventQueueCalls.WaitAlone` | Shared/code/eventpp/eventqueue.h:390-396 | wait goes to sleep if and only if nothing is pending and nothing in flight |
| `RequestParser.Consume` | MiniProtobufServer/HttpServer/request_parser.cpp:17-273 | a refused byte changes nothing, and a state that writes to the last header has one |
| `RequestParser.ParseInTwo` | MiniProtobufServer/HttpServer/request_parser.hpp:30-41 | parsing in two pieces is parsing the whole, and a verdict ignores what follows |
| `RequestParser.ChunksDoNotMatter` | MiniProtobufServer/HttpServer/request_parser.hpp:30-41 | any partition of the input gives the result, request and consumed count of the whole |
| `RequestParser.Parser.ConsumeByte` | MiniProtobufServer/HttpServer/request_parser.cpp:17-273 | the state switch on the objects is the transition function |
| `RequestParser.Parser.ParseBytes` | MiniProtobufServer/HttpServer/request_parser.hpp:30-41 | the loop computes the reference parse: result, consumed count, parser state and request |
| `RequestGrammar.TokenChar` | MiniProtobufServer/HttpServer/request_parser.cpp:277-300 | the parser's classes leave exactly the token characters of section 2.2 of RFC 1945: letters, digits and fifteen others, listed |
| `RequestGrammar.RefusesTheRest` | MiniProtobufServer/HttpServer/request_parser.cpp:17-302 | in each state exactly the listed bytes are taken: token characters, digits, all but control characters, or the one byte that must come |
| `RequestGrammar.AcceptedIsPrinted` | MiniProtobufServer/HttpServer/request_parser.cpp:17-273 | whatever is accepted is the print of a grammar tree, and the request is what that tree denotes |
| `RequestLanguage.PrintedIsAccepted` | MiniProtobufServer/HttpServer/request_parser.cpp:17-273 | every printed tree is accepted with the request it denotes, and no byte after it is consumed |
| `RequestLanguage.LanguageIsGrammar` | MiniProtobufServer/HttpServer/request_parser.cpp:17-273 | an input is accepted if and only if it starts with a printed tree; every such tree gives the outcome |
| `RequestLanguage.PrefixFree` | MiniProtobufServer/HttpServer/request_parser.cpp:17-273 | no request is a proper prefix of another, and the bytes fix what is denoted |
| `RequestLanguage.RefusedAsSoonAsHopeless` | MiniProtobufServer/HttpServer/request_parser.cpp:17-273 | an input is refused if and only if no continuation of it would be accepted |
| `RequestLanguage.RequestRoundTrip` | MiniProtobufServer/HttpServer/request_parser.cpp:17-273 | a request printed in plain form parses back to itself |
| `RequestLanguage.HandedOnIsOk` | MiniProtobufServer/HttpServer/request_parser.cpp:17-302 | every request handed on has token names, a token method and no control characters |
| `RequestHandler.UrlDecode` | MiniProtobufServer/HttpServer/request_handler.cpp:79-116 | the decoding loop computes the reference decoding, partial output on failure included, never longer than its input |
| `RequestHandler.ExtractIsScan` | MiniProtobufServer/HttpServer/request_handler.cpp:87-95 | on two characters, the case distinction of the model is formatted hexadecimal extraction as defined for any text: white space, sign, prefix, digits |
| `RequestHandler.DecodeInvertsWriting` | MiniProtobufServer/HttpServer/request_handler.cpp:79-116 | bytes written in any mixture of plain, plus and escaped form decode to themselves |
| `RequestHandler.DecodedIsWritten` | MiniProtobufServer/HttpServer/request_handler.cpp:79-116 | decoding succeeds on such writings only |
| `RequestHandler.RefusedAtAnEscape` | MiniProtobufServer/HttpServer/request_handler.cpp:85-105 | a refused input decodes up to an escape that is cut off or yields no number |
| `RequestHandler.EscapeOfByte` | MiniProtobufServer/HttpServer/request_handler.cpp:87-95 | every byte value has its two-digit escapes, in either letter case |
| `RequestHandler.FindLast` | MiniProtobufServer/HttpServer/request_handler.cpp:44-45 | the last position of a character, or none |
| `RequestHandler.StaysUnderRoot` | MiniProtobufServer/HttpServer/request_handler.cpp:28-41 | walking the segments of an admitted path never climbs above the root it is appended to |
| `RequestHandler.Extension` | MiniProtobufServer/HttpServer/request_handler.cpp:43-50 | the extension is what follows the last dot of the last segment, and empty if it has none |
| `RequestHandler.ExtensionIsUnique` | MiniProtobufServer/HttpServer/request_handler.cpp:43-50 | that determines it |
| `RequestHandler.Resolve` | MiniProtobufServer/HttpServer/request_handler.cpp:20-53 | refuses exactly undecodable, relative or ".." paths; otherwise names root plus path, index.html added: absolute, not ending in a slash, free of "..", below the root, with its extension |
| `RequestHandler.OpenedIsNamed` | MiniProtobufServer/HttpServer/request_handler.cpp:53-55 | the file opened is the one named if and only if the path has no zero byte |
| `RequestHandler.NamesCanDiffer` | MiniProtobufServer/HttpServer/request_handler.cpp:43-55 | with one, the file is what precedes it and the extension what follows |
| `RequestHandler.OpenedStaysUnderRoot` | MiniProtobufServer/HttpServer/request_handler.cpp:53-55 | in either case the name opened is below the root |

## Left out

- Sockets, sessions, timers, thread pools and asio's event loop: input arrives as chunks, output ends in the send buffer.
- `MessageRoute::ProcessSend` and the asynchronous write that drains the send buffer.
- CallbackList.CallbackList.Remove: of a node already removed, only where that is harmless; what the list looks like after a harmful second removal is shown on the node graph by `CallbackStale.SecondRemovalCutsOff` and `CallbackStale.SecondRemovalMisleads`.
- CallbackList.CallbackList.Insert: takes a linked node or an expired handle; before a removed node that is still alive no sound list results (`CallbackStale.InsertNeedsLinked`).
- CallbackDispatch.ForEach: stops at an edit that met a removed node in a harmful place; `CallbackRaw.Walked` follows such runs on the node graph, not on the heap. A second removal counts as harmless there by the links alone (`CallbackStale.ClosedGapSuffices`), which is stricter than the exact condition.
- CallbackDispatch.DispatchAll: runs in which the 64-bit counter overflows during a traversal are not covered, because the snapshot property fails there (`CallbackArena.OverflowLetsNewcomerIn`). Overflow between traversals is covered.
- CallbackCopy.Copied: plain callbacks only, because a copied counting wrapper shares its count with the original.
- The callback list has one thread; the mutex of the callback list and concurrent dispatches are not modelled.
- The event queue is a step machine rather than a class, because its promises are about interleavings; in-place splicing of its lists is modelled on sequences.
- EventQueueOrder.FirstInFirstOut: with one consuming call at a time and no processIf, which puts events back; `EventQueueOrder.AlwaysAppendOrder` covers it. Parallel consumers settle events in no fixed order.
- EventQueueWake.NoLostWakeUp: one waiting consumer, `wait` without a timeout, and no `DisableQueueNotify` object; unlocked reads of the list see the list as it is at some instant, the data race itself is not modelled.
- `peekEvent`, which changes nothing, and `waitFor`.
- Exceptions thrown by callbacks, listeners or allocation.
- Messages are values, not objects updated in place; arenas, reflection and cached sizes are not modelled. Unknown fields are read past; storing them and writing them back is not modelled.
- Messages.SigninRoundTrip: strings and nested messages below 2^31 bytes, as the library itself demands.
- Framing.ReassemblyIsPrefix: for reqSignin and reqMove, the types that have a processor; other types are parsed by name in the same way and dispatched to nobody.
- Route.MessageRoute.constructor: sets the remembered length to zero, which the original constructor leaves unset; every run starts from that value.
- Route.MessageRoute.Send: messages that fit in the send buffer; the error state of the output stream is not modelled.
- Route.MessageRoute.Receive: arrivals below 2^31 bytes that fit in the buffer; the overflow error of the output stream is not modelled.
- RequestParser.Parser.ConsumeByte: HTTP version numbers are unbounded; the overflow of int is not modelled.
- StreamBuf.StreamBuf.Commit: sizes are unbounded; the narrowing to int in `pbump` and `gbump` is not modelled.
- RequestHandler.Resolve: stops before the file is opened; reading it, MIME types and reply texts are not modelled.
- Event dispatchers, event filters, scoped and conditional removers, which would only add easy members.
- The client, the Android project, the protobuf tools and vendored libraries other than the parts named above.
