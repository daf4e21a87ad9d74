# The document ferry server, modelled in Dafny

The server under `doc_ferry_server` reads requests from client sockets. A request is an
8-byte header (id and length, 32 bits each, in the network byte order of Appendix B of
RFC 791) followed by `length` value bytes. An incremental parser assembles requests from
whatever chunks `recv` delivers, spools each value to a file cache, and queues a 12-byte
response per request; a select loop hands read, write and exception events to the handlers
registered for the sockets. This project models those three cores and proves what they do
over all inputs and all runs.

| file | content |
|---|---|
| `Wire.dfy` | bytes, 32-bit words, network byte order |
| `CacheSpec.dfy`, `CachePart.dfy` | the bounded cache: sequence specification, the two backends, the class |
| `HvSpec.dfy`, `HvPart.dfy` | one header-and-value message: states and operations, the class `HV` |
| `Framing.dfy` | a connection: the read loop, the response queue, chunk independence |
| `Decoder.dfy` | independent recursive decoders for a chunk and for the whole stream, the parser against them, and the cut condition on bytes |
| `Streams.dfy` | lists of messages, and exactly when decoding gives them back |
| `Runs.dfy` | every interleaving of reads and writes of one connection |
| `Replies.dfy` | a client's reader of response frames, and what it reads in every run |
| `VirusHandler.dfy` | the class `VirusHandler`, proved against `Framing` |
| `ReactorSpec.dfy`, `ReactorRuns.dfy` | the registry, one event, one pass, `do_select` |
| `Server.dfy` | whole runs of the server, end to end |
| `Rounds.dfy` | one round told from the answers of the operating system, accepting, rounds in sequence, a client from connection to answer |
| `Reactor.dfy` | the handler and registry classes, proved against `ReactorRuns` and `Server` |
| `CpSocket.dfy` | the send-everything loop |

The specifications are functions on values. `Cache` and `HV` have a view, and `VirusHandler`
and `Registry` keep a ghost copy of the abstract state; every method is proved to move it by
the specification function. `VirusHandler.Play` hands a handler any sequence of events, so the
lemmas about runs of a connection hold of the object and its caches, and `Registry.Loop` does
the same for runs of the server. A `BaseSocket` of the reactor holds its client's connection as
the specification record that `VirusHandler` is proved to follow, not as a `VirusHandler` object.

## How the code is read

- The header copy at `doc_ferry_server/src/hv.cpp:92` advances its destination by whole
  headers, so a copy that does not start at `hlen == 0` leaves the header. This is undefined
  behaviour; the model records a fault and says nothing afterwards. `Framing.ChunkIndependence`
  and `Runs.RunFollows` say exactly when it happens.
- `clear` keeps the full cache of a message shorter than 1024 bytes
  (`doc_ferry_server/src/hv.cpp:18-33`), so the next message takes no value bytes. The decoder
  carries that cache; `Streams.DecodesBack` says exactly which message lists survive.
- `cache_push` returns a byte count as a signed `int` (`doc_ferry_server/src/cache_part.cpp:196-220`),
  not the 0, 1 or -1 its comment announces. With a 64-bit `size_t` the comparison at
  `doc_ferry_server/src/hv.cpp:183` then fails for a length of 2^31 or more and the message is
  dropped; with a 32-bit `size_t` it would succeed, which is not modelled.
- `write` takes the length of its buffer as an `int` (`doc_ferry_server/src/hv.cpp:137`), so a
  buffer of 2^31 bytes or more arrives with another length, and nothing is written when that is
  not positive. `HvSpec.PrinterParserRoundTrip` includes both.
- A message completes only in a call that offers `write_value` at least one byte, so an empty
  message waits for the next byte.
- Whether a file cache or a memory cache can be created, for each connection and each request
  separately, and what the operating system answers during an event, are parameters quantified
  in every theorem. `select` leaves only bits set that it was given, a file takes every byte
  written to it, and the operating system never hands out a descriptor that is open.
- Chunk independence, the refinement of the parser, the invariants of states, queue and cache
  ownership, and the server's answers hold whatever caches fail. Only the theorems that treat
  the input as one stream of messages assume that the file caches of requests can be created
  (`FilesCreated`); without that, `Framing.ChunkIndependence` shows that the chunks matter.
- When a `send` fails for good, the handler closes itself and the loop of `handle_write` goes
  on (`doc_ferry_server/src/base_socket.cpp:264-290`, `doc_ferry_server/src/virus_handler.cpp:90-113`):
  the queue is emptied and its caches are released, and later sends fail on the closed
  descriptor. The model follows that reading, although the handler object has by then left the
  map that owns it. Answers of the operating system that announce a failure which no `send`
  would meet are covered too; the handler then closes as well.
- `stored` is what the caches of requests accepted. The file a full cache leaves holds just
  that, except that an empty one holds the uninitialised byte that was to stretch it
  (`doc_ferry_server/src/cache_part.cpp:83-93`).
- The host is little-endian where the response state is sent as raw memory. The client at
  `client/test_client.cpp:296-297` applies `ntohl` to it, which gives the right number for OK only
  (`Replies.StateOrder`).

## Model

| member | source | states |
|---|---|---|
| `Framing.ChunkIndependence` | doc_ferry_server/src/virus_handler.cpp:56-85 | From every state and whatever caches fail, receiving `a` then `b` leaves the same connection (parser, cache, queue, files) as receiving `a + b` if and only if `a` does not end inside a header and no request in `a` is refused its file cache; the exceptions are an empty part and a connection already faulted or already inside a header. |
| `Decoder.CutOnBytes` | doc_ferry_server/src/virus_handler.cpp:56-85 | The same condition on what is known before the call: the bytes in progress followed by `a` do not decode to a cut header, and no request among them lacks a file cache that cannot be created. |
| `Framing.LoopStep` | doc_ferry_server/src/virus_handler.cpp:57-85 | Each iteration of the read loop ends the loop, or uses a byte, or turns a complete head into an incomplete one; with it the loop terminates although an iteration may use no byte. |
| `Framing.NoStrayInside` | doc_ferry_server/src/hv.cpp:76-103 | A buffer that does not start inside a header never makes the header copy leave the header, wherever it ends. |
| `Framing.ReadMoves` | doc_ferry_server/src/virus_handler.cpp:56-85 | A read that starts between messages queues a reply or leaves part of a message in progress. |
| `Decoder.DecodeResumes` | doc_ferry_server/src/hv.cpp:105-161 | The recursive decoder can be suspended after any byte and resumed from the kept cache and the unfinished message. |
| `Decoder.LoopFollows` | doc_ferry_server/src/virus_handler.cpp:57-85 | The read loop, started in the middle of any message, makes of a chunk what a recursive chunk decoder does, whatever caches fail: a request refused its cache is answered with INTERNAL_ERROR and the rest of the chunk is dropped. |
| `Decoder.LoopDecodes` | doc_ferry_server/src/virus_handler.cpp:57-85 | If no request is refused its cache, the read loop replies, files and ends as the recursive decoder of the whole stream does on the unfinished part followed by the new bytes. |
| `Decoder.RefusedOnBytes` | doc_ferry_server/src/virus_handler.cpp:60-67 | The loop is refused a file cache exactly when the bytes in progress and the chunk contain a request without one whose creation fails. |
| `Decoder.BytesConserved` | doc_ferry_server/src/hv.cpp:76-161 | Headers and values of the completed requests followed by the unfinished message are the input, byte for byte. |
| `Runs.RunFollows` | doc_ferry_server/src/virus_handler.cpp:40-115 | For every interleaving of reads and writes, every chunking and every failure of caches and socket: the parser faults exactly when some chunk arrives while the bytes in progress end inside a header, and otherwise has the replies, the files, the kept value and the message in progress of the chunk decoder. |
| `Runs.AssembleIsDecode` | doc_ferry_server/src/virus_handler.cpp:40-86 | If every request is given its file cache, decoding chunk by chunk is decoding the whole stream at once. |
| `Runs.RunDecodes` | doc_ferry_server/src/virus_handler.cpp:40-115 | Hence in every such run the parser faults exactly when some chunk arrives while the bytes before it end inside a header, and otherwise has reached what the recursive decoder makes of all bytes received. |
| `Runs.CutHeaderFaults` | doc_ferry_server/src/hv.cpp:76-103 | A header that arrives as two reads of one byte each makes the parser fault. |
| `Runs.RunAnswers` | doc_ferry_server/src/virus_handler.cpp:31-115 | In every run that keeps headers whole, whatever fails: bytes the socket took, bytes lost after it failed and bytes due for the queue are the responses due for the replies of the decoder, in order; nothing is lost unless the socket fails. |
| `Runs.FlushAnswersAll` | doc_ferry_server/src/virus_handler.cpp:88-115 | After a write event the queue is empty, every response cache is released, everything due was taken by the socket or lost when it failed, and a socket that has not failed has taken it all. |
| `Runs.WriteOutSends` | doc_ferry_server/src/virus_handler.cpp:88-115 | A write event during which the socket takes only `n` more bytes: exactly the first `n` bytes due go out, the rest is lost, and the queue is emptied and its caches released all the same. |
| `Replies.ReplyLayout` | doc_ferry_server/src/virus_handler.cpp:31-38 | A response is twelve bytes: the id of its request and the length 4 in network order, then its state as 0, 1, 2 or 3 in one byte and three zero bytes. |
| `Replies.StateOrder` | client/test_client.cpp:296-297 | Reading the state in network order gives its number if and only if it is OK. |
| `Replies.ReadsBack` | doc_ferry_server/inc/interface.h:10-29 | A reader that knows only the frame format gives back the ids and states of any list of replies from their bytes. |
| `Replies.ClientReads` | doc_ferry_server/src/virus_handler.cpp:31-115 | At any point of any run, whatever fails, a client reads in the bytes offered to it exactly the id and state of each reply popped so far, in order, leaving out those whose cache could not be created; unless the socket failed it was sent them all. |
| `Replies.FlushReads` | doc_ferry_server/src/virus_handler.cpp:88-115 | After a flush on a working socket with every response cache created, a client has read exactly one frame per reply of the decoder, with its id and state. |
| `Runs.RunConserves` | doc_ferry_server/src/hv.cpp:76-161 | Bytes received are 8 per completed request plus the value bytes each took plus `hlen` plus the value bytes in progress; 8 times the replies never exceeds the input. |
| `Runs.LongMessagesReassembled` | doc_ferry_server/src/virus_handler.cpp:40-86 | For messages of at least 1024 bytes under every chunking that keeps headers whole: the closed files hold exactly the values in order, there is one OK per message with its id in order, the bytes sent, lost and due for the queue are the answers to the messages, and the parser is back at its start. |
| `Runs.RequestsAreMessages` | doc_ferry_server/src/hv.cpp:18-135 | For every list of messages, on the run itself: every message is answered with its id in order, and the files closed followed by the full cache still open hold the values sent, if and only if every message but the last has at least 1024 bytes and the last is not empty. |
| `Runs.FilesAreValues` | doc_ferry_server/src/hv.cpp:18-135 | The same for the files alone: every message is answered and the closed files hold exactly the values sent, if and only if every message has at least 1024 bytes. |
| `Runs.ShortLastStaysOpen` | doc_ferry_server/src/hv.cpp:18-33 | When only the last message is short, all others are in files and its value stays in the cache of the request object. |
| `Runs.ReachableStates` | doc_ferry_server/src/hv.cpp:8-135 | In every run, failures included: the head is complete exactly at 8 bytes, a cache between messages is full and belongs to a short message, and `to` is assigned before `clear` can read it. |
| `Runs.CachesOwned` | doc_ferry_server/src/virus_handler.cpp:31-115 | In every run, failures included: the response caches created are those whose memory could be allocated; those of replies already popped have been released, each exactly once and in order, and exactly the queue entries whose cache was created hold one. |
| `Runs.FailedCreation` | doc_ferry_server/src/virus_handler.cpp:60-67 | If the file cache cannot be created, one INTERNAL_ERROR with the request's id is queued, the parser is at its start, and the rest of the chunk is dropped. |
| `Runs.FailureDependsOnCut` | doc_ferry_server/src/virus_handler.cpp:60-67 | A connection that waits for a request whose file cache cannot be created, and has no kept cache, can be given its bytes in two parts if and only if the first part completes the header and no more. |
| `Streams.DecodesBack` | doc_ferry_server/src/hv.cpp:18-135 | Decoding the stream of a list of messages gives the list back if and only if every message but the last has at least 1024 bytes and the last is not empty. |
| `Streams.KeptCacheSpoils` | doc_ferry_server/src/hv.cpp:18-33 | While a full cache is kept, no non-empty list of messages is decoded back. |
| `Streams.LongMessagesFiled` | doc_ferry_server/src/hv.cpp:50-135 | A stream of long messages decodes to those messages, their values as files, and nothing left over. |
| `Streams.ShortMessagesMisread` | doc_ferry_server/src/hv.cpp:18-33 | Two one-byte messages: the second takes no value byte and its value becomes the start of a third header. |
| `HvSpec.PrinterParserRoundTrip` | doc_ferry_server/src/hv.cpp:137-194 | Storing a value, emitting header and value in 4096-byte pops and parsing the bytes in one call gives a complete message with the same id, length and value, if and only if the value has 1 to 2^31 - 9 bytes; it is stored at all if and only if it has fewer than 2^31. |
| `HvSpec.HeaderRoundTrip` | doc_ferry_server/src/hv.cpp:50-66 | The header printed with `htonl` is read back by `ntohl`. |
| `HvSpec.HeaderLayout` | doc_ferry_server/inc/interface.h:10-17 | On the wire the id precedes the length, each with its most significant byte first. |
| `HvSpec.PopAllIsUnread` | doc_ferry_server/src/virus_handler.cpp:101-104 | Draining a cache in pieces of any size yields exactly its unread bytes. |
| `HvSpec.Write` | doc_ferry_server/src/hv.cpp:137-161 | Keeps the invariant of the message object for every input and never claims more bytes than offered. |
| `CacheSpec.FirstInFirstOut` | doc_ferry_server/src/cache_part.cpp:169-220 | For every sequence of pushes and pops, what was popped followed by what is unread is what was unread before followed by the offered stream cut at the capacity. |
| `CacheSpec.BackendsAgree` | doc_ferry_server/src/cache_part.cpp:50-100 | For every list of pushes, a heap block with any contents and a file stretched to capacity and rewound give the same counts, the same full reports and the same first `widx` bytes. |
| `CacheSpec.PushTwice` | doc_ferry_server/src/cache_part.cpp:196-220 | Two pushes accept what one push of both strings accepts. |
| `CacheSpec.PopIsPrefix` | doc_ferry_server/src/cache_part.cpp:169-193 | A pop of `n` hands out the first `n` unread bytes, or all of them if there are fewer, and leaves the others unread. |
| `CacheSpec.PushIsPrefix` | doc_ferry_server/src/cache_part.cpp:196-220 | A push accepts as much of what is offered as fits the capacity, in order, and its count is how much that is. |
| `CachePart.CreateCache` | doc_ferry_server/src/cache_part.cpp:102-152 | A new, empty cache of the given capacity on the backend the storage kind selects (automatic: memory up to 1048576 bytes), or null when creation fails. |
| `CachePart.Cache.Push` | doc_ferry_server/src/cache_part.cpp:196-220 | Moves either backend as the specification does and returns the count as a signed 32-bit value, or -1 without a backend. |
| `CachePart.Cache.Pop` | doc_ferry_server/src/cache_part.cpp:169-193 | Hands out the first `data_len` unread bytes of a memory cache, or all if there are fewer, nothing from a file, -1 without a backend. |
| `CachePart.Cache.Delete` | doc_ferry_server/src/cache_part.cpp:222-241 | Drops the heap block, or else the file. |
| `CachePart.Cache.Leave` | doc_ferry_server/src/cache_part.cpp:154-167 | Leaves the whole file behind and releases the structure, which must not have been released. |
| `HvPart.HV.Clear` | doc_ferry_server/src/hv.cpp:18-33 | Moves the message as the specification does; the cache is released exactly when the message was to go to a file, and a full one leaves a file with the bytes it accepted, or one byte if it had no room. |
| `HvPart.HV.WriteHead` | doc_ferry_server/src/hv.cpp:76-103 | Takes the missing header bytes, or reports the copy that leaves the header. |
| `HvPart.HV.WriteValue` | doc_ferry_server/src/hv.cpp:105-135 | Creates the cache if there is none, pushes, and completes the message when the cache is full. |
| `HvPart.HV.Write` | doc_ferry_server/src/hv.cpp:137-161 | Header then value, as the specification, for a buffer of any length, which arrives as a signed `int`. |
| `HvPart.HV.Store` | doc_ferry_server/src/hv.cpp:163-194 | Stores a message to send, releasing a previous cache; fails for lengths whose count does not fit a signed `int`. |
| `VirusHandlerPart.VirusHandler.HandleRead` | doc_ferry_server/src/virus_handler.cpp:40-86 | The loop over the buffer terminates and moves the connection exactly as `Framing.Read`; the handler keeps its own objects, takes only new ones, and forgets no response cache. |
| `VirusHandlerPart.VirusHandler.HandleWrite` | doc_ferry_server/src/virus_handler.cpp:88-115 | Empties the queue as the specification, whether or not the socket fails; afterwards every response cache ever created has been released, and a second release is impossible. |
| `VirusHandlerPart.VirusHandler.Play` | doc_ferry_server/src/virus_handler.cpp:40-115 | Any sequence of read and write events, handed to a new handler one after the other, leaves the object in the state of the abstract run, with every live response cache in the queue. |
| `VirusHandlerPart.VirusHandler.Request` | doc_ferry_server/src/virus_handler.cpp:25-29 | Clears the request object and leaves the queue as it was. |
| `VirusHandlerPart.VirusHandler.Response` | doc_ferry_server/src/virus_handler.cpp:31-38 | Appends one message, in an object and a cache of its own, and leaves the others as they were. |
| `VirusHandlerPart.VirusHandler.Writable` | doc_ferry_server/src/virus_handler.cpp:20-23 | A client wants to write exactly when a response is queued. |
| `VirusHandlerPart.VirusHandler.SendPieces` | doc_ferry_server/src/virus_handler.cpp:101-104 | Offers exactly the unread bytes of a cache to the socket, in pieces of at most 4096. |
| `VirusHandlerPart.ResponseQueue.Push` | doc_ferry_server/src/virus_handler.cpp:31-38 | Appends a message whose object and cache are in no other entry; the other entries keep what they hold. |
| `VirusHandlerPart.ResponseQueue.Pop` | doc_ferry_server/src/virus_handler.cpp:90-93 | Hands out the first message; neither it nor its cache is in the queue any more. |
| `ReactorSpec.TurnAffordable` | doc_ferry_server/src/base_socket.cpp:536-578 | A turn whose bits are covered by `retv` does what it would without a budget, and spends exactly one per event handed out, at most its own bits. |
| `ReactorSpec.BudgetIrrelevant` | doc_ferry_server/src/base_socket.cpp:536-578 | Whenever `retv` covers the set bits, the loop with the early exit is the loop that looks at every socket, for every behaviour of the handlers. |
| `ReactorSpec.BudgetCaps` | doc_ferry_server/src/base_socket.cpp:536-578 | Whatever `retv` is, the loop hands out at most that many events. |
| `ReactorSpec.ConnectFirst` | doc_ferry_server/src/base_socket.cpp:331-378 | A connection under way is completed, or closed on a pending error, before a read or write event does anything else. |
| `ReactorSpec.EventLocal` | doc_ferry_server/src/base_socket.cpp:331-391 | An event changes no handler but its own, adds handlers only on closed descriptors, keeps the registry invariant, and is logged with what the operating system answered; a handler that closes itself is recorded as it was. |
| `ReactorSpec.TurnLocal` | doc_ferry_server/src/base_socket.cpp:536-578 | The turn of a socket is the turn of its handler taken on its own. |
| `ReactorRuns.PassIsLocal` | doc_ferry_server/src/base_socket.cpp:536-578 | A pass hands out exactly the events that can be read off the handlers registered at its start; each handler ends as its own turn left it, or closed as that turn last had it, its descriptor at most reused by a newer handler. |
| `ReactorRuns.PassLogFresh` | doc_ferry_server/src/base_socket.cpp:536-578 | No stale readiness: every event goes to the handler registered when the sets were built, with the answer meant for that socket, in ascending order of socket and of read, write, exception, so each at most once. |
| `ReactorRuns.Served` | doc_ferry_server/src/base_socket.cpp:536-578 | A visited socket is handed an event exactly when its handler's own turn includes it. |
| `ReactorRuns.TurnPhases` | doc_ferry_server/src/base_socket.cpp:538-577 | Which of the three events a turn consists of: the bit is set, the handler has not closed itself in an earlier phase, and it is still readable or writable. |
| `ReactorRuns.TurnHanded` | doc_ferry_server/src/base_socket.cpp:536-578 | The checks repeated before each event never fail for a set bit: a handler is handed an event exactly when its bit is set and it has not closed itself in an earlier phase, and it ends as those events leave it. |
| `ReactorRuns.BitsAreRetv` | doc_ferry_server/src/base_socket.cpp:456-490 | The number `select` returns is the number of bits the dispatch loop will find. |
| `ReactorRuns.MaxFdBounds` | doc_ferry_server/src/base_socket.cpp:439-502 | Every watched socket is at most `max_fd`, which is 0 exactly when nothing is watched. |
| `ReactorRuns.ReadyFromSelect` | doc_ferry_server/src/base_socket.cpp:456-534 | The bits found for a registered socket are those `select` set; only a handler that wants to write and does not accept was asked about writing. |
| `ReactorRuns.DoSelectSound` | doc_ferry_server/src/base_socket.cpp:434-580 | One call, for every answer of the operating system: the budgeted loop is the full pass, no event is stale, a registered socket gets a read, write or exception event exactly when `select` set that bit (for writing: of a handler that was asked) and its handler has not closed itself in an earlier phase of the pass; a failed `select` changes nothing. |
| `Rounds.ClientRound` | doc_ferry_server/src/base_socket.cpp:434-580 | A client in one call, from the answers of the operating system alone: it is handed a read event exactly if its read bit was set, a write event exactly if its write bit was set with responses queued and it was not hung up on, an exception event exactly if that bit was set and it had not closed; it closes exactly if `recv` delivered nothing, a `send` failed or the exception bit was set, and otherwise stays with what it received and flushed in its history. |
| `Rounds.ListenerRound` | doc_ferry_server/src/base_socket.cpp:331-391 | An accepting listener gets its read and exception events exactly as `select` says, never a write event, and goes only on an exception with an error pending. |
| `Rounds.AcceptRound` | doc_ferry_server/src/tcp_server.cpp:14-34 | When a listener's read bit is set and `accept` returns a positive descriptor that was closed, then after the call that descriptor is open and holds a client with a new serial and no history, or no handler if the peer was unusable. |
| `Rounds.OnlyAccepted` | doc_ferry_server/src/base_socket.cpp:81-126 | Every handler that is new after a call is a client without history that a listener, its read bit set, accepted from a usable peer on that descriptor. |
| `Rounds.ServeConcat` | doc_ferry_server/src/base_socket.cpp:601-616 | Running some rounds and then others is running them all. |
| `Rounds.ServeOneMore` | doc_ferry_server/src/base_socket.cpp:601-616 | One more round is one more `do_select` while handlers remain, and nothing otherwise. |
| `Rounds.RoundServed` | doc_ferry_server/src/base_socket.cpp:601-616 | In every run no round is skipped: round `k` is one `do_select` on what the rounds before it left, its events stay in the log, and a socket whose read bit is set in it has its read event there. |
| `Rounds.RoundAccepts` | doc_ferry_server/src/tcp_server.cpp:14-34 | In every round of every run, the listener lets in the peer that `accept` returns. |
| `Rounds.ServerStarts` | doc_ferry_server/src/tcp_server.cpp:5-12 | A server with a listening socket watches exactly that socket, for reading and exceptions and not for writing, and lets in its first peer; one without stays empty. |
| `Rounds.ClientServed` | doc_ferry_server/src/virus_handler.cpp:40-115 | From start to answer: a peer that connects and sends any non-empty list of messages of at least 1024 bytes has, after three rounds in which its socket is ready, every value in a file and reads one frame per message with its id and OK. |
| `Server.EventLogs` | doc_ferry_server/src/base_socket.cpp:331-391 | Every event adds to the history of its own handler exactly the bytes delivered or the flush, also when it closes the handler, and to no other; the histories of closed clients stay. |
| `Server.EventAccounts` | doc_ferry_server/src/base_socket.cpp:305-391 | Every event leaves each handler that ever entered the map in it or among the closed ones. |
| `Server.DeliveredIsReceived` | doc_ferry_server/src/virus_handler.cpp:40-55 | The bytes of the history rebuilt from the log are those `recv` delivered in the read events handed to that handler. |
| `Server.ServerRegistry` | doc_ferry_server/src/base_socket.cpp:583-619 | In every run of the server each key is its handler's own valid, open descriptor; there is at most one listener and it accepts; the history of each client, connected or closed, is the one rebuilt from the log of what was delivered to it; and every handler ever registered is in the map or among the closed ones. |
| `Server.WriteReadyDrains` | doc_ferry_server/src/base_socket.cpp:536-578 | Progress: in every call where a client with queued responses is ready for writing, all of them are offered to its socket, with the answers to what it sent in the same pass; its queue is empty and its caches are released even if the socket fails or an exception closes it, and a socket that works takes everything. |
| `Server.ServerAnswers` | doc_ferry_server/src/base_socket.cpp:583-619 | End to end, in every run and whatever fails, for every client, connected or closed: it received the bytes `recv` delivered in the events handed to it, its parser faulted exactly if one of them fell inside a header, and otherwise its replies and files are those of the decoder and the bytes sent, lost and queued are the answers due, however descriptors were reused; the bytes offered to it read as the ids and states of the replies popped, and a connected client has lost nothing. |
| `Server.ClosedForever` | doc_ferry_server/src/virus_handler.cpp:9-12 | Nothing is read from or flushed to a client after it has closed; if its last event was a flush, its queue was emptied and its caches released, otherwise the response caches still in its queue are never released. |
| `ReactorPart.BaseSocket.HandleReadEvent` | doc_ferry_server/src/base_socket.cpp:331-349 | Accepts, completes a connection, reads or closes, exactly as the abstract event. |
| `ReactorPart.BaseSocket.HandleWriteEvent` | doc_ferry_server/src/base_socket.cpp:351-365 | Completes a connection, flushes or closes, exactly as the abstract event; a client whose `send` fails closes and still empties its queue. |
| `ReactorPart.BaseSocket.HandleExptEvent` | doc_ferry_server/src/base_socket.cpp:380-391 | Closes a client, and a listener only with an error pending. |
| `ReactorPart.BaseSocket.HandleConnectEvent` | doc_ferry_server/src/base_socket.cpp:367-378 | Marks the handler connected, or closes it. |
| `ReactorPart.BaseSocket.HandleAccept` | doc_ferry_server/src/tcp_server.cpp:14-34 | Registers a handler for a descriptor that was closed; the others stay. |
| `ReactorPart.BaseSocket.Close` | doc_ferry_server/src/base_socket.cpp:305-312 | Leaves the map and closes its own descriptor only. |
| `ReactorPart.Registry.AddChannel` | doc_ferry_server/src/base_socket.cpp:25-33 | The map holds the handler under its descriptor and is otherwise unchanged. |
| `ReactorPart.Registry.BuildSets` | doc_ferry_server/src/base_socket.cpp:456-490 | The three sets, the ascending list of watched sockets and its maximum. |
| `ReactorPart.Registry.TakeTurn` | doc_ferry_server/src/base_socket.cpp:536-578 | The turn of one socket with its budget and early exits. |
| `ReactorPart.Registry.DoSelect` | doc_ferry_server/src/base_socket.cpp:434-580 | The two loops over the changing map are the abstract `do_select`. |
| `ReactorPart.Registry.Loop` | doc_ferry_server/src/base_socket.cpp:608-616 | Rounds until the count is reached or no handler is left. |
| `ReactorPart.Registry.constructor` | doc_ferry_server/src/tcp_server.cpp:5-12 | A new registry holds the listening socket, accepting, if it could be created. |
| `CpSocket.SendAll` | doc_ferry_server/src/cp_socket.cpp:286-315 | Terminates; the bytes taken are a prefix of the buffer in order, the result is `len` exactly when that prefix is the whole buffer, and otherwise tells a send that took nothing from one that failed. |

## Left out

- VirusHandlerPart.VirusHandler.Send: the socket takes every byte until it fails for good; `handle_write` ignores sends that come back short on a working socket, so the output theorems assume there are none.
- ReactorPart.Registry.Loop: a count of 0 runs without bound; it is covered by its finite prefixes, which `Server.Serve` quantifies over.
- Memory after a header copy has left the header: undefined behaviour, the model stops at the fault.
- Lifetimes of C++ objects, such as a handler removed from the map while one of its methods runs: removal from the map is the observable effect.
- Reading a file cache back: the stream is write-only, so a pop yields nothing.
- File names, timestamps, directories and the size limits of preallocation in `create_cache`, and two caches created in the same microsecond sharing a name.
- `vlen` and the `state` field of `VirusHandler`: set and never read.
- The destructor of `TCPServer` and a null map passed to the handlers.
- Real sockets, address parsing, blocking mode, logging and timeouts.
- `socket_exception`, `client`, `server`, `char_2_wchar`, `truncate` and the `test_*` folders: demonstrations and copies.
