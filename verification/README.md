# Models of libjingle's base library

Dafny models of the stateful parts of libjingle's `talk/base`, and of the output side of one of
its clients, with proofs of what their callers rely on. A class holds the fields of the original
that its model needs, its methods take the same branches with the same constants, and each is
proved against a function of the inputs or of the old state; the laws are then proved of those
functions, for all inputs and over all runs. The environment - the answers of networks,
sockets, documents and pools, handlers, the clock, files - is a parameter of the operations.

| file | models |
|---|---|
| `HttpText`, `HttpGrammar`, `HttpMemory`, `HttpReceiving`, `HttpReceiver` | the incremental HTTP parser and its receive buffer, against a parse of the whole stream |
| `HttpChunks`, `HttpSender`, `HttpMessage`, `HttpNumbers`, `HttpLines`, `HttpDelivery` | chunked coding, the sender with its buffer, whole messages, their numbers and their lines, and two ends of one connection |
| `TcpPackets` | packets over TCP: sender, receiver, and both with bytes under way |
| `DelayedHeap`, `QueueModel`, `QueueLaws`, `QueueOrder`, `QueuePromises`, `MessageQueue` | the message queue: a model with its laws, its order and its promises, and the class with list, heap and slot that refines it |
| `LinkedPtrs` | the ownership ring of `linked_ptr` |
| `Dispatchers` | the dispatcher list with its registered cursors, and nested passes over it |
| `Bytes`, `ByteBuffers` | byte order, the byte queue, and the XMPP socket's output |
| `Md5`, `Md5Vector`, `Base64` | the streaming digest with a known answer, and the encoder and decoder |
| `HttpAttributes`, `HttpAuth`, `HttpClient` | attribute lists, Basic and Digest responses, and the client's retries, redirections and authentication |
| `DiskCache`, `DiskEviction` | locking and accounting, and exactly what eviction does |
| `Networks` | the merging of network lists |
| `Wrappers` | optional values, and facts about sequences |

`dafny verify dfyconfig.toml` checks the whole project.

## Where the code departs from its intent

The models follow the code. Each departure has a lemma that shows it and a statement of exactly
when the intent is met.

- A Content-Length header without a value is scanned beyond its end, into whatever the buffer
  holds there (`httpbase.cc:170`): `HttpGrammar.HeaderLineIsPredictable`, `EmptyValueReadsOn`.
- A connection that closes cleanly while the document has stalled loses exactly the bytes that
  are still buffered, without an error (`httpbase.cc:491-589`): `HttpReceiver.HttpBase.DoReceiveLoop`,
  and a case in which that is the whole body: `HttpDelivery.BodyUnread`, `CloseLosesBody`.
- `send` chunks the body if its first Transfer-Encoding header is exactly "chunked", while the
  parser goes by the last one and ignores case (`httpbase.cc:176`, `432-436`): exactly when the
  two sides agree is in `HttpMessage.CodingAgreed` and `OneCodingAgreed`, and what happens
  otherwise in `RawReadAsChunks`.
- Without a document, and with all headers queued, `flush_data` calls a blocked network again
  and again instead of waiting for it (`httpbase.cc:599-717`): exactly then, by the result `spun`
  of `HttpSender.HttpBase.FlushStep`; and without end, by `HttpSender.TriesForever`.
- `AsyncTCPSocket::Send` accepts packets of 65536 bytes, whose length field is 0
  (`asynctcpsocket.cc:107-116`): `TcpPackets.FrameRoundTrip`.
- A `Get` may return nothing from a stopped queue although a message is ready, in three ways. The
  message and `Quit` may come after its look at the queues and before its test of the stop flag
  (`messagequeue.cc:222-228`): `QueuePromises.GapBreaksIt`. The message may come from a `Post`
  that has tested the flag before `Quit` (`messagequeue.cc:260-303`): the same lemma. Or both may
  arrive in its last wait, after which it does not look again (`messagequeue.cc:227-252`):
  `LastWaitBreaksIt`. Exactly which calls are safe: from all of it, `QuitKeepsItsPromise`; with no
  post that is late, `WithoutLatePosts`; with no such gap, `WithoutGaps` and, when waits may fail,
  `FailingWaits`.
- Where padding is required, ignorable characters at the end of a text that does not end with
  padding make Base64 decoding fail (`base64.cc:224-236`): `Base64.IgnoredCharacters`, `TrailingNewline`.
- Credentials are encoded and hashed up to their first NUL only (`httpcommon.cc:766-789`, `818-834`):
  `HttpAuth.BasicIsDecoded`, `A1IsWhole`.
- `CheckLimit` starts its scan one entry too far and reads past the end of the map when the
  first idle entry is the last one (`diskcache.cc:253-257`): exactly when it comes to that is in
  `DiskEviction.LimitExactly`, and for a cache with nothing in use in `DiskCache.IdleCacheRunsPastTheEnd`.
- `LockResource` may lock an entry that `CheckLimit` has just erased (`diskcache.cc:114-126`):
  exactly when, in `DiskEviction.LockDanglesExactly`; in an ordinary run, in `LockTwice`; never for
  a resource in use or within the limit, by `DiskCache.LockKeepsEntry`.
- `Purge` does not reset `total_size_` (`diskcache.cc:98-112`): `DiskCache.DiskCache.Purge`.
- `HttpClient` takes the code of an internal server error for a sign that nothing has been
  received, so that a request may be repeated although it was answered (`httpclient.cc:693-700`):
  `HttpClient.RetryAsIntended`, `ServerErrorIsRetried`.

## Assumptions

- `size_t` and `unsigned long` are 64 bits wide, `uint32` is 32 bits wide (md5.h declares it as
  `long`), and characters are taken one by one.
- What a leader means is a function of its line. Both kinds of leader are scanned without regard
  to the end of the line (`httpcommon.cc:530-535`, `648-660`), so that one with too few fields
  takes them from what follows it in the buffer.
- A stream that reports success has moved at least one byte and no more than it was given, and a
  document that has reported its end goes on doing so.
- One thread calls `Get` and `Peek` of a queue. Other threads post, clear and quit, but do not
  restart it: before the test of the stop flag, during a wait, and between calls. Their critical
  sections are atomic, and so is what a call does from a look that finds a message to its end.
- A trigger time does not wrap, and neither does the number of a delayed message.
- A resource id, and the name of a network, stand for their place in the order of the keys.
- A handler removes only dispatchers that are in the list.
- Two networks on a new list have two names, and its objects are not owned yet.

## Model

| member | source | states |
|---|---|---|
| HttpGrammar.LineIgnoresMemory | talk/base/httpbase.cc:144-230 | what a header, chunk or trailer line means does not depend on the memory behind it, apart from an empty Content-Length |
| HttpGrammar.EmptyValueReadsOn | talk/base/httpbase.cc:165-185 | for an empty Content-Length it does: two contents of that memory give two sizes |
| HttpGrammar.HeaderLineIsPredictable | talk/base/httpbase.cc:144-230 | a header line means the same whatever follows it in memory if and only if it is not an empty Content-Length |
| HttpGrammar.DataInPieces | talk/base/httpbase.cc:111-138 | body data may be taken in any number of pieces without changing the outcome |
| HttpGrammar.Resume | talk/base/httpbase.cc:79-142 | parsing a then b is parsing a + b, with the unconsumed rest of a presented again |
| HttpGrammar.SplitIndependence | talk/base/httpbase.cc:79-142 | however a stream is cut into calls, header events, body bytes, final state, unread rest and result are those of one call on the whole |
| HttpGrammar.FollowsMore | talk/base/httpbase.cc:567-584 | a parser in step with a stream stays in step when both grow by the same bytes |
| HttpReceiving.OneLine | talk/base/httpbase.cc:86-110 | one line handled as prescribed is a step of the parse of the whole input |
| HttpText.LettersMatch | talk/base/httpbase.cc:51-55 | names are matched with letters taken for their counterparts, and everything else for itself |
| HttpReceiving.HttpParser.ProcessHeader | talk/base/httpbase.cc:160-205 | a header line has the meaning that the grammar gives it: fields, coding, length, errors |
| HttpReceiving.HttpParser.ProcessLine | talk/base/httpbase.cc:144-230 | each line state makes the step of the grammar, with its error or completion |
| HttpReceiving.HttpParser.ProcessHeaderComplete | talk/base/httpbase.cc:840-860 | the owner sees the headers once, may set the size, and its error completes; the call is blocked exactly when the owner switches streams |
| HttpReceiving.HttpParser.ProcessData | talk/base/httpbase.cc:862-887 | for a document with any answers: it takes a non-empty prefix, stalls without loss, or fails, as it answers |
| HttpReceiving.HttpParser.ReadLine | talk/base/httpbase.cc:86-110 | the line branch agrees with the grammar on everything up to what it leaves unread |
| HttpReceiving.HttpParser.ReadData | talk/base/httpbase.cc:111-138 | the body branch consumes only bytes that it has handed on, and keeps the outcome of the parse |
| HttpMemory.InMemory | talk/base/httpbase.cc:79-142 | what the parser makes of a buffer in memory is what the grammar makes of the bytes in it, unless that comes to an empty Content-Length |
| HttpReceiving.HttpParser.Process | talk/base/httpbase.cc:79-142 | a call agrees with the grammar on its buffer: state, events, body, unread rest, result and error, and for an empty Content-Length with the memory that it reads on into; it is blocked only by a document that takes nothing of the data that it is offered, or by an owner that switches streams at the end of the headers, and fails the document only if that says so; a completed parser consumes nothing |
| HttpReceiving.EndsLikeParse | talk/base/httpbase.cc:79-142 | so with a document that takes what it is offered, and no switch, a call ends exactly as the grammar does in its memory: with the same state, events, body, unread rest and result |
| HttpReceiver.HttpBase.ReadNetwork | talk/base/httpbase.cc:527-552 | for a network with any answers: what it gives of what has arrived is appended to what is buffered, never beyond 32K; it blocks, ends or breaks as it says |
| HttpReceiver.HttpBase.HandleStreamClose | talk/base/httpbase.cc:491-508 | a close is without error exactly when it is clean and the parser accepts the end of input there |
| HttpReceiver.HttpBase.ProcessBuffer | talk/base/httpbase.cc:567-584 | exactly the processed bytes are moved out, and parser and buffer stay in step with everything received |
| HttpReceiver.HttpBase.DoReceiveLoop | talk/base/httpbase.cc:510-589 | the pump ends or waits for a reason that its last turn has: the end that the stream prescribes, a document that fails or stalls, a switch, a network with nothing to give or closed, a line longer than the buffer, or all its turns used up with everything processed; all turns but the first and the last read something; a close without error delivers the body but for the bytes still buffered, so all of it if and only if there are none |
| HttpReceiver.StaysInStep | talk/base/httpbase.cc:567-584 | agreement on the unread bytes is agreement on the whole stream |
| HttpGrammar.ReadUntilClose | talk/base/httpbase.cc:232-235 | a body without a length takes in everything up to the close |
| HttpReceiver.WaitsForNewline | talk/base/httpbase.cc:86-110 | bytes are left over only for want of the end of a line |
| HttpChunks.HexIsRead | talk/base/httpbase.cc:651-654 | the eight digits written for a size are read back as that size |
| HttpNumbers.NumberIsScanned | talk/base/httpbase.cc:168-205 | the digits of a number, by repeated division, are scanned as that number: in base 10 and 16, in small or capital letters, behind any white space and a sign, whatever follows them that is not a digit |
| HttpNumbers.NothingIsScanned | talk/base/httpbase.cc:168-205 | and where there is no digit nothing is found |
| HttpNumbers.SizeIsRead | talk/base/httpbase.cc:192-205 | the line of a chunk size in hexadecimal, in small or capital digits, announces that many bytes |
| HttpChunks.ChunkIsParsed | talk/base/httpbase.cc:192-219 | a framed piece adds exactly its data to the body, whatever follows it |
| HttpChunks.LastChunkIsParsed | talk/base/httpbase.cc:663-669 | the last chunk and empty trailers complete the parse with nothing consumed beyond them |
| HttpChunks.ChunksAreParsed | talk/base/httpbase.cc:192-219 | any number of framed pieces add their concatenation |
| HttpChunks.ChunkedBodyRoundTrip | talk/base/httpbase.cc:627-677 | for every body and every way of reading it in non-empty pieces, the encoding is parsed to that body and completes (section 3.6.1 of RFC 2616) |
| HttpChunks.EmptyPieceEndsBody | talk/base/httpbase.cc:651-658 | a piece of no bytes would be taken for the last chunk |
| HttpSender.HeadIsExact | talk/base/httpbase.cc:430-443 | leader and line ends go out whole if and only if they fit the buffer |
| HttpSender.PieceProduced | talk/base/httpbase.cc:641-658 | reading a piece extends the text produced by exactly its encoding |
| HttpSender.EndProduced | talk/base/httpbase.cc:662-669 | the end of a chunked document adds exactly the last chunk, once |
| HttpSender.CompleteMessage | talk/base/httpbase.cc:671-677 | when everything has been dealt with, the text produced is the whole message |
| HttpSender.HttpBase.constructor | talk/base/httpbase.cc:414-449 | the buffer starts with the leader and CR LF, and with the closing line if there are no headers; the body will be chunked if and only if the first coding header says so exactly |
| HttpSender.HttpBase.QueueHeader | talk/base/httpbase.cc:722-737 | a header is queued whole, discarded for good when it cannot fit an empty buffer, or left for later |
| HttpSender.HttpBase.QueueHeaders | talk/base/httpbase.cc:718-741 | the closing empty line follows the last header, exactly once; the buffer does not overflow |
| HttpSender.HttpBase.Frame | talk/base/httpbase.cc:647-658 | size and line ends are put around a piece that already lies in the buffer |
| HttpSender.HttpBase.ReadPiece | talk/base/httpbase.cc:641-659 | a piece goes into the buffer with its frame; a read that brings nothing changes nothing |
| HttpSender.HttpBase.QueueEnd | talk/base/httpbase.cc:662-677 | the last chunk goes in once, and the end is reported only with an empty buffer |
| HttpSender.HttpBase.QueueDocument | talk/base/httpbase.cc:622-684 | the document is queued piece by piece, with the text produced always that of the pieces read |
| HttpSender.HttpBase.WriteNetwork | talk/base/httpbase.cc:695-713 | what the network takes leaves the front of the buffer and reaches the wire; a blocked or broken network changes nothing |
| HttpSender.HttpBase.FlushStep | talk/base/httpbase.cc:609-714 | bytes written followed by bytes buffered are the text produced; a turn makes progress, waits for something, or ends; it leaves everything as it was and goes on if and only if there is no document, all headers are queued and the network blocks |
| HttpSender.HttpBase.FlushData | talk/base/httpbase.cc:599-717 | for a network and a document with any answers: it fails, or waits for one of them, only for an answer of that kind in its last turn, and until then every turn with an answer of the network has written; finished means that the whole message is on the wire; waiting for the network means bytes in hand, waiting for the document none; still trying means that the network has blocked that often |
| HttpSender.HttpBase.SendAll | talk/base/httpbase.cc:599-717 | a network that keeps taking bytes, and a document that keeps handing them out, chunked or not: the whole message is sent |
| HttpSender.TriesForever | talk/base/httpbase.cc:599-717 | a message without a document and a network that always blocks: however long it is watched, the loop is still trying |
| HttpMessage.HeaderIsParsed | talk/base/httpbase.cc:722-727 | a header line that is queued, with or without a value, is parsed as that header |
| HttpMessage.HeadIsParsed | talk/base/httpbase.cc:414-443 | a head that fits is received as that leader and those headers, with the coding and the size that they declare |
| HttpMessage.MessageRoundTrip | talk/base/httpbase.cc:414-741 | what a sender produces for a chunked message is received as that leader, those headers and that document, with nothing after it consumed |
| HttpMessage.SizedRoundTrip | talk/base/httpbase.cc:414-741 | so is a message that is not chunked, when the size told is that of the document |
| HttpNumbers.LengthRead | talk/base/httpbase.cc:168-174 | the last Content-Length of a head, in decimal and of any size, is the length: below 2^32 as it is, above that cut to 32 bits, and from 2^64 on the largest number |
| HttpNumbers.LengthRoundTrip | talk/base/httpbase.cc:414-741 | so a message that says the length of its document in decimal is received whole by an owner that keeps the size, with nothing after it consumed |
| HttpNumbers.SingleLength | talk/base/httpbase.cc:414-741 | for example with that header alone, with no more asked of it |
| HttpMessage.UnsizedRoundTrip | talk/base/httpbase.cc:414-741 | and one without a size, up to the end of the connection |
| HttpMessage.CodingAgreed | talk/base/httpbase.cc:432-436 | the two sides agree on whether the body is chunked if and only if the first coding header says exactly 'chunked' and the last one says so ignoring case, or neither does |
| HttpMessage.OneCodingAgreed | talk/base/httpbase.cc:174-183 | for a single coding header: if and only if it says 'chunked' in lower case or not at all |
| HttpMessage.RawReadAsChunks | talk/base/httpbase.cc:186-212 | a body that is sent as it is, to a parser that expects chunks, is waited on as the line of a size |
| HttpLines.NeverFull | talk/base/httpbase.cc:553-559 | a parser that has been given a part of an input whose lines all end within the buffer never waits with the buffer full |
| HttpLines.MessageFits | talk/base/httpbase.cc:622-741 | all lines of a message that is sent end within the buffer of the receiver |
| HttpDelivery.Completion | talk/base/httpbase.cc:599-717 | wherever the sender stands, what it has produced is the beginning of a whole message |
| HttpDelivery.ReceivedSoFar | talk/base/httpbase.cc:79-142 | any beginning of what has been produced is parsed to a beginning of the head events and of the document; a parse that is done has exactly the whole message, without an error |
| HttpDelivery.Exchange.constructor | talk/base/httpbase.cc:414-472 | two ends and an empty connection |
| HttpDelivery.Exchange.Send | talk/base/httpbase.cc:599-717 | what the receiver has read followed by what is on its way is what the sender has written, after any turns of the sender, which ends or waits only for a reason |
| HttpDelivery.Exchange.Receive | talk/base/httpbase.cc:510-589 | after any calls in any order, under any network and any documents, the receiving document holds a beginning of the sending one and the owner has been told a beginning of the head; when the parser is done both have everything, and the only error is a failing document; the buffer never overflows; at a close without an error after everything sent has arrived, the body and what is still buffered are the document |
| HttpDelivery.Exchange.Deliver | talk/base/httpbase.cc:510-717 | and it comes to that end: a network that keeps moving bytes and documents that keep moving data deliver the whole head and the whole document, without an error, and for a body without a length and without chunks when the connection is then closed |
| HttpDelivery.BodyUnread | talk/base/httpbase.cc:232-235 | when the body runs to the end of the connection, a parser that has read the head only is in step with the whole message |
| HttpDelivery.AnswerUnread | talk/base/httpbase.cc:232-235 | for example with the body abc of an ordinary answer |
| HttpDelivery.CloseLosesBody | talk/base/httpbase.cc:491-508 | and a clean close is then taken for the end, without an error, with the whole body lost |
| TcpPackets.FrameRoundTrip | talk/base/asynctcpsocket.cc:106-120 | a packet that Send accepts survives framing if and only if it has at most 65535 bytes |
| TcpPackets.FramesAreRead | talk/base/asynctcpsocket.cc:192-213 | the frames of any packets are read as those packets, whatever follows |
| TcpPackets.PacketsExtended | talk/base/asynctcpsocket.cc:192-213 | more bytes only add packets, so reads may be cut anywhere |
| TcpPackets.EndToEnd | talk/base/asynctcpsocket.cc:106-281 | delivered packets are a prefix of the accepted ones, and all of them once the bytes have drained |
| TcpPackets.AsyncTCPSocket.Flush | talk/base/asynctcpsocket.cc:215-230 | exactly the bytes taken leave the front of the output buffer; an error or a block leaves everything |
| TcpPackets.AsyncTCPSocket.WriteFrame | talk/base/asynctcpsocket.cc:116-124 | header and packet are in the output buffer |
| TcpPackets.AsyncTCPSocket.Send | talk/base/asynctcpsocket.cc:106-130 | refused, dropped without a byte on the wire, or accepted with its frame begun on the wire; each exactly when, with the result and the bytes |
| TcpPackets.AsyncTCPSocket.OnWriteEvent | talk/base/asynctcpsocket.cc:275-281 | exactly as many of the pending bytes as the socket takes go on, in order |
| TcpPackets.AsyncTCPSocket.SignalReadPacket | talk/base/asynctcpsocket.cc:200-212 | the first packet is signalled and moved out of the buffer |
| TcpPackets.AsyncTCPSocket.ProcessInput | talk/base/asynctcpsocket.cc:192-213 | exactly the whole packets in the buffer are signalled, in order |
| TcpPackets.AsyncTCPSocket.OnReadEvent | talk/base/asynctcpsocket.cc:236-273 | exactly the whole packets in what was buffered and what is received are delivered; the rest is less than one frame, so that the overflow branch is not reached |
| TcpPackets.Connection.Submit | talk/base/asynctcpsocket.cc:106-130 | two sockets and the bytes between them stay consistent when a packet is sent |
| TcpPackets.Connection.Writable | talk/base/asynctcpsocket.cc:275-281 | and when the sender can write again |
| TcpPackets.Connection.Readable | talk/base/asynctcpsocket.cc:236-273 | and when bytes arrive; drained means that everything accepted has been delivered |
| TcpPackets.Connection.Drain | talk/base/asynctcpsocket.cc:215-281 | as long as the sockets move something at every event, all accepted packets are delivered, if they are short enough |
| DelayedHeap.TopIsFirst | talk/base/messagequeue.h:141-157 | the top of the heap comes no later than any entry, by trigger time and then number |
| DelayedHeap.Push | talk/base/messagequeue.cc:296-303 | the heap with one more entry |
| DelayedHeap.Pop | talk/base/messagequeue.cc:202-203 | the heap without its top |
| DelayedHeap.MakeHeap | talk/base/messagequeue.h:218-222 | reheap makes any array a heap of the same entries |
| QueueLaws.DueIsExact | talk/base/messagequeue.cc:197-204 | exactly the triggered messages become ready: none early, none left behind |
| QueueLaws.PostBalances | talk/base/messagequeue.cc:260-280 | a post keeps every message accounted for, in time or late; after Quit it is dropped, unless it has tested the flag before |
| QueueLaws.PostDelayedBalances | talk/base/messagequeue.cc:282-304 | so does a delayed post, which keeps the order by trigger time and number |
| QueueOrder.PostedBehind | talk/base/messagequeue.cc:282-304 | it goes behind exactly the delayed messages that are triggered no later, and in front of the others |
| QueueLaws.ClearBalances | talk/base/messagequeue.cc:322-369 | so does Clear |
| QueueLaws.RunConserves | talk/base/messagequeue.cc:155-304 | over every run of calls, each posted message is in exactly one place: delivered, cleared, disposed, peeked at, ready or delayed |
| QueueLaws.RunIsFifo | talk/base/messagequeue.h:165-173 | messages are handed out in the order in which they became ready, over every run without Clear |
| QueueOrder.RunHolds | talk/base/messagequeue.cc:155-304 | over every run, with Clear too: of two messages that are in the queue, the one in front stays in front for as long as both are there, from the delayed list to the delivery |
| QueueOrder.EarlierFirst | talk/base/messagequeue.h:141-152 | so of two delayed messages of which neither is cleared, the one that is triggered earlier, or at the same time and was posted first, is handed out first |
| QueueLaws.TakeIsFirstLive | talk/base/messagequeue.cc:208-224 | the message taken is the first that is not a disposal |
| QueueLaws.GetReturnsFirstAvailable | talk/base/messagequeue.cc:167-255 | if something is available Get returns the first of it without waiting, and nothing else changes |
| QueuePromises.QuitKeepsItsPromise | talk/base/messagequeue.cc:142-255 | whatever other threads do during a call, Get and Peek return nothing from a stopped queue only when nothing ready remains, if and only if the call finds something at once |
| QueuePromises.GapBreaksIt | talk/base/messagequeue.cc:222-228 | otherwise a message and Quit that come between the look at the queues and the test of the stop flag break it |
| QueuePromises.WithoutLatePosts | talk/base/messagequeue.cc:260-298 | without posts that have tested the stop flag before Quit and enter the critical section after it: if and only if the call finds something at once, or the queue was stopped before it |
| QueuePromises.WithoutGaps | talk/base/messagequeue.cc:155-255 | without anything between the look and the test, and with waits that do not fail: if and only if, besides, the call has no time limit |
| QueuePromises.FailingWaits | talk/base/messagequeue.cc:227-252 | and without such a gap, but with waits that may fail: if and only if it finds something at once, or the queue was stopped before it |
| QueuePromises.LastWaitBreaksIt | talk/base/messagequeue.cc:227-252 | otherwise a message and Quit that arrive in the last wait break it, whether the time runs out or the wait fails |
| QueuePromises.RunIsNeverEarly | talk/base/messagequeue.cc:190-204 | over every run, a delayed message that is not cleared stays delayed until its trigger time |
| QueueLaws.ClearIsExact | talk/base/messagequeue.cc:322-369 | exactly the matching messages are removed from slot, list and heap, each handed over once |
| QueueLaws.ClearSelects | talk/base/messagequeue.cc:322-369 | no handler stands for all of them, MQID_ANY for every message_id, and both together empty the queue; otherwise what stays is what differs in one of the two |
| QueueLaws.ClearFiltersAvailable | talk/base/messagequeue.cc:322-369 | what is available afterwards is the filtered queue, in its order |
| MessageQueue.MessageQueue.Quit | talk/base/messagequeue.cc:142-145 | the queue is stopped, with everything in it where it was |
| MessageQueue.MessageQueue.Restart | talk/base/messagequeue.cc:151-153 | and goes on with everything in it where it was |
| MessageQueue.MessageQueue.Post | talk/base/messagequeue.cc:260-280 | the class does with its list what the model does |
| MessageQueue.MessageQueue.Enqueue | talk/base/messagequeue.cc:268-279 | its critical section, which a late post enters although the queue has been stopped |
| MessageQueue.MessageQueue.DoDelayPost | talk/base/messagequeue.cc:282-304 | the heap holds the entries of the ordered list of the model |
| MessageQueue.MessageQueue.EnqueueDelayed | talk/base/messagequeue.cc:291-303 | its critical section |
| MessageQueue.MessageQueue.MoveTriggered | talk/base/messagequeue.cc:197-204 | the loop over the heap moves what the model calls due |
| MessageQueue.MessageQueue.TakeFront | talk/base/messagequeue.cc:208-224 | the loop over the list takes the first live message and disposes what comes before it |
| MessageQueue.MessageQueue.Get | talk/base/messagequeue.cc:167-255 | any call, with any waits and whatever other threads do in them and between a look and the test of the stop flag, returns and leaves what the model prescribes |
| MessageQueue.MessageQueue.Peek | talk/base/messagequeue.cc:155-165 | like Get, with the message kept in the slot for the next call |
| MessageQueue.MessageQueue.ClearList | talk/base/messagequeue.cc:336-350 | erasing one by one leaves the other messages in order |
| MessageQueue.MessageQueue.Compact | talk/base/messagequeue.cc:352-367 | the array is compacted in place to the entries that do not match, in their order |
| MessageQueue.MessageQueue.ClearHeap | talk/base/messagequeue.cc:352-369 | and made a heap again |
| MessageQueue.MessageQueue.Clear | talk/base/messagequeue.cc:322-369 | slot, list and heap become those of the model, and the removed messages are handed over |
| MessageQueue.MessageQueue.GetDelay | talk/base/messagequeue.cc:306-320 | the delay is the least after which something is ready, and forever if and only if both queues are empty |
| LinkedPtrs.UniqueMeansAlone | talk/base/linked_ptr.h:92-92 | in a ring, the previous link leads back exactly when the ring has one member |
| LinkedPtrs.Join | talk/base/linked_ptr.h:99-110 | the ring with one more member is a ring with mutually inverse links |
| LinkedPtrs.Leave | talk/base/linked_ptr.h:127-136 | so is the ring with one member less |
| LinkedPtrs.Owners.Create | talk/base/linked_ptr.h:60-61 | a new owner of a new object is a ring of its own |
| LinkedPtrs.Owners.Acquire | talk/base/linked_ptr.h:99-110 | all rings stay rings, and the pointer joins the one it copies |
| LinkedPtrs.Owners.Release | talk/base/linked_ptr.h:127-136 | all rings stay rings; the object goes with its last owner |
| LinkedPtrs.Owners.Copy | talk/base/linked_ptr.h:64-65 | a copy shares the object |
| LinkedPtrs.Owners.UniqueMeansSoleOwner | talk/base/linked_ptr.h:92-92 | unique() holds exactly when no other live pointer has the object |
| LinkedPtrs.Owners.Destroy | talk/base/linked_ptr.h:62-63 | the object is deleted exactly when its last owner goes |
| LinkedPtrs.Owners.Assign | talk/base/linked_ptr.h:66-73 | assignment, to itself too, deletes the old object exactly when it had no other owner |
| LinkedPtrs.AllDeletedOnce | talk/base/linked_ptr.h:60-136 | once no owner is left, every object has been deleted exactly once |
| Dispatchers.CursorRepaired | talk/base/physicalsocketserver.cc:1218-1226 | a repaired cursor marks off, in the list after an erasure, what it marked off before |
| Dispatchers.KeepErases | talk/base/physicalsocketserver.cc:1218-1219 | erasing a place is dropping the dispatcher that stood there |
| Dispatchers.VisitFits | talk/base/physicalsocketserver.cc:1531-1533 | the next dispatcher was there at the start, is not yet visited and not removed |
| Dispatchers.PassIsComplete | talk/base/physicalsocketserver.cc:1531-1599 | a pass that has come to its end has visited everything that was there and never removed |
| Dispatchers.PhysicalSocketServer.Add | talk/base/physicalsocketserver.cc:1202-1211 | a dispatcher that is not there yet goes to the end, and every pass stays on track |
| Dispatchers.PhysicalSocketServer.RepairCursors | talk/base/physicalsocketserver.cc:1221-1226 | every registered cursor beyond the erased place moves back by one |
| Dispatchers.PhysicalSocketServer.Remove | talk/base/physicalsocketserver.cc:1213-1227 | the dispatcher is gone and every registered pass, however deeply nested, stays on track |
| Dispatchers.PhysicalSocketServer.BeginPass | talk/base/physicalsocketserver.cc:1528-1530 | a new pass registers one cursor, or two when it is bounded |
| Dispatchers.PhysicalSocketServer.Visit | talk/base/physicalsocketserver.cc:1531-1533 | never visited before, never after a removal, never one added meanwhile |
| Dispatchers.PhysicalSocketServer.RunAct | talk/base/physicalsocketserver.cc:1202-1227 | an addition, a removal or a nested pass has its effect on the list, no more and no less |
| Dispatchers.PhysicalSocketServer.EndPass | talk/base/physicalsocketserver.cc:1596-1599 | the cursors popped are the ones that were pushed |
| Dispatchers.PhysicalSocketServer.RunHandler | talk/base/physicalsocketserver.cc:1590-1593 | a handler does its acts in order: the list afterwards and what has been removed are those of the acts told without cursors; the passes underneath stay as they were, but for what it removes |
| Dispatchers.PhysicalSocketServer.RunPass | talk/base/physicalsocketserver.cc:1527-1600 | a whole pass, whatever its handlers add, remove or run: it ends, each dispatcher that was there at the start and never removed is visited exactly once, and the passes underneath stay on track; the polling pass visits everything that is there when it ends; the visits in their order, the list and the removals are those of a pass told without cursors, in which the k-th visit runs the k-th handler |
| Md5.AuxiliaryFunctions | talk/base/md5.cc:158-164 | the optimised functions are those of section 3.4 of RFC 1321 |
| Md5.StepsFollowStandard | talk/base/md5.cc:184-250 | all sixty-four steps use the function, take the word and turn by the amount of section 3.4 of RFC 1321 |
| Md5.InitialBytes | talk/base/md5.cc:47-58 | the registers start with the bytes of section 3.3 of RFC 1321, and are given out in their order with low-order bytes first, as in section 3.5 |
| Md5.InitialWord | talk/base/md5.cc:22-38 | a block is read in that order too |
| Md5Vector.EmptyDigest | talk/base/md5.cc:48-250 | the digest of the empty message is the one in the test suite of RFC 1321 (appendix A.5), by all sixty-four steps with their constants and the last addition |
| Md5.FoldAppend | talk/base/md5.cc:94-102 | folding blocks is compatible with concatenation at block boundaries |
| Md5.PaddingIsInjective | talk/base/md5.cc:113-152 | no two messages shorter than 2^61 bytes are padded alike |
| Md5.BitsCounted | talk/base/md5.cc:70-73 | the two words hold eight times the length modulo 2^64, with the carry |
| Md5.LengthInTwoWords | talk/base/md5.cc:146-147 | and are the length field of the padding |
| Md5.MD5Context.constructor | talk/base/md5.cc:48-58 | an empty stream |
| Md5.MD5Context.MD5Init | talk/base/md5.cc:48-58 | an empty stream again |
| Md5.MD5Context.CountBits | talk/base/md5.cc:70-73 | the bit count of the source, word by word |
| Md5.MD5Context.MD5Update | talk/base/md5.cc:64-107 | the stream is longer by exactly the buffer, wherever the block boundaries fall |
| Md5.MD5Context.FillBlock | talk/base/md5.cc:79-92 | a block that has become full is folded |
| Md5.MD5Context.StreamBlocks | talk/base/md5.cc:94-106 | whole blocks are folded, and what is left over waits |
| Md5.MD5Context.Pad | talk/base/md5.cc:119-142 | a one bit and zeros up to 56 modulo 64, in one block or two |
| Md5.MD5Context.MD5Final | talk/base/md5.cc:114-153 | the digest of the padded stream, and a context in which nothing is left |
| Md5.MD5 | talk/base/md5.cc:48-153 | for any sequence of buffers the digest is that of their concatenation |
| Base64.TablesAgree | talk/base/base64.cc:30-67 | the two tables are inverse to each other |
| Base64.EncodeFromArray | talk/base/base64.cc:84-120 | the loop computes the encoding of section 4 of RFC 4648 |
| Base64.TestVectors | talk/base/base64.cc:30-120 | three of the test vectors of section 10 of RFC 4648, one for each amount of padding |
| Base64.EncodeQuantum | talk/base/base64.cc:91-118 | one turn takes up to three bytes and pads |
| Base64.GetNextQuantum | talk/base/base64.cc:122-174 | under all flags: the values found, whether they are padded, and where the next quantum starts, with illegal padding rolled back |
| Base64.PushBytes | talk/base/base64.cc:211-223 | the bytes of a quantum and the bits that are left over |
| Base64.DecodeQuantum | talk/base/base64.cc:208-233 | one turn of the decoder: the bytes of the quantum, where the next one starts, and whether this may be the last |
| Base64.DecodeFromArray | talk/base/base64.cc:187-241 | success, bytes and characters used, under all flags |
| Base64.StrictScanIsClean | talk/base/base64.cc:122-174 | what a strict scan goes over is symbols and then padding |
| Base64.DecodeOfEncoded | talk/base/base64.cc:84-241 | strict decoding of any encoding gives the bytes back and uses every character |
| Base64.EncodedOfDecode | talk/base/base64.cc:84-241 | whatever strict decoding accepts is the encoding of what it returns |
| Base64.StrictAcceptsEncodings | talk/base/base64.cc:187-241 | the texts accepted are exactly the encodings |
| Base64.IgnoredCharacters | talk/base/base64.cc:122-241 | characters that are to be ignored change nothing, except that they make decoding fail if and only if padding is required, the text ends with one of them, and the text without them is used up and does not end with padding |
| Base64.UsedUp | talk/base/base64.cc:187-241 | where padding is required a text that is decoded is used up, if it may only end with the buffer or if every unknown character is ignored |
| Base64.TrailingNewline | talk/base/base64.cc:224-236 | so a full quantum with its newline is rejected where the quantum alone is accepted |
| HttpAttributes.ParseName | talk/base/httpcommon.cc:226-239 | the name ends where the source's test first holds |
| HttpAttributes.ParseQuoted | talk/base/httpcommon.cc:294-303 | a quoted value with its escapes, closed or not |
| HttpAttributes.ParseToken | talk/base/httpcommon.cc:304-309 | a bare value up to white space or a comma |
| HttpAttributes.HttpParseAttributes | talk/base/httpcommon.cc:268-316 | the loop always ends, with the attributes of the text appended |
| HttpAttributes.QuoteString | talk/base/httpcommon.cc:715-725 | the loop computes the quoted text |
| HttpAttributes.QuoteIsRead | talk/base/httpcommon.cc:294-303 | a quoted value is read back, whatever it is and whatever follows |
| HttpAttributes.ListIsRead | talk/base/httpcommon.cc:268-316 | a list of quoted and bare items is parsed as that list |
| HttpAttributes.QuotedListIsRead | talk/base/httpcommon.cc:268-316 | for all names without white space and '=' and all values, the list comes back (section 3.2 of RFC 2617) |
| HttpAuth.HttpHasAttribute | talk/base/httpcommon.cc:318-331 | the value of the first attribute of that name |
| HttpAuth.DigestIsRead | talk/base/httpcommon.cc:843-861 | scheme and items are parsed as such |
| HttpAuth.BasicIsDecoded | talk/base/httpcommon.cc:766-789 | the server decodes the credentials that were meant if and only if they hold no NUL |
| HttpAuth.HttpAuthenticate | talk/base/httpcommon.cc:746-863 | the decision, the context and the response to a challenge; a response is given only without a context, and a challenge without a scheme is taken for one of the scheme before it |
| HttpAuth.DigestResponse | talk/base/httpcommon.cc:791-863 | a parser reads exactly the items of section 3.2.2 of RFC 2617 from the response |
| HttpAuth.HexDigitsAt | talk/base/stringdigest.cc:35-47 | a digest is written as two hexadecimal digits for each byte, in order and in small letters |
| HttpAuth.ServerAgrees | talk/base/httpcommon.cc:791-863 | a server that works out the request-digest of section 3.2.2 of RFC 2617 from what it has read, with the password, finds the one that it was sent, if no NUL cuts the user name, the realm or the password |
| HttpAuth.A1IsWhole | talk/base/httpcommon.cc:818-826 | and what is hashed for them is cut if and only if there is such a NUL |
| DiskCache.ReadersExcludeWriters | talk/base/diskcache.cc:114-227 | streams open together on one resource all read or all write, and its entry is there |
| DiskCache.DiskCache.constructor | talk/base/diskcache.cc:84-96 | a cache with what was found on disk, nothing open |
| DiskCache.DiskCache.GetOrCreateEntry | talk/base/diskcache.cc:314-329 | the entry, made at its place in key order if there is none |
| DiskCache.DiskCache.LockResource | talk/base/diskcache.cc:114-126 | locked, refused, or gone wrong over CheckLimit; accounts and states stay consistent |
| DiskCache.LockKeepsEntry | talk/base/diskcache.cc:114-126 | whatever the times: a lock on a resource in use, or in a cache within its limit, is never set in an erased entry |
| DiskEviction.LimitExactly | talk/base/diskcache.cc:229-264 | whatever the times: the limit is met, and the scan runs past the end, each if and only if a condition on the entries before the call holds, with entries in use, files that cannot be removed, and entries of the same second in their order of eviction |
| DiskEviction.VictimIsSoonest | talk/base/diskcache.cc:241-260 | an entry that is erased is the first in the order of eviction: by time, and among equals by key, but for the first idle entry, which gives way to those that follow it |
| DiskEviction.SoonerWithout | talk/base/diskcache.cc:241-260 | that order is fixed before the call: no eviction changes it for the entries that remain |
| DiskEviction.Survives | talk/base/diskcache.cc:229-264 | when the limit is met, an entry is left if and only if it is in use or fits together with the entries that are in use or do not go sooner |
| DiskEviction.LockDanglesExactly | talk/base/diskcache.cc:114-126 | a lock is set in an erased entry if and only if the entry is idle, does not fit together with those that are in use or do not go sooner, and the limit can be met |
| DiskEviction.LockBetweenWriters | talk/base/diskcache.cc:114-126 | for example while another resource is written and closed but not yet unlocked, in a consistent cache |
| DiskEviction.LockTwice | talk/base/diskcache.cc:114-227 | which a run of lock, write, release and unlock on two resources comes to |
| DiskEviction.TiedLocks | talk/base/diskcache.cc:114-126 | of two entries of the same second the later one in key order goes, so that a lock on it dangles and a lock on the other one is set |
| DiskEviction.LastKeyMayGoFirst | talk/base/diskcache.cc:241-260 | the entry that is last in key order may be evicted first, and the scan run past the end after it |
| DiskCache.DiskCache.WriteResource | talk/base/diskcache.cc:128-154 | only a locked resource is opened; what it held in that stream is taken off the accounts, and the stream can be read later |
| DiskCache.DiskCache.ReadResource | talk/base/diskcache.cc:171-186 | only an unlocked resource, and only a stream that it has |
| DiskCache.DiskCache.UnlockResource | talk/base/diskcache.cc:156-169 | unlocked at once, or left to its last writer |
| DiskCache.DiskCache.ReleaseResource | talk/base/diskcache.cc:331-360 | what a writer wrote is accounted for, the last one unlocks; the entry of an open stream is never missing |
| DiskCache.DiskCache.DeleteResource | talk/base/diskcache.cc:203-227 | an idle entry goes with its size, even if a file stays; any other is refused |
| DiskCache.DiskCache.CheckLimit | talk/base/diskcache.cc:229-264 | ends, by shrinking the map, with the outcome computed from the entries alone |
| DiskCache.DiskCache.Scan | talk/base/diskcache.cc:253-257 | the entry that the scan from past the first idle one arrives at |
| DiskCache.LimitErasesIdle | talk/base/diskcache.cc:229-264 | only idle entries are erased, the others stay as they are, and true means within the limit |
| DiskCache.VictimIsOldestIdle | talk/base/diskcache.cc:242-258 | an entry that is erased is as old as any idle one |
| DiskCache.BusyLastEntry | talk/base/diskcache.cc:253-257 | with the last entry in use, the scan does not run past the end |
| DiskCache.LastStandingIsNewest | talk/base/diskcache.cc:241-260 | the entry left when all others are evicted is as new as any |
| DiskCache.IdleCacheRunsPastTheEnd | talk/base/diskcache.cc:241-260 | with nothing in use, and whatever the times, the scan runs past the end if and only if that entry is larger than the cache and all others can be removed; if it is not larger, the limit is met |
| DiskCache.DiskCache.Purge | talk/base/diskcache.cc:98-112 | forgets entries but not their sizes: the accounts balance afterwards if and only if there were none |
| HttpClient.RedirectSpends | talk/base/httpclient.cc:726-747 | a redirection leaves a budget smaller by the connection that it makes |
| HttpClient.AuthenticationSpends | talk/base/httpclient.cc:762-773 | so does an authentication, because it is answered once |
| HttpClient.RedirectionRules | talk/base/httpclient.cc:425-436 | redirected never, always, or by default after 303 or for GET and HEAD; with a location, a code from 300 to 399, and at most five times |
| HttpClient.RespondsExactly | talk/base/httpclient.cc:752-785 | a challenge is responded to if and only if nothing has been answered since the last redirection, the document can be sent again, and the first challenge that is not ignored can be answered |
| HttpClient.RetryRules | talk/base/httpclient.cc:693-709 | a step that fails leads to another connection if and only if one was lost, nothing was heard by the test of the source, retries are left and the document can be sent again; otherwise to the end with that error |
| HttpClient.NeverConnects | talk/base/httpclient.cc:385-398 | without a connection to be had there are as many attempts as retries and one more, and then the error |
| HttpClient.FiveRedirections | talk/base/httpclient.cc:425-436 | a server that always redirects a GET is followed five times, and the sixth response is the result |
| HttpClient.AnsweredOnce | talk/base/httpclient.cc:748-785 | a proxy is answered once, on one more connection; when it asks again the request ends |
| HttpClient.StepsInOrder | talk/base/httpclient.cc:710-720 | the request is sent when the connection is there, then the response is received, past every code from 100 to 199 |
| HttpClient.ResponseEnds | talk/base/httpclient.cc:721-791 | a response that neither redirects nor challenges ends the request without an error |
| HttpClient.CacheAnswers | talk/base/httpclient.cc:324-383 | a hit in the cache ends it without a connection |
| HttpClient.EndStaysWithin | talk/base/httpclient.cc:693-791 | whatever the outcome of a step, the connections made and those that may follow stay within the budget, and there is at most one completion |
| HttpClient.HttpClient.Start | talk/base/httpclient.cc:324-383 | an attempt from the beginning, an answer from the cache, or a refusal of a transfer coding, as the state machine of a request prescribes |
| HttpClient.HttpClient.Connect | talk/base/httpclient.cc:385-398 | a connection, or attempts within the retries |
| HttpClient.HttpClient.Authenticate | talk/base/httpclient.cc:752-785 | the loop over the challenges ends as that over the list does: context, error and whether it has responded |
| HttpClient.HttpClient.Resend | talk/base/httpclient.cc:721-786 | the request of a redirection or an authentication, or the end, as the state machine of a request prescribes |
| HttpClient.HttpClient.OnHttpComplete | talk/base/httpclient.cc:693-791 | every end of a step of the transaction does what the state machine of a request prescribes |
| HttpClient.RetryAsIntended | talk/base/httpclient.cc:693-700 | that test finds out whether nothing was heard, except if and only if the server has answered with that very code |
| HttpClient.ServerErrorIsRetried | talk/base/httpclient.cc:693-709 | a server that answers with code 500 and then drops the connection is asked again, on any run |
| HttpClient.Run | talk/base/httpclient.cc:279-791 | from a fresh request, for any events: the class runs as that state machine does; there are at most (kMaxRedirects + 1) * 2 * (retries + 1) connections, and one completion unless it is still at work |
| Bytes.ByteAt | talk/base/byteorder.h:56-75 | each byte stored is the number shifted and cut |
| Bytes.BigEndianRoundTrip | talk/base/byteorder.h:56-95 | Get undoes Set, modulo the width |
| Bytes.LittleEndianRoundTrip | talk/base/byteorder.h:97-137 | the same in little-endian order |
| Bytes.BigEndianOnto | talk/base/byteorder.h:56-95 | Set undoes Get |
| Bytes.LittleEndianOnto | talk/base/byteorder.h:97-137 | the same in little-endian order |
| ByteBuffers.NetworkOrder | talk/base/byteorder.h:141-155 | the memory of a converted number is its big-endian layout, on both kinds of host |
| ByteBuffers.NetworkRead | talk/base/byteorder.h:157-168 | and reading converts it back |
| ByteBuffers.WireRoundTrip | talk/base/bytebuffer.cc:80-187 | a number is read as it was written, modulo its width, 24 bits included |
| ByteBuffers.ByteBuffer.Resize | talk/base/bytebuffer.cc:201-214 | contents keep through growth by half and compaction; a smaller size cuts the newest bytes |
| ByteBuffers.ByteBuffer.WriteBytes | talk/base/bytebuffer.cc:193-199 | the queue with the bytes at its end |
| ByteBuffers.ByteBuffer.ReadBytes | talk/base/bytebuffer.cc:151-159 | the bytes at the front are taken if there are enough, none otherwise |
| ByteBuffers.ByteBuffer.Consume | talk/base/bytebuffer.cc:216-221 | the same without looking |
| ByteBuffers.ByteBuffer.Shift | talk/base/bytebuffer.cc:223-230 | and with the rest moved to the front |
| ByteBuffers.ByteBuffer.WriteUInt | talk/base/bytebuffer.cc:161-187 | the layout of the number in the order of the buffer |
| ByteBuffers.ByteBuffer.ReadUInt | talk/base/bytebuffer.cc:80-137 | the number with that layout |
| ByteBuffers.ByteBuffer.WriteUInt24 | talk/base/bytebuffer.cc:170-177 | three of the four bytes, the right ones on both hosts and in both orders |
| ByteBuffers.ByteBuffer.ReadUInt24 | talk/base/bytebuffer.cc:98-113 | the number with those three bytes |
| ByteBuffers.RoundTrip | talk/base/bytebuffer.cc:80-187 | a write and then a read on an empty buffer |
| ByteBuffers.XmppSocket.OnWriteEvent | service/xmppsocket.cc:92-104 | bytes sent followed by bytes buffered are unchanged; it stops only for a socket that takes nothing, and otherwise everything is sent |
| ByteBuffers.XmppSocket.Write | service/xmppsocket.cc:200-208 | bytes sent followed by bytes buffered are all that has been written, under any results of Send, and bytes stay buffered only for such a result |
| Networks.Sort | talk/base/network.cc:123-125 | the list in the order of its names |
| Networks.NetworkManagerBase.Merge | talk/base/network.cc:135-156 | an incoming network is adopted, or deleted after the one of its name has been brought up to date |
| Networks.NetworkManagerBase.MergeOne | talk/base/network.cc:134-161 | one turn of the loop: the entry stored, and a change noticed by name or by what is known |
| Networks.NetworkManagerBase.MergeAll | talk/base/network.cc:127-161 | a change is noticed if and only if the list of (name, ip, gateway) differs, although the objects are shared |
| Networks.NetworkManagerBase.MergeNetworkList | talk/base/network.cc:121-165 | the new list by name; a name keeps its object; each incoming one is adopted or deleted; the signal exactly on a change or when forced |

## Left out

- SendRaw and the listening mode of AsyncTCPSocket: they add no framing.
- ts_sensitive logging, ReceiveSends and MessageQueueManager: they do not touch the queues of one thread.
- The POSIX dispatch loop: it does not register its index, so that removals are not repaired there.
- Deletion through linked_ptr that re-enters the same ring, and its conversions between types.
- What handlers decide: in Dispatchers a handler is a finite tree of additions, removals and passes.
- HttpSender.HttpBase.FlushData: is watched for a number of vain attempts, because the loop of the source need not end (see above).
- MessageQueue.MessageQueue.Get: the waits of one call are a finite list; a queue that waits forever is one that is never called back.
- QueueLaws.RunIsFifo: is stated for runs without Clear, which takes messages out of the line; what Clear leaves is in ClearFiltersAvailable.
- The fields server_, pool_ and cache_state_ of HttpClient, mode_ and ignore_data_ of HttpBase, and state_ of XmppSocket: they choose among calls, of which the model takes one, or belong to calls that it leaves out.
- Md5.MD5Context.MD5Transform: is a function on four words and a block, and the streaming is proved for any such function; its functions, word orders and shifts are checked against the standard's, and its constants by one message of the standard's test suite.
- The big-endian build of md5.cc: byteReverse makes the same words of the same bytes.
- HttpComposeAttributes, HttpDateToSeconds, IdToFilename and the cache headers: they rest on helpers that are not part of this model.
- HTTP cache validation and freshness, BeginCacheFile and CompleteCacheFile: a cache hit is a nondeterministic event.
- HttpClient.HttpClient.OnHttpComplete: the calls of base_.send and base_.recv are events that follow, because they are the last thing that a branch does.
- Negotiate and NTLM authentication, OpenSSL, SChannel, sockets, select and signals: foreign calls.
- Real time, threads and locks: the clock is monotone and critical sections are atomic steps.
- The size of a file, whether it opens and whether it can be removed: parameters of the operations of DiskCache.
- HasResource, HasResourceStream and the destructors of DiskCache and NetworkManagerBase: they only look, or run when nothing is open.
- cif wrappers, XMPP tasks, flags, JSON, proxy detection, file utilities, firewall rules and random numbers.
