# Verified model of the quic-ruby stream engine

This project models the per-stream send and receive buffering of
`Quic::Connection::Client` and proves what it is for: every byte that a write
call accepts is framed once, in order, with the FIN behind the last one; every
byte received is delivered once, in order; server streams are accepted once, in
order of arrival. The statements hold over every run, with any number of
streams, whatever ngtcp2 answers within the contract below.

Check it with `dafny verify dfyconfig.toml`.

## How it is built

- `Stream.dfy` and `Client.dfy` follow the C code: mutable classes with the
  fields of `quic_stream_t`, `@pending_chunks`, `@recv_buffer` (an array, shifted
  in place), `@streams` and `@accept_queue`, and one method per C function. The
  cursors are 64-bit (`uint64`), so that each of their additions and subtractions
  is proved not to wrap. No bound on the accepted bytes is needed for this: the
  cursors stay below the largest stream offset (2^62 - 1, section 4.5 of RFC 9000)
  and a chunk is shorter than 2^63 bytes because a Ruby String length is a C `long`.
- `StreamModel.dfy` and `ClientModel.dfy` are the simple thing: append-only byte
  strings with positions in them, and a step function over all operations. They
  have no chunk queue and no receive buffer. Every method of the classes is proved
  to perform one operation of this model on its `View()`, and `ClientModel.Step` is
  made of exactly these operations. `ClientModel.RunOneMore` lengthens a run by one
  step, so that, call by call, the view of a client stays the end of a run from `NewClient()`;
  `Client.StreamsAreFaithful` and `Client.AcceptQueueIsFifo` restate the run theorems
  for the fields of the class.
- `ChunkQueue.dfy` connects the two: the queue is the list of all writes, trimmed
  at the acknowledged offset, and the chunk walk is flat indexing.
- `StreamAnswers.dfy` says what each operation answers and changes without using its
  definition: how much a write takes, when the FIN is queued, taken by ngtcp2 and
  received, and what the marks of a stream say about its whole run.
- `StreamTheorems.dfy`, `ClientTheorems.dfy`, `Delivery.dfy` and `RetryWrite.dfy`
  hold the results about whole runs. `ClientTheorems.EveryStreamRuns` says that
  each stream of a connection goes through a legal run of its own, so whatever
  holds of stream runs holds of every stream in every interleaving.
- `Alpn.dfy` is the ALPN encoder, on its own. `RubyHash.dfy` is a Ruby Hash with
  its insertion order. `Bytes.dfy` holds the machine types.

## What is assumed of ngtcp2 and the peer

Stated in `StreamModel.Legal` and `StreamModel.LegalResponse`, and nothing else:

- `ngtcp2_conn_writev_stream` fails (`n < 0`), or reports
  `-1 <= pdatalen <= datav.len`, with `n > 0` when `pdatalen > 0`, and frames no
  byte beyond offset 2^62 - 1. It runs no stream callback meanwhile.
- Acknowledgements are contiguous and never exceed what was framed.
- Received data is in order, carries no bytes after the FIN, and ends at or below
  offset 2^62 - 1 (sections 4.5 and 19.8 of RFC 9000).
- A Ruby String is at most 2^63 - 1 bytes long.

The ids that ngtcp2 gives to newly opened streams are not assumed to be new,
except where `NoStreamIsOverlooked` says so.

## Where the code and its comments differ

- `fin_flushed` is commented "write_pkt actually wrote the FIN frame"
  (ext/quic/stream.h:27). For a FIN without data the code only looks at whether
  something was written, so the flag is also set when ngtcp2 reports no stream frame, and the FIN
  is then never offered again. `FinFlushedMeansFramedExactly` gives the exact
  condition, reading `pdatalen < 0` as "no stream frame", as the comment at
  ext/quic/connection_client.c:608-611 does.
- The ALPN comment "total <= 256 * 256" (ext/quic/connection_client.c:401), on which
  the stack buffer relies, does not hold, because the number of entries is not
  checked. `BoundNeedsFewEntries` gives the exact condition, at most 256 entries;
  `BoundBroken` gives 257 names that break it.

Two further conditions the code does not check, though no comment contradicts it:

- The cast of the ALPN length to `unsigned int` (ext/quic/connection_client.c:412)
  loses bytes of an encoding of 2^32 bytes or more. `OpenSslGetsListExactly` gives the
  exact condition and `CastLosesList` an input. In practice the stack buffer of that
  size fails first.
- The open methods store into `@streams` without looking. An id that is registered
  already would lose its stream; ngtcp2 hands out no such id, so the case is
  hypothetical. `StepLosesNone` and `OpenKeepsRegistered` give the exact condition.

## Model

| member | source | states |
|---|---|---|
| ChunkQueue.TrimAdditive | ext/quic/connection_client.c:268-284 | Shifting acknowledged chunks at one offset and then at a later one leaves the same queue and `pending_shifted` as shifting at the later one alone |
| ChunkQueue.TrimKeepsTail | ext/quic/connection_client.c:270-284 | Shifting loses only bytes below `acked_offset`; every other byte keeps its absolute offset |
| ChunkQueue.TrimStopsAtLargestBoundary | ext/quic/connection_client.c:275-284 | The loop stops at the largest chunk boundary at or below `acked_offset` |
| ChunkQueue.TrimPush | ext/quic/stream.c:73-80 | Pushing a chunk and shifting acknowledged chunks commute |
| ChunkQueue.WalkIsFlatIndexing | ext/quic/connection_client.c:510-536 | The chunk walk fails exactly at the end of the queue; otherwise it offers the bytes of the concatenation from the position to the end of its chunk, and the chunk is the last one exactly when that is the end of all bytes |
| ChunkQueue.ChunkEndIsNextBoundary | ext/quic/connection_client.c:524-527 | The end of the offered slice is the nearest chunk boundary after the position |
| ChunkQueue.TrimCommutesWithOffer | ext/quic/connection_client.c:507-536 | An acknowledgement processed first changes neither the offered bytes nor whether the chunk is the last, although the chunk index shifts |
| StreamModel.AccountKeepsInv | ext/quic/connection_client.c:612-630 | Whatever partial length ngtcp2 reports, the framed slices still concatenate to the accepted bytes up to `sent_offset`, and `fin_flushed` still implies a queued FIN with everything sent |
| StreamModel.EnqueueKeepsInv | ext/quic/stream.c:57-87 | A write, refused or not, keeps every stream invariant: the framed slices stay a prefix of the accepted bytes and the FIN flags keep their meaning |
| StreamModel.Apply | ext/quic/stream.h:13-36 | Every operation on a stream keeps the order of the cursors, the framed prefix, the meaning of the FIN flags and the delivered prefix |
| StreamAnswers.WriteIsExact | ext/quic/stream.c:57-87 | A write to a stream that is neither reset nor closed nor finished takes all of its data as one chunk, reports its length and queues the FIN if asked; any other write is refused and changes nothing |
| StreamAnswers.WriteNonblockIsExact | ext/quic/stream.c:145-182 | write_nonblock takes exactly the smaller of data and window, with the FIN only when that is all the data; a full window is WaitWritable and changes nothing |
| StreamAnswers.CloseWriteIsExact | ext/quic/stream.c:184-194 | close_write queues the FIN once; with the FIN queued it changes nothing and is not refused |
| StreamAnswers.AccountIsExact | ext/quic/connection_client.c:608-630 | An answer moves `sent_offset` by exactly the bytes it took, and sets `fin_flushed` if and only if it took the FIN: all data of an offer with FIN, or a packet for a FIN without data |
| StreamAnswers.AbortIsExact | ext/quic/stream.c:281-304 | A reset that ngtcp2 refuses leaves the stream as it was; an accepted one ends writing and changes nothing else |
| StreamAnswers.SidesAreApart | ext/quic/stream.h:13-36 | Receiving and reading leave the send side alone, sending the receive side; only write calls change what was accepted, only answers of ngtcp2 what was framed |
| StreamAnswers.FinOfStep | ext/quic/connection_client.c:248-250 | The FIN is recorded as received by exactly the frames that carry one, with or without data |
| StreamAnswers.MarksOfStep | ext/quic/connection_client.c:238-328 | `reset`, `closed` and `accept_queued` are set by exactly their own causes |
| StreamAnswers.MarksOfRun | ext/quic/connection_client.c:238-328 | Over every run: the FIN is received if and only if some frame carried it, `reset` if and only if an accepted or peer reset occurred, `closed` if and only if a close did |
| StreamAnswers.SendMarksOfRun | ext/quic/connection_client.c:268-630 | Over every run: the FIN is queued if and only if a call on an open stream asked for it and took all its data, `fin_flushed` is set if and only if ngtcp2 took the FIN, and `acked_offset` is the sum of the acknowledgements |
| StreamAnswers.FreshIsOpen | ext/quic/stream.c:35-49 | A new stream accepts writes and has nothing to send, to read or to report |
| StreamTheorems.CursorInvariant | ext/quic/stream.h:15-24 | `pending_shifted <= acked_offset <= sent_offset <= pending_shifted` plus the queued bytes; the queue is the accepted bytes from `pending_shifted` on; no cursor plus chunk length leaves 64 bits |
| StreamTheorems.Retention | ext/quic/connection_client.c:270-284 | Each byte framed but not acknowledged is still in the queue, unchanged, at its absolute offset minus `pending_shifted` |
| StreamTheorems.AcksAdd | ext/quic/connection_client.c:268-284 | Two acknowledgements leave the queue and cursors of one acknowledgement of their sum |
| StreamTheorems.ShiftedIsLargestBoundary | ext/quic/stream.h:22-24 | `pending_shifted` is the largest boundary between writes at or below `acked_offset` |
| StreamTheorems.OfferFromPending | ext/quic/connection_client.c:507-536 | In every valid state the walk over the trimmed queue from `sent_offset - pending_shifted` finds the flat slice, and finds none exactly when everything accepted was sent |
| StreamTheorems.AckCommutes | ext/quic/connection_client.c:254-286 | An acknowledgement and a send commute: same offer, same legal answers, same state in the end |
| StreamTheorems.OfferIsExact | ext/quic/connection_client.c:524-547 | The offer starts at `sent_offset` and ends at the nearest end of a write; the FIN flag is set exactly when FIN is queued and the slice reaches the last accepted byte |
| StreamTheorems.RunMatchesLog | ext/quic/connection_client.c:612-616 | Over every run, the bytes observed at the four interfaces are exactly what the state gained |
| StreamTheorems.StreamFidelity | ext/quic/connection_client.c:596-630 | In every interleaving the framed slices spell the accepted bytes up to `sent_offset`, the delivered bytes followed by the buffer spell the received bytes, and flags, code and `acked_offset` say exactly what happened in the run |
| StreamTheorems.EnqueueGrows | ext/quic/stream.c:57-87 | A write only appends to what was accepted, and not at all once the FIN is queued or the stream is reset or closed; no cursor moves back |
| StreamTheorems.RunGrows | ext/quic/stream.h:15-35 | Cursors and histories only grow; queued FIN, received FIN, reset, close and `fin_flushed` freeze what they should for the rest of the run |
| StreamTheorems.WritingEndsForGood | ext/quic/stream.c:63-68 | After a reset, a close, a `write` with `fin: true` that was taken whole, or close_write, every later write call in the run is refused and changes nothing |
| StreamTheorems.CodeIsTheLast | ext/quic/connection_client.c:302-328 | Over every run the stream shows the code of the last reset, or close with a code; a close without one keeps an earlier reset's code |
| StreamTheorems.ReadIsExact | ext/quic/stream.c:196-235 | A read returns the oldest buffered bytes, as many as asked for and present, and leaves the rest; negative length, EOF and WaitReadable each occur exactly for their own cause |
| StreamTheorems.EofIsExactAndFinal | ext/quic/stream.c:215-244 | EOF means exactly that the FIN came and every received byte was delivered, and it holds for the rest of the run |
| StreamTheorems.FinFlushedIsFinal | ext/quic/connection_client.c:504 | Once `fin_flushed` is set, all accepted bytes are framed, none is ever added, and skipping the stream hides nothing, for the rest of the run |
| StreamTheorems.FinFlushedMeansFramedExactly | ext/quic/connection_client.c:619-630 | Over every run, `fin_flushed` is set without a FIN frame if and only if some FIN-only write returned a packet but no stream frame |
| StreamTheorems.LostFin | ext/quic/connection_client.c:623-629 | A concrete run that sets `fin_flushed` without a FIN frame, after which no continuation offers the FIN again |
| RubyHash.WithoutKeepsOrder | ext/quic/connection_client.c:307 | Deleting from the registry takes out one entry and keeps the others in their order |
| RubyHash.StoreIsValid | ext/quic/connection_client.c:215-216 | Storing keeps the keys distinct and every key in its place |
| RubyHash.StoreIsExact | ext/quic/connection_client.c:215-216 | A new key goes last, a known one keeps its place, and no other entry changes |
| RubyHash.DeleteIsExact | ext/quic/connection_client.c:307 | Deleting takes out one entry; all others keep their values and their order |
| ClientModel.Step | ext/quic/connection_client.c:206-329 | Every operation of the connection, on any number of streams, keeps all stream invariants, the registry under its own ids with no closed stream in it, and the accept queue |
| ClientModel.RunOneMore | ext/quic/connection_client.c:206-329 | A legal run followed by any event that is legal in its last state is a legal run, and ends in the step of that state |
| ClientModel.FailedSendChangesNothing | ext/quic/connection_client.c:601-606 | A write that ends in an error leaves all accounting as it was |
| ClientModel.DataKeepsQueue | ext/quic/connection_client.c:238-242 | A receive callback keeps the accept queue equal to the first arrivals not yet taken |
| ClientTheorems.PickIsExact | ext/quic/connection_client.c:500-550 | Pick returns nil exactly when no registered stream has unsent bytes or an unflushed FIN, and otherwise the first such stream in registry order |
| ClientTheorems.StepIsIsolated | ext/quic/connection_client.c:194-230 | A step changes at most the stream it targets, by one legal stream step; new streams are fresh |
| ClientTheorems.UnknownIdsAreIgnored | ext/quic/connection_client.c:212-214 | Callbacks for unregistered ids, and a second open of a known id, change nothing |
| ClientTheorems.CallbacksReachTheStream | ext/quic/connection_client.c:220-329 | Each callback reaches the stream registered under its id with everything it brings: data and FIN, the acknowledged length, the error code |
| ClientTheorems.CloseKeepsOrder | ext/quic/connection_client.c:300-308 | Closing takes one stream out of the registry and keeps the others and the order in which they are scanned |
| ClientTheorems.OpenKeepsRegistered | ext/quic/connection_client.c:765-768 | The open methods keep every registered stream exactly when the id is not registered yet |
| ClientTheorems.StepLosesNone | ext/quic/connection_client.c:762-768 | A step makes an open stream drop out of the registry if and only if an open method is given an id that is registered already |
| ClientTheorems.NoStreamIsOverlooked | ext/quic/connection_client.c:497-550 | In every run whose open methods get new ids, the registry holds every stream that is not closed, and pick returns nil exactly when none of them has anything to send |
| ClientTheorems.StepKeepsOrder | ext/quic/connection_client.c:206-308 | A step keeps the registry in the order in which its streams were created if and only if it does not open a stream under a registered id |
| ClientTheorems.OldestIsPicked | ext/quic/connection_client.c:497-550 | In every run whose open methods get new ids, pick selects a stream if and only if it is the oldest one that is not closed and has something to send |
| ClientTheorems.EveryStreamRuns | ext/quic/connection_client.c:206-329 | In every connection run each stream goes through a legal stream run of its own, from its creation |
| ClientTheorems.ConnectionFidelity | ext/quic/connection_client.c:596-630 | In every reachable state of any number of streams, each stream's framed slices spell its accepted bytes up to `sent_offset`, its delivered bytes plus buffer its received bytes, and its flags say exactly what happened to it |
| ClientTheorems.DedupIsFirstOccurrences | ext/quic/connection_client.c:235-237 | The reference order: every stream once, by its first receive callback |
| ClientTheorems.AcceptIsFifo | lib/quic/connection.rb:114-140 | Streams accepted so far, then those queued, are exactly the server streams that received data, each once, in the order of their first callback, over all runs |
| ClientTheorems.SendDrains | ext/quic/connection_client.c:593-630 | write_pkt lowers unsent bytes plus unflushed FINs by exactly the bytes that the answer took, plus one when it took the FIN |
| ClientTheorems.WorkIsBacklog | ext/quic/connection_client.c:504-547 | A stream has something to send if and only if it has unsent bytes or an unflushed FIN |
| ClientTheorems.NothingToPick | ext/quic/connection_client.c:497-550 | Pick returns nil if and only if no byte and no FIN of a registered stream is left |
| ClientTheorems.DrainIsBounded | lib/quic/connection.rb:77-79 | A drain loop moves exactly what the backlog loses, so at most as many of its calls make progress as the backlog had units |
| ClientTheorems.DrainEmpties | lib/quic/connection.rb:77-79 | If each answer takes bytes, or the lone FIN, as many answers as the backlog has units leave nothing to send |
| ClientTheorems.DrainIsARun | lib/quic/connection.rb:77-79 | A drain loop is a legal run of the connection |
| Delivery.CarryIsLegal | ext/quic/connection_client.c:220-252 | An ideal pipe fed by a sender keeps the contract of the receive callback |
| Delivery.LinkStep | ext/quic/connection_client.c:220-252 | In every step of either side the receiver has a prefix of the framed bytes, and the FIN only with all of them |
| Delivery.FinArrivesOnce | ext/quic/connection_client.c:248-250 | In every run the receiver has the FIN if and only if the pipe brought it |
| Delivery.EndToEnd | ext/quic/connection_client.c:596-630 | End to end, in every interleaving, the bytes read are a prefix of the bytes write accepted; a read raises EOF if and only if the FIN was carried over and they are all of them |
| RetryWrite.AttemptTakesPrefix | ext/quic/stream.c:162-181 | One non-blocking write takes a prefix as long as the window holds and queues the FIN exactly when it takes everything |
| RetryWrite.RetryAcceptsAll | ext/quic/stream.c:145-181 | Retrying on the rest with `fin: true`, over any non-zero windows, with any framing, acknowledgements, receives and reads between the calls (but no reset, close or other write), accepts the original data in order, as much as the windows hold together, and queues the FIN if and only if they hold all of it |
| Alpn.RoundTrip | ext/quic/connection_client.c:390-410 | A length-prefix parser reads a list back from exactly its encoding |
| Alpn.EncodeIsInjective | ext/quic/connection_client.c:390-410 | Two valid lists with the same encoding are the same list |
| Alpn.BoundNeedsFewEntries | ext/quic/connection_client.c:391-402 | Every list of n entries that passes the check has an encoding of at most 65536 bytes if and only if n is at most 256 |
| Alpn.BoundBroken | ext/quic/connection_client.c:396-402 | 257 names of 255 bytes pass the check, and their encoding has 65792 bytes |
| Alpn.OpenSslGetsListExactly | ext/quic/connection_client.c:412 | With the length cast to `unsigned int`, the bytes given to OpenSSL spell the configured list if and only if its encoding is shorter than 2^32 bytes |
| Alpn.CastLosesList | ext/quic/connection_client.c:412 | 2^24 names of 255 bytes, whose encoding the cast reduces to nothing |
| Alpn.CheckAndCount | ext/quic/connection_client.c:391-400 | The first pass accepts exactly lists of 1 to 255 byte entries, reports the first bad length, and counts the bytes of the encoding |
| Alpn.Fill | ext/quic/connection_client.c:402-410 | The second pass fills exactly the counted bytes with the encoding |
| Alpn.EncodeAlpn | ext/quic/connection_client.c:386-415 | Empty list, bad entry and encoded list are told apart exactly, with the wire bytes and the length passed on |
| StreamClass.Stream.constructor | ext/quic/stream.c:35-49 | A new stream is the fresh model stream with an empty queue and buffer |
| StreamClass.Stream.Enqueue | ext/quic/stream.c:57-87 | Refines the model write (`StreamAnswers.WriteIsExact`): refused for its own causes, otherwise all data goes last in the queue and the FIN behind it; the caller's array is not changed |
| StreamClass.Stream.WriteNonblock | ext/quic/stream.c:151-182 | Refines the model partial write under the smaller of the two windows (`StreamAnswers.WriteNonblockIsExact`) |
| StreamClass.Stream.CloseWrite | ext/quic/stream.c:184-194 | Refines the idempotent FIN-only write |
| StreamClass.Stream.Reset | ext/quic/stream.c:281-304 | Sets `reset` only when ngtcp2 accepts, and is idempotent |
| StreamClass.Stream.FindChunk | ext/quic/connection_client.c:510-522 | The loop with a decreasing position finds exactly the chunk of the walk |
| StreamClass.Stream.NextSlice | ext/quic/connection_client.c:504-547 | The scan of one stream yields exactly the flat offer, or nothing when there is no work; `sent_offset - pending_shifted` does not wrap |
| StreamClass.Stream.Advance | ext/quic/connection_client.c:612-630 | Refines the model accounting without wrap (`StreamAnswers.AccountIsExact`) |
| StreamClass.Stream.ShiftAcked | ext/quic/connection_client.c:274-284 | The shift loop computes exactly the trimmed queue; `pending_shifted` plus chunk length does not wrap |
| StreamClass.Stream.AckedData | ext/quic/connection_client.c:268-284 | Refines the model acknowledgement without wrap |
| StreamClass.Stream.AppendToBuffer | ext/quic/connection_client.c:244-247 | Appends to the receive buffer, in place or in larger storage |
| StreamClass.Stream.DropFromBuffer | ext/quic/stream.c:228-232 | The in-place left shift and truncation leave exactly the rest |
| StreamClass.Stream.ReceiveData | ext/quic/connection_client.c:238-250 | Refines the model receive step (`StreamAnswers.FinOfStep`, `StreamTheorems.RunMatchesLog`) |
| StreamClass.Stream.ReadNonblock | ext/quic/stream.c:204-235 | Refines the model read with all its refusals |
| StreamClass.Stream.IsEof | ext/quic/stream.c:237-244 | True exactly when the FIN came and every received byte was delivered |
| StreamClass.Stream.PeerReset | ext/quic/connection_client.c:322-328 | Records the reset and its code |
| StreamClass.Stream.Close | ext/quic/connection_client.c:300-306 | Records the close, and its code only when one is set |
| ClientClass.Client.OpenStream | ext/quic/connection_client.c:755-785 | Refines the model open with a new object in the registry; every stream handed out before stays the client's object, and on an ngtcp2 error nothing changes |
| ClientClass.Client.StreamOpenCallback | ext/quic/connection_client.c:206-218 | Refines the peer's open; a known id leaves the registry and all objects as they are, any other id gets a new object and the earlier ones stay |
| ClientClass.Client.RecvStreamDataCallback | ext/quic/connection_client.c:220-252 | Refines delivery of data and FIN to the registered stream and its surfacing to accept_stream (`ClientTheorems.CallbacksReachTheStream`); all other streams and buffers stay as they are |
| ClientClass.Client.AckedStreamDataOffsetCallback | ext/quic/connection_client.c:254-286 | Refines the acknowledgement of the registered stream |
| ClientClass.Client.StreamCloseCallback | ext/quic/connection_client.c:288-309 | Refines closing and unregistering (`ClientTheorems.CloseKeepsOrder`) |
| ClientClass.Client.StreamResetCallback | ext/quic/connection_client.c:311-329 | Refines the peer's reset |
| ClientClass.Client.PickSendStream | ext/quic/connection_client.c:492-551 | Selects the model's stream and offer |
| ClientClass.Client.WritePkt | ext/quic/connection_client.c:553-638 | Refines the model send for every answer of ngtcp2, and returns a packet, nil or the error |
| ClientClass.Client.Drain | lib/quic/connection.rb:77-79 | Refines the model drain loop, and counts the packets before the first answer without one |
| ClientClass.Client.AcceptStreamNonblock | lib/quic/connection.rb:136-140 | Takes the head of the accept queue, or nothing when it is empty |
| ClientClass.Client.CallIsStep | ext/quic/stream.c:57-304 | A call on any stream object of the client, registered or not, is one model step and keeps the client valid |
| ClientClass.Client.StreamsAreFaithful | ext/quic/connection_client.c:596-630 | After any run, for every stream object: the framed bytes are the accepted ones up to `sent_offset`, the chunk queue holds the accepted ones from `pending_shifted` on, what was read followed by the receive buffer is what was received, and the flags and `acked_offset` say exactly what happened |
| ClientClass.Client.AcceptQueueIsFifo | lib/quic/connection.rb:114-140 | After any run, the streams accepted followed by `@accept_queue` are the server streams that received data, each once, in order of arrival |

## Left out

- ngtcp2, TLS, packets, timers, sockets and randomness appear only through the contract above; settings, transport parameters and `Client#close` do not appear.
- `Stream#write` (ext/quic/stream.c:116-143): its wait loop is any sequence of other steps, followed by the enqueue step that is modelled; that the window opens at last is not claimed.
- `accept_stream` with a timeout: only the shift of the queue is modelled; its wait loop is any sequence of other steps.
- `Stream#read` in lib/quic/stream.rb, `close_read` and the unit-test escape for streams without a client (an enqueue without the window check).
- Chunk strings and framed slices are values, so that a queued chunk cannot change is true by construction; the copy itself and the pointer that ngtcp2 keeps into a chunk are not modelled.
- The flow-control window is an input of each call; that queued bytes stay within it is not claimed, because the code compares only the new payload with it.
- Fairness across streams: the scan is first-match, and a stream with `reset` set is still offered.
- Alpn.CheckAndCount: `total` is unbounded; an entry list long enough to wrap a 64-bit size cannot be held in memory.
- The outer 16-bit length that section 3.1 of RFC 7301 puts before the list on the wire, which OpenSSL adds, and what a peer reads from it.
- Stream ids are taken as ngtcp2 reports them; their 64-bit width is not modelled.
