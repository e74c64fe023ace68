/** The simple thing that a stream stands for: append-only byte strings with
    positions in them. `Stream` in Stream.dfy is proved to refine it. */
module StreamModel {
  import opened Bytes
  import ChunkQueue

  /** Send side: everything accepted so far, and how far sending and
      acknowledging have come. */
  datatype Sender = Sender(
    writes: seq<seq<byte>>,  // non-empty payloads accepted by write calls, oldest first
    fin: bool,               // a FIN is queued after the last write
    frames: seq<seq<byte>>,  // slices that ngtcp2 framed, oldest first
    sent: nat,
    acked: nat,
    finFlushed: bool,        // write_pkt believes that the FIN went out
    finFramed: bool)         // ngtcp2 reported a frame that carried the FIN

  /** Receive side. */
  datatype Receiver = Receiver(
    received: seq<byte>,
    delivered: seq<byte>,    // what read calls returned so far
    fin: bool)

  datatype StreamState = StreamState(
    id: int,
    tx: Sender,
    rx: Receiver,
    reset: bool,
    closed: bool,
    errorCode: nat,
    hasErrorCode: bool,
    acceptQueued: bool)

  function Fresh(id: int): StreamState {
    StreamState(id, Sender([], false, [], 0, 0, false, false), Receiver([], [], false),
                false, false, 0, false, false)
  }

  function Accepted(tx: Sender): seq<byte> { Flatten(tx.writes) }
  function FramedBytes(tx: Sender): seq<byte> { Flatten(tx.frames) }
  function Buffered(rx: Receiver): seq<byte>
    requires rx.delivered <= rx.received
  {
    rx.received[|rx.delivered|..]
  }
  predicate Eof(rx: Receiver) { rx.fin && rx.delivered == rx.received }

  ghost predicate SenderInv(tx: Sender) {
    && ChunkQueue.NonEmpty(tx.writes)
    && (forall w :: w in tx.writes ==> |w| <= LONG_MAX)
    && tx.acked <= tx.sent <= |Accepted(tx)|
    && tx.sent <= MAX_STREAM_OFFSET
    && FramedBytes(tx) == Accepted(tx)[..tx.sent]
    && (tx.finFlushed ==> tx.fin && tx.sent == |Accepted(tx)|)
    && (tx.finFramed ==> tx.finFlushed)
  }

  ghost predicate Inv(s: StreamState) {
    && SenderInv(s.tx)
    && s.rx.delivered <= s.rx.received
    && |s.rx.received| <= MAX_STREAM_OFFSET
  }

  // ---------------------------------------------------------------- writing

  datatype WriteResult = Queued(count: nat) | StreamClosed | WaitWritable

  function Push(tx: Sender, data: seq<byte>, fin: bool): Sender {
    tx.(writes := if data == [] then tx.writes else tx.writes + [data], fin := fin)
  }

  function Enqueue(s: StreamState, data: seq<byte>, fin: bool): (StreamState, WriteResult) {
    if s.reset || s.closed || s.tx.fin then (s, StreamClosed)
    else (s.(tx := Push(s.tx, data, fin)), Queued(|data|))
  }

  function WriteNonblock(s: StreamState, data: seq<byte>, fin: bool, window: nat): (StreamState, WriteResult) {
    if data == [] then Enqueue(s, data, fin)
    else if window == 0 then (s, WaitWritable)
    else if |data| <= window then Enqueue(s, data, fin)
    else Enqueue(s, data[..window], false)
  }

  function CloseWrite(s: StreamState): (StreamState, WriteResult) {
    if s.tx.fin then (s, Queued(0)) else Enqueue(s, [], true)
  }

  // ---------------------------------------------------------------- sending

  // A slice for ngtcp2; no data means a frame with the FIN alone.
  datatype Offer = Offer(data: seq<byte>, fin: bool)

  /** Something is left to send: unsent bytes, or a queued FIN not yet flushed. */
  predicate HasWork(tx: Sender) {
    tx.sent < |Accepted(tx)| || (tx.fin && !tx.finFlushed)
  }

  /** The unsent bytes up to the end of the write that holds the first of them. */
  function NextOffer(tx: Sender): Offer
    requires HasWork(tx)
  {
    if tx.sent < |Accepted(tx)| then
      var end := ChunkQueue.ChunkEnd(tx.writes, tx.sent);
      Offer(Accepted(tx)[tx.sent..end], tx.fin && end == |Accepted(tx)|)
    else Offer([], true)
  }

  /** What ngtcp2_conn_writev_stream may answer to the next offer. */
  predicate LegalResponse(tx: Sender, n: int, pdatalen: int)
    requires HasWork(tx)
  {
    n < 0 || (-1 <= pdatalen <= |NextOffer(tx).data|
              && (0 < pdatalen ==> 0 < n && tx.sent + pdatalen <= MAX_STREAM_OFFSET))
  }

  function Account(tx: Sender, n: int, pdatalen: int): Sender
    requires HasWork(tx) && LegalResponse(tx, n, pdatalen)
  {
    var o := NextOffer(tx);
    var whole := o.fin && pdatalen == |o.data|;
    if n < 0 then tx
    else if 0 < pdatalen then
      tx.(sent := tx.sent + pdatalen, frames := tx.frames + [o.data[..pdatalen]],
          finFlushed := tx.finFlushed || whole, finFramed := tx.finFramed || whole)
    else if o.data == [] && 0 < n then
      tx.(finFlushed := true, finFramed := tx.finFramed || whole)
    else tx
  }

  function Ack(tx: Sender, datalen: nat): Sender { tx.(acked := tx.acked + datalen) }

  // -------------------------------------------------------------- receiving

  datatype ReadResult = Data(bytes: seq<byte>) | EndOfFile | WaitReadable | NegativeLength

  function Receive(s: StreamState, data: seq<byte>, fin: bool): StreamState {
    s.(rx := s.rx.(received := s.rx.received + data, fin := s.rx.fin || fin),
       acceptQueued := s.acceptQueued || s.id % 2 == 1)
  }

  function Read(rx: Receiver, length: int): (Receiver, ReadResult)
    requires rx.delivered <= rx.received
  {
    var have := Buffered(rx);
    if length < 0 then (rx, NegativeLength)
    else if have == [] then (rx, if rx.fin then EndOfFile else WaitReadable)
    else
      var out := have[..if length < |have| then length else |have|];
      (rx.(delivered := rx.delivered + out), Data(out))
  }

  // ------------------------------------------------------------- ending

  function MarkReset(s: StreamState, code: nat): StreamState {
    s.(reset := true, errorCode := code, hasErrorCode := true)
  }

  function MarkClosed(s: StreamState, hasCode: bool, code: nat): StreamState {
    s.(closed := true, errorCode := if hasCode then code else s.errorCode, hasErrorCode := s.hasErrorCode || hasCode)
  }

  function MarkAborted(s: StreamState, accepted: bool): StreamState { s.(reset := s.reset || accepted) }

  // ------------------------------------------------------------------- runs

  datatype StreamEvent =
    | Write(data: seq<byte>, fin: bool)
    | WriteSome(data: seq<byte>, fin: bool, window: nat)
    | FinishWrite
    | ReadSome(length: int)
    | Abort(accepted: bool)                // #reset, and whether ngtcp2 accepted it
    | Framed(n: int, pdatalen: int)
    | Acked(datalen: nat)
    | Received(data: seq<byte>, fin: bool)
    | PeerReset(code: nat)
    | Closed(hasCode: bool, code: nat)

  /** The environment contract: what ngtcp2 and the callers may do next. */
  predicate Legal(s: StreamState, e: StreamEvent) {
    match e
    case Write(data, _) => |data| <= LONG_MAX
    case WriteSome(data, _, _) => |data| <= LONG_MAX
    case Framed(n, pdatalen) => HasWork(s.tx) && LegalResponse(s.tx, n, pdatalen)
    case Acked(datalen) => s.tx.acked + datalen <= s.tx.sent
    case Received(data, _) =>
      (s.rx.fin ==> data == []) && |s.rx.received| + |data| <= MAX_STREAM_OFFSET
    case _ => true
  }

  lemma PushKeepsInv(tx: Sender, data: seq<byte>, fin: bool)
    requires SenderInv(tx) && !tx.fin && |data| <= LONG_MAX
    ensures SenderInv(Push(tx, data, fin))
  {
    FlattenPush(tx.writes, data);
  }

  lemma EnqueueKeepsInv(s: StreamState, data: seq<byte>, fin: bool)
    requires Inv(s) && |data| <= LONG_MAX
    ensures Inv(Enqueue(s, data, fin).0)
  {
    if !s.tx.fin { PushKeepsInv(s.tx, data, fin); }
  }

  lemma AccountKeepsInv(tx: Sender, n: int, pdatalen: int)
    requires SenderInv(tx) && HasWork(tx) && LegalResponse(tx, n, pdatalen)
    ensures SenderInv(Account(tx, n, pdatalen))
  {
    if 0 <= n && 0 < pdatalen {
      var piece := NextOffer(tx).data[..pdatalen];
      FlattenPush(tx.frames, piece);
      assert Accepted(tx)[..tx.sent] + piece == Accepted(tx)[..tx.sent + pdatalen];
    }
  }

  /** One step. Whatever ngtcp2 and the callers do within the contract, the
      invariant survives. */
  function Apply(s: StreamState, e: StreamEvent): (r: StreamState)
    requires Inv(s) && Legal(s, e)
    ensures Inv(r)
  {
    match e
    case Write(data, fin) =>
      EnqueueKeepsInv(s, data, fin);
      Enqueue(s, data, fin).0
    case WriteSome(data, fin, window) =>
      EnqueueKeepsInv(s, data, fin);
      EnqueueKeepsInv(s, if window < |data| then data[..window] else data, false);
      WriteNonblock(s, data, fin, window).0
    case FinishWrite =>
      EnqueueKeepsInv(s, [], true);
      CloseWrite(s).0
    case ReadSome(length) => s.(rx := Read(s.rx, length).0)
    case Abort(accepted) => MarkAborted(s, accepted)
    case Framed(n, pdatalen) =>
      AccountKeepsInv(s.tx, n, pdatalen);
      s.(tx := Account(s.tx, n, pdatalen))
    case Acked(datalen) => s.(tx := Ack(s.tx, datalen))
    case Received(data, fin) => Receive(s, data, fin)
    case PeerReset(code) => MarkReset(s, code)
    case Closed(hasCode, code) => MarkClosed(s, hasCode, code)
  }

  predicate LegalRun(s: StreamState, es: seq<StreamEvent>)
    requires Inv(s)
    decreases |es|
  {
    es == [] || (Legal(s, es[0]) && LegalRun(Apply(s, es[0]), es[1..]))
  }

  function Run(s: StreamState, es: seq<StreamEvent>): (r: StreamState)
    requires Inv(s) && LegalRun(s, es)
    ensures Inv(r)
    decreases |es|
  {
    if es == [] then s else Run(Apply(s, es[0]), es[1..])
  }
}
