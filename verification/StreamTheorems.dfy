/** What holds of one stream over every run that keeps the environment contract. */
module StreamTheorems {
  import opened Bytes
  import opened ChunkQueue
  import opened StreamModel
  import opened StreamAnswers

  // ------------------------------------------- the queue behind the positions

  /** The pending chunk queue is the list of all writes, trimmed up to `acked`. */
  function Pending(tx: Sender): Queue { Trim(Queue(tx.writes, 0), tx.acked) }

  /** The cursors are ordered, the queue holds exactly the accepted bytes from
      `shifted` on, and the end of any chunk placed at `shifted` fits 64 bits. */
  lemma CursorInvariant(tx: Sender)
    requires SenderInv(tx)
    ensures var q := Pending(tx);
            && q.shifted <= tx.acked <= tx.sent <= q.shifted + |Flatten(q.chunks)|
            && Flatten(q.chunks) == Accepted(tx)[q.shifted..]
            && NonEmpty(q.chunks)
            && (forall c :: c in q.chunks ==> tx.sent + |c| < 0x1_0000_0000_0000_0000)
  {
    TrimKeepsTail(Queue(tx.writes, 0), tx.acked);
    var q := Pending(tx);
    forall i | 0 <= i < |q.chunks| ensures q.chunks[i] != [] {
      assert q.chunks[i] in tx.writes;
    }
  }

  /** Every framed byte that is not acknowledged yet is still in the queue, at
      its absolute offset minus `shifted`. */
  lemma Retention(tx: Sender, i: nat)
    requires SenderInv(tx) && tx.acked <= i < tx.sent
    ensures var q := Pending(tx);
            && q.shifted <= i < q.shifted + |Flatten(q.chunks)|
            && Flatten(q.chunks)[i - q.shifted] == FramedBytes(tx)[i] == Accepted(tx)[i]
  {
    CursorInvariant(tx);
  }

  lemma PendingAfterPush(tx: Sender, data: seq<byte>, fin: bool)
    requires SenderInv(tx) && data != []
    ensures Pending(Push(tx, data, fin)) == Queue(Pending(tx).chunks + [data], Pending(tx).shifted)
  {
    TrimPush(Queue(tx.writes, 0), tx.acked, data);
  }

  lemma PendingAfterAck(tx: Sender, datalen: nat)
    ensures Trim(Pending(tx), tx.acked + datalen) == Pending(Ack(tx, datalen))
  {
    TrimAdditive(Queue(tx.writes, 0), tx.acked, tx.acked + datalen);
  }

  /** Two acknowledgements leave the queue and the cursors of their sum. */
  lemma AcksAdd(tx: Sender, d1: nat, d2: nat)
    ensures Ack(Ack(tx, d1), d2) == Ack(tx, d1 + d2)
    ensures Trim(Trim(Pending(tx), tx.acked + d1), tx.acked + d1 + d2)
            == Trim(Pending(tx), tx.acked + d1 + d2) == Pending(Ack(tx, d1 + d2))
  {
    PendingAfterAck(tx, d1);
    PendingAfterAck(Ack(tx, d1), d2);
    PendingAfterAck(tx, d1 + d2);
  }

  /** `shifted` is the largest boundary between writes at or below `acked`. */
  lemma ShiftedIsLargestBoundary(tx: Sender)
    requires SenderInv(tx)
    ensures var all, q := Queue(tx.writes, 0), Pending(tx);
            && IsBoundary(all, q.shifted) && q.shifted <= tx.acked
            && forall b :: IsBoundary(all, b) && b <= tx.acked ==> b <= q.shifted
  {
    TrimStopsAtLargestBoundary(Queue(tx.writes, 0), tx.acked);
  }

  /** Walking the trimmed queue from `sent` finds the flat offer, or nothing
      exactly when every accepted byte was sent. */
  lemma OfferFromPending(tx: Sender)
    requires SenderInv(tx)
    ensures Pending(tx).shifted <= tx.sent
    ensures OfferFrom(Pending(tx), tx.sent).Some? <==> tx.sent < |Accepted(tx)|
    ensures tx.sent < |Accepted(tx)| ==>
              OfferFrom(Pending(tx), tx.sent) == Some((NextOffer(tx).data,
                                                       tx.sent + |NextOffer(tx).data| == |Accepted(tx)|))
  {
    TrimmedOffer(tx.writes, tx.acked, tx.sent);
    WalkIsFlatIndexing(tx.writes, tx.sent);
  }

  lemma TrimmedOffer(writes: seq<seq<byte>>, acked: nat, at: nat)
    requires acked <= at
    ensures var q := Queue(writes, 0);
            Trim(q, acked).shifted <= at && OfferFrom(Trim(q, acked), at) == OfferFrom(q, at)
  {
    TrimCommutesWithOffer(Queue(writes, 0), acked, at);
  }

  lemma AckKeepsOffer(tx: Sender, d: nat)
    requires tx.acked + d <= tx.sent
    ensures Pending(Ack(tx, d)).shifted <= tx.sent && Pending(tx).shifted <= tx.sent
    ensures OfferFrom(Pending(Ack(tx, d)), tx.sent) == OfferFrom(Pending(tx), tx.sent)
  {
    TrimmedOffer(tx.writes, tx.acked, tx.sent);
    TrimmedOffer(tx.writes, tx.acked + d, tx.sent);
  }

  lemma AccountIgnoresAcks(tx: Sender, d: nat, n: int, pdatalen: int)
    requires HasWork(tx) && LegalResponse(tx, n, pdatalen)
    ensures HasWork(Ack(tx, d)) && NextOffer(Ack(tx, d)) == NextOffer(tx)
    ensures LegalResponse(Ack(tx, d), n, pdatalen)
    ensures Account(Ack(tx, d), n, pdatalen) == Ack(Account(tx, n, pdatalen), d)
  {
  }

  /** An acknowledgement and a send commute: handled first, it changes neither
      the offer computed from the queue nor the state reached in the end. */
  lemma AckCommutes(tx: Sender, d: nat, n: int, pdatalen: int)
    requires SenderInv(tx) && tx.acked + d <= tx.sent
    requires HasWork(tx) && LegalResponse(tx, n, pdatalen)
    ensures Pending(Ack(tx, d)).shifted <= tx.sent && Pending(tx).shifted <= tx.sent
    ensures OfferFrom(Pending(Ack(tx, d)), tx.sent) == OfferFrom(Pending(tx), tx.sent)
    ensures NextOffer(Ack(tx, d)) == NextOffer(tx) && LegalResponse(Ack(tx, d), n, pdatalen)
    ensures Account(Ack(tx, d), n, pdatalen) == Ack(Account(tx, n, pdatalen), d)
  {
    AckKeepsOffer(tx, d);
    AccountIgnoresAcks(tx, d, n, pdatalen);
  }

  /** The offer starts at `sent` and ends at the nearest end of a write; the FIN
      goes with the last accepted byte, or alone after it, and nowhere else. */
  lemma OfferIsExact(tx: Sender)
    requires SenderInv(tx) && HasWork(tx)
    ensures var o, end := NextOffer(tx), tx.sent + |NextOffer(tx).data|;
            && end <= |Accepted(tx)|
            && o.data == Accepted(tx)[tx.sent..end]
            && (o.data == [] <==> tx.sent == |Accepted(tx)|)
            && (o.fin <==> tx.fin && end == |Accepted(tx)|)
            && (o.data != [] ==>
                  && IsBoundary(Queue(tx.writes, 0), end)
                  && forall b :: IsBoundary(Queue(tx.writes, 0), b) && tx.sent < b ==> end <= b)
  {
    if tx.sent < |Accepted(tx)| {
      ChunkEndIsNextBoundary(tx.writes, tx.sent);
    }
  }

  // ------------------------------------------------- what an observer records

  datatype Log = Log(accepted: seq<byte>, framed: seq<byte>, received: seq<byte>, delivered: seq<byte>)

  const NOTHING := Log([], [], [], [])

  function Counted(data: seq<byte>, r: WriteResult): seq<byte> {
    if r.Queued? && r.count <= |data| then data[..r.count] else []
  }

  /** The bytes that cross the four interfaces of the stream in one step: those
      a write call reports as queued, those ngtcp2 reports as framed, those the
      receive callback brings, and those a read call returns. */
  function Observed(s: StreamState, e: StreamEvent): Log
    requires Inv(s) && Legal(s, e)
  {
    match e
    case Write(data, fin) => NOTHING.(accepted := Counted(data, Enqueue(s, data, fin).1))
    case WriteSome(data, fin, w) => NOTHING.(accepted := Counted(data, WriteNonblock(s, data, fin, w).1))
    case Framed(n, pdatalen) =>
      NOTHING.(framed := if 0 <= n && 0 < pdatalen then NextOffer(s.tx).data[..pdatalen] else [])
    case Received(data, _) => NOTHING.(received := data)
    case ReadSome(length) =>
      var r := Read(s.rx, length).1;
      NOTHING.(delivered := if r.Data? then r.bytes else [])
    case _ => NOTHING
  }

  function Then(a: Log, b: Log): Log {
    Log(a.accepted + b.accepted, a.framed + b.framed, a.received + b.received, a.delivered + b.delivered)
  }

  function RunLog(s: StreamState, es: seq<StreamEvent>): Log
    requires Inv(s) && LegalRun(s, es)
    decreases |es|
  {
    if es == [] then NOTHING
    else Then(Observed(s, es[0]), RunLog(Apply(s, es[0]), es[1..]))
  }

  function Contents(s: StreamState): Log {
    Log(Accepted(s.tx), FramedBytes(s.tx), s.rx.received, s.rx.delivered)
  }

  lemma ThenOne(c: Log, x: seq<byte>)
    ensures Then(c, NOTHING) == c && Then(NOTHING, c) == c
    ensures Then(c, NOTHING.(accepted := x)) == c.(accepted := c.accepted + x)
    ensures Then(c, NOTHING.(framed := x)) == c.(framed := c.framed + x)
    ensures Then(c, NOTHING.(received := x)) == c.(received := c.received + x)
    ensures Then(c, NOTHING.(delivered := x)) == c.(delivered := c.delivered + x)
  {
  }

  lemma ThenAssociates(a: Log, b: Log, c: Log)
    ensures Then(Then(a, b), c) == Then(a, Then(b, c))
  {
  }

  lemma EnqueueMatchesLog(s: StreamState, data: seq<byte>, fin: bool)
    ensures var (t, r) := Enqueue(s, data, fin);
            Contents(t) == Contents(s).(accepted := Accepted(s.tx) + Counted(data, r))
  {
    FlattenPush(s.tx.writes, data);
    assert data[..|data|] == data;
    assert Accepted(s.tx) + [] == Accepted(s.tx);
  }

  lemma WriteNonblockMatchesLog(s: StreamState, data: seq<byte>, fin: bool, w: nat)
    ensures var (t, r) := WriteNonblock(s, data, fin, w);
            Contents(t) == Contents(s).(accepted := Accepted(s.tx) + Counted(data, r))
  {
    if data == [] || |data| <= w {
      EnqueueMatchesLog(s, data, fin);
    } else {
      EnqueueMatchesLog(s, data[..w], false);
      assert data[..w][..w] == data[..w];
      assert Accepted(s.tx) + [] == Accepted(s.tx);
    }
  }

  lemma AccountMatchesLog(s: StreamState, n: int, pdatalen: int)
    requires Inv(s) && Legal(s, Framed(n, pdatalen))
    ensures FramedBytes(Account(s.tx, n, pdatalen))
            == FramedBytes(s.tx) + Observed(s, Framed(n, pdatalen)).framed
  {
    if 0 <= n && 0 < pdatalen {
      FlattenPush(s.tx.frames, NextOffer(s.tx).data[..pdatalen]);
    } else {
      assert FramedBytes(s.tx) + [] == FramedBytes(s.tx);
    }
  }

  lemma StepMatchesLog(s: StreamState, e: StreamEvent)
    requires Inv(s) && Legal(s, e)
    ensures Contents(Apply(s, e)) == Then(Contents(s), Observed(s, e))
  {
    var o, c := Observed(s, e), Contents(s);
    match e
    case Write(data, fin) =>
      EnqueueMatchesLog(s, data, fin);
      ThenOne(c, o.accepted);
      assert Contents(Apply(s, e)) == Then(c, o);
    case WriteSome(data, fin, w) =>
      WriteNonblockMatchesLog(s, data, fin, w);
      ThenOne(c, o.accepted);
      assert Contents(Apply(s, e)) == Then(c, o);
    case Framed(n, pdatalen) =>
      AccountMatchesLog(s, n, pdatalen);
      ThenOne(c, o.framed);
      assert Contents(Apply(s, e)) == Then(c, o);
    case Received(_, _) =>
      ThenOne(c, o.received);
      assert Contents(Apply(s, e)) == Then(c, o);
    case ReadSome(_) =>
      assert c.delivered + [] == c.delivered;
      ThenOne(c, o.delivered);
      assert Contents(Apply(s, e)) == Then(c, o);
    case _ =>
      ThenOne(c, []);
      assert Contents(Apply(s, e)) == Then(c, o);
  }

  lemma {:induction false} RunMatchesLog(s: StreamState, es: seq<StreamEvent>)
    requires Inv(s) && LegalRun(s, es)
    ensures Contents(Run(s, es)) == Then(Contents(s), RunLog(s, es))
    decreases |es|
  {
    if es == [] {
      ThenOne(Contents(s), []);
    } else {
      StepMatchesLog(s, es[0]);
      RunMatchesLog(Apply(s, es[0]), es[1..]);
      ThenAssociates(Contents(s), Observed(s, es[0]), RunLog(Apply(s, es[0]), es[1..]));
    }
  }

  lemma ContentsAreFaithful(s: StreamState)
    requires Inv(s)
    ensures var c := Contents(s);
            && s.tx.sent <= |c.accepted| && c.framed == c.accepted[..s.tx.sent]
            && c.delivered <= c.received && c.delivered + Buffered(s.rx) == c.received
  {
  }

  lemma FreshRunMatchesLog(id: int, es: seq<StreamEvent>)
    requires LegalRun(Fresh(id), es)
    ensures Contents(Run(Fresh(id), es)) == RunLog(Fresh(id), es)
  {
    RunMatchesLog(Fresh(id), es);
    ThenOne(RunLog(Fresh(id), es), []);
    assert Contents(Fresh(id)) == NOTHING;
  }

  /** After the run `hist` the stream is in state `s`, and the slices framed in it
      spell the bytes accepted in it up to `sent`, while the bytes delivered in it
      followed by the receive buffer spell the bytes received in it. Its flags and
      `acked` say exactly what happened in the run. */
  ghost predicate Faithful(hist: seq<StreamEvent>, s: StreamState) {
    LegalRun(Fresh(s.id), hist) && Run(Fresh(s.id), hist) == s && BytesAreTrue(hist, s) && MarksAreTrue(hist, s)
  }

  ghost predicate BytesAreTrue(hist: seq<StreamEvent>, s: StreamState)
    requires LegalRun(Fresh(s.id), hist)
  {
    var log := RunLog(Fresh(s.id), hist);
    && log == Contents(s)
    && s.tx.sent <= |log.accepted|
    && log.framed == log.accepted[..s.tx.sent]
    && log.delivered <= log.received
    && log.delivered + Buffered(s.rx) == log.received
  }

  ghost predicate MarksAreTrue(hist: seq<StreamEvent>, s: StreamState)
    requires LegalRun(Fresh(s.id), hist)
  {
    && (s.tx.fin <==> FinQueuedIn(Fresh(s.id), hist))
    && (s.tx.finFlushed <==> FinFlushedIn(Fresh(s.id), hist))
    && s.tx.acked == AckedIn(hist)
    && (s.rx.fin <==> FinArrives(hist))
    && (s.reset <==> ResetIn(hist)) && (s.closed <==> ClosedIn(hist))
    && (s.hasErrorCode <==> LastCode(hist).Some?) && (s.hasErrorCode ==> Some(s.errorCode) == LastCode(hist))
  }

  /** No loss, duplication or reordering on either side, in any interleaving. */
  lemma StreamFidelity(id: int, es: seq<StreamEvent>)
    requires LegalRun(Fresh(id), es)
    ensures Faithful(es, Run(Fresh(id), es))
  {
    FreshRunMatchesLog(id, es);
    ContentsAreFaithful(Run(Fresh(id), es));
    MarksOfRun(Fresh(id), es);
    SendMarksOfRun(Fresh(id), es);
    CodeIsTheLast(Fresh(id), es);
  }

  // ------------------------------------------------------------ what is final

  /** Histories and positions only grow, and what is final stays final. */
  ghost predicate SenderGrows(a: Sender, b: Sender) {
    && a.writes <= b.writes && a.frames <= b.frames
    && a.sent <= b.sent && a.acked <= b.acked
    && (a.fin ==> b.fin && b.writes == a.writes)
    && (a.finFlushed ==> b.finFlushed && b.frames == a.frames && b.sent == a.sent && b.finFramed == a.finFramed)
  }

  ghost predicate ReceiverGrows(a: Receiver, b: Receiver) {
    && a.received <= b.received && a.delivered <= b.delivered
    && (a.fin ==> b.fin && b.received == a.received)
  }

  ghost predicate MarksGrow(s: StreamState, r: StreamState) {
    && r.id == s.id && (s.closed ==> r.closed) && (s.acceptQueued ==> r.acceptQueued)
    && (s.reset || s.closed ==> (r.reset || r.closed) && r.tx.writes == s.tx.writes && r.tx.fin == s.tx.fin)
  }

  ghost predicate Grows(s: StreamState, r: StreamState) {
    SenderGrows(s.tx, r.tx) && ReceiverGrows(s.rx, r.rx) && MarksGrow(s, r)
  }

  lemma PushGrows(tx: Sender, data: seq<byte>, fin: bool)
    requires !tx.fin && !tx.finFlushed
    ensures SenderGrows(tx, Push(tx, data, fin))
  {
  }

  lemma EnqueueGrows(s: StreamState, data: seq<byte>, fin: bool)
    requires s.tx.finFlushed ==> s.tx.fin
    ensures Grows(s, Enqueue(s, data, fin).0)
  {
    if !s.tx.fin { PushGrows(s.tx, data, fin); }
  }

  lemma AccountGrows(tx: Sender, n: int, pdatalen: int)
    requires SenderInv(tx) && HasWork(tx) && LegalResponse(tx, n, pdatalen)
    ensures SenderGrows(tx, Account(tx, n, pdatalen)) && Account(tx, n, pdatalen).writes == tx.writes
  {
  }

  lemma SenderStepGrows(s: StreamState, e: StreamEvent)
    requires Inv(s) && Legal(s, e)
    ensures SenderGrows(s.tx, Apply(s, e).tx)
  {
    match e
    case Write(data, fin) => EnqueueGrows(s, data, fin);
    case WriteSome(data, fin, w) =>
      EnqueueGrows(s, data, fin);
      EnqueueGrows(s, if w < |data| then data[..w] else data, false);
    case FinishWrite => EnqueueGrows(s, [], true);
    case Framed(n, pdatalen) => AccountGrows(s.tx, n, pdatalen);
    case _ =>
  }

  lemma ReceiverStepGrows(s: StreamState, e: StreamEvent)
    requires Inv(s) && Legal(s, e)
    ensures ReceiverGrows(s.rx, Apply(s, e).rx)
  {
    match e
    case Received(data, fin) => assert s.rx.fin ==> s.rx.received + data == s.rx.received;
    case ReadSome(_) =>
    case _ => assert Apply(s, e).rx == s.rx;
  }

  lemma MarksStepGrow(s: StreamState, e: StreamEvent)
    requires Inv(s) && Legal(s, e)
    ensures MarksGrow(s, Apply(s, e))
  {
    match e
    case Framed(n, pdatalen) => AccountGrows(s.tx, n, pdatalen);
    case _ =>
  }

  lemma StepGrows(s: StreamState, e: StreamEvent)
    requires Inv(s) && Legal(s, e)
    ensures Grows(s, Apply(s, e))
  {
    SenderStepGrows(s, e);
    ReceiverStepGrows(s, e);
    MarksStepGrow(s, e);
  }

  lemma {:induction false} RunGrows(s: StreamState, es: seq<StreamEvent>)
    requires Inv(s) && LegalRun(s, es)
    ensures Grows(s, Run(s, es))
    decreases |es|
  {
    if es != [] {
      StepGrows(s, es[0]);
      RunGrows(Apply(s, es[0]), es[1..]);
      GrowsOn(s, Apply(s, es[0]), Run(s, es));
    }
  }

  lemma GrowsOn(s: StreamState, t: StreamState, r: StreamState)
    requires Grows(s, t) && Grows(t, r)
    ensures Grows(s, r)
  {
  }

  // Steps after which the stream takes no more data.
  predicate EndsWriting(e: StreamEvent) {
    || e.PeerReset? || e.Closed? || e.FinishWrite?
    || (e.Abort? && e.accepted) || (e.Write? && e.fin)
    || (e.WriteSome? && e.fin && |e.data| <= e.window)
  }

  /** After a reset, a close or a finished write side, nothing more is accepted:
      every later write call in the run is refused and changes nothing. */
  lemma WritingEndsForGood(s: StreamState, e: StreamEvent, es: seq<StreamEvent>,
                           data: seq<byte>, fin: bool, window: nat)
    requires Inv(s) && Legal(s, e) && EndsWriting(e) && LegalRun(Apply(s, e), es)
    ensures var r := Run(Apply(s, e), es);
            && r.tx.writes == Apply(s, e).tx.writes
            && Enqueue(r, data, fin) == (r, StreamClosed)
            && WriteNonblock(r, data, fin, window)
               == (r, if data != [] && window == 0 then WaitWritable else StreamClosed)
  {
    RunGrows(Apply(s, e), es);
  }

  // The code of the last reset, or close with a code, among `es`.
  function LastCode(es: seq<StreamEvent>): Option<nat> {
    if es == [] then None
    else if LastCode(es[1..]).Some? then LastCode(es[1..])
    else match es[0]
      case PeerReset(code) => Some(code)
      case Closed(true, code) => Some(code)
      case _ => None
  }

  /** The stream shows the code of the last reset, or close with a code; a close
      without one keeps the code of an earlier reset. */
  lemma {:induction false} CodeIsTheLast(s: StreamState, es: seq<StreamEvent>)
    requires Inv(s) && LegalRun(s, es)
    ensures var r := Run(s, es);
            match LastCode(es)
            case Some(code) => r.hasErrorCode && r.errorCode == code
            case None => r.hasErrorCode == s.hasErrorCode && r.errorCode == s.errorCode
    decreases |es|
  {
    if es != [] {
      CodeOfStep(s, es[0]);
      CodeIsTheLast(Apply(s, es[0]), es[1..]);
    }
  }

  lemma CodeOfStep(s: StreamState, e: StreamEvent)
    requires Inv(s) && Legal(s, e)
    ensures var r := Apply(s, e);
            if e.PeerReset? || (e.Closed? && e.hasCode) then r.hasErrorCode && r.errorCode == e.code
            else r.hasErrorCode == s.hasErrorCode && r.errorCode == s.errorCode
  {
  }

  lemma BufferedGrows(rx: Receiver, data: seq<byte>, fin: bool)
    requires rx.delivered <= rx.received
    ensures var after := rx.(received := rx.received + data, fin := rx.fin || fin);
            after.delivered <= after.received && Buffered(after) == Buffered(rx) + data
  {
  }

  /** A read returns the oldest buffered bytes, as many as asked for and present,
      and leaves the rest; each refusal has exactly its own cause. */
  lemma ReadIsExact(rx: Receiver, length: int)
    requires rx.delivered <= rx.received
    ensures var (after, r) := Read(rx, length);
            && (r.NegativeLength? <==> length < 0)
            && (r.EndOfFile? <==> 0 <= length && Eof(rx))
            && (r.WaitReadable? <==> 0 <= length && rx.delivered == rx.received && !rx.fin)
            && (r.Data? ==> && after.delivered <= after.received == rx.received
                            && r.bytes + Buffered(after) == Buffered(rx) && |r.bytes| <= length
                            && (|r.bytes| < length ==> Buffered(after) == []))
            && (!r.Data? ==> after == rx)
  {
    assert rx.received == rx.delivered + Buffered(rx);
  }

  /** `eof?` and the EOF of a read mean that the FIN came and every received
      byte was delivered, and they hold for the rest of the run. */
  lemma EofIsExactAndFinal(s: StreamState, es: seq<StreamEvent>, length: nat)
    requires Inv(s) && LegalRun(s, es)
    ensures Read(s.rx, length).1.EndOfFile? <==> s.rx.fin && s.rx.delivered == s.rx.received
    ensures Eof(s.rx) ==> var r := Run(s, es).rx;
                          Eof(r) && r.delivered == s.rx.delivered && Read(r, length) == (r, EndOfFile)
  {
    RunGrows(s, es);
    assert s.rx.received == s.rx.delivered + Buffered(s.rx);
  }

  /** Once `fin_flushed` is set, a FIN was queued, every accepted byte was
      framed, nothing more is accepted, and skipping the stream hides nothing. */
  lemma FinFlushedIsFinal(s: StreamState, es: seq<StreamEvent>)
    requires Inv(s) && LegalRun(s, es) && s.tx.finFlushed
    ensures var r := Run(s, es).tx;
            && r.finFlushed && r.fin && Accepted(r) == Accepted(s.tx)
            && r.sent == |Accepted(r)| && FramedBytes(r) == Accepted(r) && !HasWork(r)
  {
    RunGrows(s, es);
  }

  // ------------------------------------ fin_flushed and the FIN on the wire

  /** A FIN-only offer for which ngtcp2 wrote a packet but reported no stream frame. */
  predicate BlindFin(s: StreamState, e: StreamEvent)
    requires Inv(s) && Legal(s, e)
  {
    e.Framed? && 0 < e.n && e.pdatalen < 0 && NextOffer(s.tx).data == []
  }

  predicate BlindSomewhere(s: StreamState, es: seq<StreamEvent>)
    requires Inv(s) && LegalRun(s, es)
    decreases |es|
  {
    es != [] && (BlindFin(s, es[0]) || BlindSomewhere(Apply(s, es[0]), es[1..]))
  }

  lemma BlindAccount(tx: Sender, n: int, pdatalen: int)
    requires SenderInv(tx) && HasWork(tx) && LegalResponse(tx, n, pdatalen) && tx.finFramed == tx.finFlushed
    ensures var r := Account(tx, n, pdatalen);
            if 0 < n && pdatalen < 0 && NextOffer(tx).data == [] then r.finFlushed && !r.finFramed
            else r.finFramed == r.finFlushed
  {
  }

  lemma BlindStep(s: StreamState, e: StreamEvent)
    requires Inv(s) && Legal(s, e) && s.tx.finFramed == s.tx.finFlushed
    ensures var r := Apply(s, e).tx;
            if BlindFin(s, e) then r.finFlushed && !r.finFramed else r.finFramed == r.finFlushed
  {
    match e
    case Framed(n, pdatalen) => BlindAccount(s.tx, n, pdatalen);
    case _ =>
  }

  /** `fin_flushed` is set without a FIN frame exactly in the runs with a blind
      FIN-only step; in every other run it means that ngtcp2 framed the FIN. */
  lemma {:induction false} FinFlushedMeansFramedExactly(s: StreamState, es: seq<StreamEvent>)
    requires Inv(s) && LegalRun(s, es) && s.tx.finFramed == s.tx.finFlushed
    ensures var r := Run(s, es).tx;
            r.finFlushed && !r.finFramed <==> BlindSomewhere(s, es)
    decreases |es|
  {
    if es != [] {
      var t := Apply(s, es[0]);
      BlindStep(s, es[0]);
      if BlindFin(s, es[0]) {
        RunGrows(t, es[1..]);
      } else {
        FinFlushedMeansFramedExactly(t, es[1..]);
      }
    }
  }

  const BLIND_RUN := [FinishWrite, Framed(40, -1)]

  lemma BlindRun()
    ensures LegalRun(Fresh(0), BLIND_RUN)
    ensures var r := Run(Fresh(0), BLIND_RUN).tx; r.finFlushed && !r.finFramed
  {
    var s := Apply(Fresh(0), FinishWrite);
    assert BLIND_RUN[1..] == [Framed(40, -1)] && BLIND_RUN[1..][1..] == [];
    assert LegalRun(s, BLIND_RUN[1..]);
    assert Run(s, BLIND_RUN[1..]) == Run(Apply(s, Framed(40, -1)), []);
  }

  /** The failing family has members, and the loss is for good: after a blind
      step no continuation ever offers the FIN again. */
  lemma LostFin(es: seq<StreamEvent>)
    ensures LegalRun(Fresh(0), BLIND_RUN)
    ensures LegalRun(Run(Fresh(0), BLIND_RUN), es) ==>
              var r := Run(Run(Fresh(0), BLIND_RUN), es).tx;
              r.fin && r.finFlushed && !r.finFramed && !HasWork(r)
  {
    BlindRun();
    var s := Run(Fresh(0), BLIND_RUN);
    if LegalRun(s, es) {
      FinFlushedIsFinal(s, es);
      RunGrows(s, es);
    }
  }
}
