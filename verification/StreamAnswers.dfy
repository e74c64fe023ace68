/** What each operation of a stream answers and leaves behind, said without the
    operation's own definition, and what a whole run adds up to. */
module StreamAnswers {
  import opened Bytes
  import opened StreamModel

  // ------------------------------------------------------------------ writes

  // A write is refused for good once one of these is set.
  predicate Open(s: StreamState) { !s.reset && !s.closed && !s.tx.fin }

  /** From `s` to `t`, exactly `data` was accepted, as one write, with a FIN behind
      it if `fin`; nothing else changed. */
  ghost predicate Takes(s: StreamState, t: StreamState, data: seq<byte>, fin: bool) {
    && Accepted(t.tx) == Accepted(s.tx) + data
    && t.tx.writes == s.tx.writes + (if data == [] then [] else [data])
    && (t.tx.fin <==> s.tx.fin || fin)
    && t == s.(tx := s.tx.(writes := t.tx.writes, fin := t.tx.fin))
  }

  /** An open stream takes all of the data, any other stream nothing. */
  lemma WriteIsExact(s: StreamState, data: seq<byte>, fin: bool)
    ensures var (t, r) := Enqueue(s, data, fin);
            if Open(s) then r == Queued(|data|) && Takes(s, t, data, fin) else t == s && r == StreamClosed
  {
    FlattenPush(s.tx.writes, data);
  }

  /** write_nonblock takes what the window holds, and the FIN only with everything. */
  lemma WriteNonblockIsExact(s: StreamState, data: seq<byte>, fin: bool, window: nat)
    ensures var (t, r) := WriteNonblock(s, data, fin, window);
            if data != [] && window == 0 then t == s && r == WaitWritable
            else if !Open(s) then t == s && r == StreamClosed
            else
              var n := if |data| < window then |data| else window;
              r == Queued(n) && Takes(s, t, data[..n], fin && n == |data|)
  {
    var n := if |data| < window then |data| else window;
    WriteIsExact(s, data[..n], fin && n == |data|);
    assert n == |data| ==> data[..n] == data;
  }

  /** close_write queues the FIN once; again it neither changes nor refuses. */
  lemma CloseWriteIsExact(s: StreamState)
    ensures var (t, r) := CloseWrite(s);
            if s.tx.fin then t == s && r == Queued(0)
            else if Open(s) then r == Queued(0) && Takes(s, t, [], true)
            else t == s && r == StreamClosed
  {
    WriteIsExact(s, [], true);
  }

  // ----------------------------------------------------------------- sending

  // The answer that takes the FIN of the offer: all of its data, or a packet when it has none.
  predicate TakesFin(o: Offer, n: int, pdatalen: int) {
    0 < n && o.fin && (o.data == [] || pdatalen == |o.data|)
  }

  // The bytes of the offer that an answer takes.
  function TakenBytes(n: int, pdatalen: int): nat { if 0 <= n && 0 < pdatalen then pdatalen else 0 }

  /** The accounting moves `sent` by exactly the bytes taken and sets `fin_flushed`
      exactly when the FIN was taken; writes, acks and the queued FIN stay. */
  lemma AccountIsExact(tx: Sender, n: int, pdatalen: int)
    requires SenderInv(tx) && HasWork(tx) && LegalResponse(tx, n, pdatalen)
    ensures var r, o, k := Account(tx, n, pdatalen), NextOffer(tx), TakenBytes(n, pdatalen);
            && r.sent == tx.sent + k
            && k <= |o.data| && FramedBytes(r) == FramedBytes(tx) + o.data[..k]
            && (r.finFlushed <==> tx.finFlushed || TakesFin(o, n, pdatalen))
            && r.writes == tx.writes && r.fin == tx.fin && r.acked == tx.acked
  {
    var k := TakenBytes(n, pdatalen);
    FlattenPush(tx.frames, NextOffer(tx).data[..k]);
    assert FramedBytes(tx) + [] == FramedBytes(tx);
  }

  // ------------------------------------------------------------------ ending

  /** A refused abort leaves the stream as it was; an accepted one only ends writing. */
  lemma AbortIsExact(s: StreamState, accepted: bool)
    ensures var t := MarkAborted(s, accepted);
            && (!accepted ==> t == s)
            && (accepted ==> t.reset && !Open(t) && t == s.(reset := true))
  {
  }

  /** No step touches the side of the stream it does not belong to. */
  lemma SidesAreApart(s: StreamState, e: StreamEvent)
    requires Inv(s) && Legal(s, e)
    ensures var r := Apply(s, e);
            && (!e.Received? && !e.ReadSome? ==> r.rx == s.rx)
            && (e.Received? || e.ReadSome? || e.Abort? || e.PeerReset? || e.Closed? ==> r.tx == s.tx)
            && (e.Framed? || e.Acked? ==> r.tx.writes == s.tx.writes && r.tx.fin == s.tx.fin)
            && (!e.Framed? ==> r.tx.frames == s.tx.frames && r.tx.sent == s.tx.sent
                               && r.tx.finFramed == s.tx.finFramed
                               && r.tx.finFlushed == s.tx.finFlushed)
  {
  }

  // -------------------------------------------------------------------- runs

  predicate BringsFin(e: StreamEvent) { e.Received? && e.fin }
  predicate EndsSending(e: StreamEvent) { e.PeerReset? || (e.Abort? && e.accepted) }

  predicate FinArrives(es: seq<StreamEvent>) { exists i :: 0 <= i < |es| && BringsFin(es[i]) }
  predicate ResetIn(es: seq<StreamEvent>) { exists i :: 0 <= i < |es| && EndsSending(es[i]) }
  predicate ClosedIn(es: seq<StreamEvent>) { exists i :: 0 <= i < |es| && es[i].Closed? }
  predicate DataArrives(es: seq<StreamEvent>) { exists i :: 0 <= i < |es| && es[i].Received? }

  function AckedIn(es: seq<StreamEvent>): nat {
    if es == [] then 0 else (if es[0].Acked? then es[0].datalen else 0) + AckedIn(es[1..])
  }

  // The step is a call that queues the FIN.
  predicate QueuesFin(s: StreamState, e: StreamEvent) {
    Open(s) && match e
               case Write(_, fin) => fin
               case WriteSome(data, fin, window) => fin && |data| <= window
               case FinishWrite => true
               case _ => false
  }

  // The step is an answer of ngtcp2 that takes the FIN.
  predicate FlushesFin(s: StreamState, e: StreamEvent) {
    e.Framed? && HasWork(s.tx) && TakesFin(NextOffer(s.tx), e.n, e.pdatalen)
  }

  predicate FinQueuedIn(s: StreamState, es: seq<StreamEvent>)
    requires Inv(s) && LegalRun(s, es)
    decreases |es|
  {
    es != [] && (QueuesFin(s, es[0]) || FinQueuedIn(Apply(s, es[0]), es[1..]))
  }

  predicate FinFlushedIn(s: StreamState, es: seq<StreamEvent>)
    requires Inv(s) && LegalRun(s, es)
    decreases |es|
  {
    es != [] && (FlushesFin(s, es[0]) || FinFlushedIn(Apply(s, es[0]), es[1..]))
  }

  /** Each mark of a stream has exactly one kind of cause. */
  lemma MarksOfStep(s: StreamState, e: StreamEvent)
    requires Inv(s) && Legal(s, e)
    ensures var r := Apply(s, e);
            && r.id == s.id
            && (r.reset <==> s.reset || EndsSending(e))
            && (r.closed <==> s.closed || e.Closed?)
            && (r.acceptQueued <==> s.acceptQueued || (e.Received? && s.id % 2 == 1))
  {
  }

  lemma FinOfStep(s: StreamState, e: StreamEvent)
    requires Inv(s) && Legal(s, e)
    ensures Apply(s, e).rx.fin <==> s.rx.fin || BringsFin(e)
  {
  }

  lemma FinQueuedByStep(s: StreamState, e: StreamEvent)
    requires Inv(s) && Legal(s, e)
    ensures Apply(s, e).tx.fin <==> s.tx.fin || QueuesFin(s, e)
  {
    match e
    case Write(data, fin) => WriteIsExact(s, data, fin);
    case WriteSome(data, fin, window) => WriteNonblockIsExact(s, data, fin, window);
    case FinishWrite => CloseWriteIsExact(s);
    case _ => SidesAreApart(s, e);
  }

  lemma FinFlushedByStep(s: StreamState, e: StreamEvent)
    requires Inv(s) && Legal(s, e)
    ensures Apply(s, e).tx.finFlushed <==> s.tx.finFlushed || FlushesFin(s, e)
  {
    match e
    case Framed(n, pdatalen) => AccountIsExact(s.tx, n, pdatalen);
    case _ => SidesAreApart(s, e);
  }

  lemma AckedByStep(s: StreamState, e: StreamEvent)
    requires Inv(s) && Legal(s, e)
    ensures Apply(s, e).tx.acked == s.tx.acked + if e.Acked? then e.datalen else 0
  {
  }

  lemma MarksOfTail(es: seq<StreamEvent>)
    requires es != []
    ensures FinArrives(es) <==> BringsFin(es[0]) || FinArrives(es[1..])
    ensures ResetIn(es) <==> EndsSending(es[0]) || ResetIn(es[1..])
    ensures ClosedIn(es) <==> es[0].Closed? || ClosedIn(es[1..])
    ensures DataArrives(es) <==> es[0].Received? || DataArrives(es[1..])
  {
    forall i | 0 <= i < |es| - 1 ensures es[1..][i] == es[i + 1] { }
    forall i | 1 <= i < |es| ensures es[i] == es[1..][i - 1] { }
  }

  /** Over every run: a FIN that arrives is recorded, and none is made up; so are
      resets, closes and the first data of a server stream. */
  lemma {:induction false} MarksOfRun(s: StreamState, es: seq<StreamEvent>)
    requires Inv(s) && LegalRun(s, es)
    ensures var r := Run(s, es);
            && r.id == s.id
            && (r.reset <==> s.reset || ResetIn(es))
            && (r.closed <==> s.closed || ClosedIn(es))
            && (r.rx.fin <==> s.rx.fin || FinArrives(es))
            && (r.acceptQueued <==> s.acceptQueued || (DataArrives(es) && s.id % 2 == 1))
    decreases |es|
  {
    if es != [] {
      MarksOfStep(s, es[0]);
      FinOfStep(s, es[0]);
      MarksOfTail(es);
      MarksOfRun(Apply(s, es[0]), es[1..]);
    }
  }

  /** Over every run: the FIN is queued exactly when an open stream was asked for it
      and took all data, and flushed exactly when ngtcp2 took it; `acked` is the sum
      of all acknowledgements. */
  lemma {:induction false} SendMarksOfRun(s: StreamState, es: seq<StreamEvent>)
    requires Inv(s) && LegalRun(s, es)
    ensures var r := Run(s, es).tx;
            && (r.fin <==> s.tx.fin || FinQueuedIn(s, es))
            && (r.finFlushed <==> s.tx.finFlushed || FinFlushedIn(s, es))
            && r.acked == s.tx.acked + AckedIn(es)
    decreases |es|
  {
    if es != [] {
      FinQueuedByStep(s, es[0]);
      FinFlushedByStep(s, es[0]);
      AckedByStep(s, es[0]);
      SendMarksOfRun(Apply(s, es[0]), es[1..]);
    }
  }

  /** A new stream can be written to and has nothing to send or to read. */
  lemma FreshIsOpen(id: int)
    ensures var s := Fresh(id);
            && Inv(s) && Open(s) && !HasWork(s.tx) && !s.hasErrorCode && !s.rx.fin && !s.acceptQueued
            && Accepted(s.tx) == [] && s.rx.received == [] && s.tx.acked == 0
  {
  }
}
