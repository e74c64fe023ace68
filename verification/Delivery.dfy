/** One stream's send side joined to another's receive side by an ideal pipe. */
module Delivery {
  import opened Bytes
  import opened StreamModel
  import opened StreamAnswers
  import opened StreamTheorems

  datatype Link = Link(from: StreamState, to: StreamState)

  datatype LinkEvent =
    | AtSender(e: StreamEvent)
    | AtReceiver(e: StreamEvent)
    | Carry(count: nat, fin: bool)  // the next framed bytes arrive, with the FIN or without

  /** Bytes arrive in order, and only as far as they were framed; the FIN arrives
      only if it was framed, and with or after the last byte. */
  ghost predicate LinkInv(l: Link) {
    && Inv(l.from) && Inv(l.to)
    && l.to.rx.received <= FramedBytes(l.from.tx)
    && (l.to.rx.fin ==> l.from.tx.finFramed && l.to.rx.received == FramedBytes(l.from.tx))
  }

  function Next(l: Link, count: nat): seq<byte>
    requires |l.to.rx.received| + count <= |FramedBytes(l.from.tx)|
  {
    FramedBytes(l.from.tx)[|l.to.rx.received|..|l.to.rx.received| + count]
  }

  predicate LegalLink(l: Link, e: LinkEvent) {
    match e
    case AtSender(e) => Legal(l.from, e)
    case AtReceiver(e) => !e.Received? && Legal(l.to, e)
    case Carry(count, fin) =>
      var end := |l.to.rx.received| + count;
      end <= |FramedBytes(l.from.tx)| && (fin ==> l.from.tx.finFramed && end == |FramedBytes(l.from.tx)|)
  }

  /** The pipe keeps the contract that the receive callback relies on. */
  lemma CarryIsLegal(l: Link, count: nat, fin: bool)
    requires LinkInv(l) && LegalLink(l, Carry(count, fin))
    ensures Legal(l.to, Received(Next(l, count), fin))
  {
  }

  lemma SenderKeepsLink(l: Link, e: StreamEvent)
    requires LinkInv(l) && Legal(l.from, e)
    ensures LinkInv(l.(from := Apply(l.from, e)))
  {
    StepGrows(l.from, e);
    StepMatchesLog(l.from, e);
  }

  lemma ReceiverKeepsLink(l: Link, e: StreamEvent)
    requires LinkInv(l) && !e.Received? && Legal(l.to, e)
    ensures LinkInv(l.(to := Apply(l.to, e)))
  {
    assert Apply(l.to, e).rx.received == l.to.rx.received && Apply(l.to, e).rx.fin == l.to.rx.fin;
  }

  function LinkStep(l: Link, e: LinkEvent): (r: Link)
    requires LinkInv(l) && LegalLink(l, e)
    ensures LinkInv(r)
  {
    match e
    case AtSender(e) =>
      SenderKeepsLink(l, e);
      l.(from := Apply(l.from, e))
    case AtReceiver(e) =>
      ReceiverKeepsLink(l, e);
      l.(to := Apply(l.to, e))
    case Carry(count, fin) =>
      CarryIsLegal(l, count, fin);
      l.(to := Apply(l.to, Received(Next(l, count), fin)))
  }

  predicate LegalLinkRun(l: Link, es: seq<LinkEvent>)
    requires LinkInv(l)
    decreases |es|
  {
    es == [] || (LegalLink(l, es[0]) && LegalLinkRun(LinkStep(l, es[0]), es[1..]))
  }

  function LinkRun(l: Link, es: seq<LinkEvent>): (r: Link)
    requires LinkInv(l) && LegalLinkRun(l, es)
    ensures LinkInv(r)
    decreases |es|
  {
    if es == [] then l else LinkRun(LinkStep(l, es[0]), es[1..])
  }

  // What the write calls at the sender report as queued in one step.
  function Written(l: Link, e: LinkEvent): seq<byte>
    requires LinkInv(l) && LegalLink(l, e)
  {
    if e.AtSender? then Observed(l.from, e.e).accepted else []
  }

  // What the read calls at the receiver return in one step.
  function Obtained(l: Link, e: LinkEvent): seq<byte>
    requires LinkInv(l) && LegalLink(l, e)
  {
    if e.AtReceiver? then Observed(l.to, e.e).delivered else []
  }

  function WrittenIn(l: Link, es: seq<LinkEvent>): seq<byte>
    requires LinkInv(l) && LegalLinkRun(l, es)
    decreases |es|
  {
    if es == [] then [] else Written(l, es[0]) + WrittenIn(LinkStep(l, es[0]), es[1..])
  }

  function ObtainedIn(l: Link, es: seq<LinkEvent>): seq<byte>
    requires LinkInv(l) && LegalLinkRun(l, es)
    decreases |es|
  {
    if es == [] then [] else Obtained(l, es[0]) + ObtainedIn(LinkStep(l, es[0]), es[1..])
  }

  lemma LinkStepTraces(l: Link, e: LinkEvent)
    requires LinkInv(l) && LegalLink(l, e)
    ensures Accepted(LinkStep(l, e).from.tx) == Accepted(l.from.tx) + Written(l, e)
    ensures LinkStep(l, e).to.rx.delivered == l.to.rx.delivered + Obtained(l, e)
  {
    match e
    case AtSender(e) => StepMatchesLog(l.from, e);
    case AtReceiver(e) => StepMatchesLog(l.to, e);
    case Carry(count, fin) => StepMatchesLog(l.to, Received(Next(l, count), fin));
  }

  lemma {:induction false} LinkRunTraces(l: Link, es: seq<LinkEvent>)
    requires LinkInv(l) && LegalLinkRun(l, es)
    ensures Accepted(LinkRun(l, es).from.tx) == Accepted(l.from.tx) + WrittenIn(l, es)
    ensures LinkRun(l, es).to.rx.delivered == l.to.rx.delivered + ObtainedIn(l, es)
    decreases |es|
  {
    if es != [] {
      var m := LinkStep(l, es[0]);
      LinkStepTraces(l, es[0]);
      LinkRunTraces(m, es[1..]);
      Associate(Accepted(l.from.tx), Written(l, es[0]), WrittenIn(m, es[1..]));
      Associate(l.to.rx.delivered, Obtained(l, es[0]), ObtainedIn(m, es[1..]));
    }
  }

  predicate FinCarried(es: seq<LinkEvent>) { exists i :: 0 <= i < |es| && es[i].Carry? && es[i].fin }

  lemma FinCarriedTail(es: seq<LinkEvent>)
    requires es != []
    ensures FinCarried(es) <==> (es[0].Carry? && es[0].fin) || FinCarried(es[1..])
  {
    forall i | 0 <= i < |es| - 1 ensures es[1..][i] == es[i + 1] { }
    forall i | 1 <= i < |es| ensures es[i] == es[1..][i - 1] { }
  }

  lemma FinOfLinkStep(l: Link, e: LinkEvent)
    requires LinkInv(l) && LegalLink(l, e)
    ensures LinkStep(l, e).to.rx.fin <==> l.to.rx.fin || (e.Carry? && e.fin)
  {
    match e
    case AtSender(_) =>
    case AtReceiver(e) => FinOfStep(l.to, e);
    case Carry(count, fin) => FinOfStep(l.to, Received(Next(l, count), fin));
  }

  /** The receiver has the FIN exactly when the pipe brought it. */
  lemma {:induction false} FinArrivesOnce(l: Link, es: seq<LinkEvent>)
    requires LinkInv(l) && LegalLinkRun(l, es)
    ensures LinkRun(l, es).to.rx.fin <==> l.to.rx.fin || FinCarried(es)
    decreases |es|
  {
    if es != [] {
      FinOfLinkStep(l, es[0]);
      FinCarriedTail(es);
      FinArrivesOnce(LinkStep(l, es[0]), es[1..]);
    }
  }

  lemma ReaderSeesPrefix(l: Link, length: nat)
    requires LinkInv(l)
    ensures l.to.rx.delivered <= Accepted(l.from.tx)
    ensures var eof := Read(l.to.rx, length).1.EndOfFile?;
            && (eof <==> l.to.rx.fin && l.to.rx.delivered == Accepted(l.from.tx))
            && (eof ==> l.from.tx.fin && l.from.tx.sent == |Accepted(l.from.tx)|)
  {
    ReadIsExact(l.to.rx, length);
  }

  lemma FreshLinkTraces(a: int, b: int, es: seq<LinkEvent>)
    requires LegalLinkRun(Link(Fresh(a), Fresh(b)), es)
    ensures var start := Link(Fresh(a), Fresh(b));
            && Accepted(LinkRun(start, es).from.tx) == WrittenIn(start, es)
            && LinkRun(start, es).to.rx.delivered == ObtainedIn(start, es)
  {
    var start := Link(Fresh(a), Fresh(b));
    LinkRunTraces(start, es);
    assert [] + WrittenIn(start, es) == WrittenIn(start, es);
    assert [] + ObtainedIn(start, es) == ObtainedIn(start, es);
  }

  /** End to end, in every interleaving of writes, partial frames, acks, receives
      and reads: the bytes read are a prefix of the bytes that write accepted, and
      a read raises EOF exactly when the pipe brought the FIN and all of them were
      read, after which none can be added. */
  lemma EndToEnd(a: int, b: int, es: seq<LinkEvent>, length: nat)
    requires LegalLinkRun(Link(Fresh(a), Fresh(b)), es)
    ensures var start := Link(Fresh(a), Fresh(b));
            var l, written, obtained := LinkRun(start, es), WrittenIn(start, es), ObtainedIn(start, es);
            && obtained <= written
            && (Read(l.to.rx, length).1.EndOfFile? <==> FinCarried(es) && obtained == written)
            && (Read(l.to.rx, length).1.EndOfFile? ==> l.from.tx.fin && l.from.tx.sent == |written|)
  {
    var start := Link(Fresh(a), Fresh(b));
    FreshLinkTraces(a, b, es);
    FinArrivesOnce(start, es);
    ReaderSeesPrefix(LinkRun(start, es), length);
  }
}
