/** A client connection as a state machine over any number of streams. */
module ClientModel {
  import opened Bytes
  import opened StreamModel
  import opened StreamAnswers
  import opened RubyHash

  // Streams are numbered in creation order; the number is the object's identity,
  // which outlives its place in the registry.
  datatype Connection = Connection(
    streams: seq<StreamState>,
    registry: Hash<nat>,
    acceptQueue: seq<nat>,
    taken: seq<nat>,         // what accept_stream handed out so far
    arrivals: seq<nat>)      // one entry per receive callback on a server stream

  function NewClient(): Connection { Connection([], Hash([], map[]), [], [], []) }

  predicate ServerId(id: int) { id % 2 == 1 }

  datatype Event =
    | Open(id: int)                       // open_bidi_stream, open_uni_stream
    | PeerOpen(id: int)
    | PeerData(id: int, data: seq<byte>, fin: bool)
    | PeerAck(id: int, datalen: nat)
    | PeerReset(id: int, code: nat)
    | StreamClose(id: int, hasCode: bool, code: nat)
    | WritePkt(n: int, pdatalen: int)
    | Accept                              // accept_stream_nonblock
    | Call(h: nat, call: StreamEvent)     // a method of stream object h

  /** Distinct elements in order of their first occurrence. */
  function Dedup(s: seq<nat>): (d: seq<nat>)
    ensures forall x :: x in d <==> x in s
  {
    if s == [] then []
    else
      var rest, last := s[..|s| - 1], s[|s| - 1];
      assert s == rest + [last];
      if last in rest then Dedup(rest) else Dedup(rest) + [last]
  }

  ghost predicate RegistryInv(streams: seq<StreamState>, registry: Hash<nat>) {
    && registry.Valid()
    && (forall k :: k in registry.table ==>
          registry.table[k] < |streams| && streams[registry.table[k]].id == k
          && !streams[registry.table[k]].closed)
  }

  ghost predicate QueueInv(c: Connection) {
    && c.taken + c.acceptQueue == Dedup(c.arrivals)
    && (forall h :: h in c.arrivals ==> h < |c.streams| && ServerId(c.streams[h].id))
    && (forall h :: 0 <= h < |c.streams| ==> (c.streams[h].acceptQueued <==> h in c.arrivals))
  }

  ghost predicate ClientInv(c: Connection) {
    && (forall h :: 0 <= h < |c.streams| ==> Inv(c.streams[h]))
    && RegistryInv(c.streams, c.registry)
    && QueueInv(c)
  }

  type Conn = c: Connection | ClientInv(c) witness NewClient()

  // ---------------------------------------------------------------- sending

  predicate Ready(streams: seq<StreamState>, table: map<int, nat>, k: int) {
    k in table && table[k] < |streams| && HasWork(streams[table[k]].tx)
  }

  /** The first registered stream, in registry order, with something to send. */
  function FirstWithWork(streams: seq<StreamState>, keys: seq<int>, table: map<int, nat>): (r: Option<nat>)
    ensures r.Some? ==> r.value < |streams| && HasWork(streams[r.value].tx)
  {
    if keys == [] then None
    else if Ready(streams, table, keys[0]) then Some(table[keys[0]])
    else FirstWithWork(streams, keys[1..], table)
  }

  function Pick(c: Connection): (r: Option<nat>)
    ensures r.Some? ==> r.value < |c.streams| && HasWork(c.streams[r.value].tx)
  {
    FirstWithWork(c.streams, c.registry.keys, c.registry.table)
  }

  // ------------------------------------------------------------------- steps

  predicate IsCall(e: StreamEvent) {
    e.Write? || e.WriteSome? || e.FinishWrite? || e.ReadSome? || e.Abort?
  }

  /** The stream that an event acts on, and what it does to it. */
  function Target(c: Connection, e: Event): Option<(nat, StreamEvent)>
  {
    match e
    case PeerData(id, data, fin) => On(c, id, Received(data, fin))
    case PeerAck(id, datalen) => On(c, id, Acked(datalen))
    case PeerReset(id, code) => On(c, id, StreamEvent.PeerReset(code))
    case StreamClose(id, hasCode, code) => On(c, id, Closed(hasCode, code))
    case WritePkt(n, pdatalen) =>
      var p := Pick(c);
      if p.Some? then Some((p.value, Framed(n, pdatalen))) else None
    case Call(h, call) => Some((h, call))
    case _ => None
  }

  function On(c: Connection, id: int, e: StreamEvent): Option<(nat, StreamEvent)> {
    if id in c.registry.table then Some((c.registry.table[id], e)) else None
  }

  // The contract of ngtcp2 and of the callers, event by event.
  predicate LegalEvent(c: Connection, e: Event) {
    match e
    case PeerData(id, data, fin) => MayHappen(c, id, Received(data, fin))
    case PeerAck(id, datalen) => MayHappen(c, id, Acked(datalen))
    case WritePkt(n, pdatalen) =>
      var p := Pick(c);
      p.Some? ==> Legal(c.streams[p.value], Framed(n, pdatalen))
    case Call(h, call) => IsCall(call) && h < |c.streams| && Legal(c.streams[h], call)
    case _ => true
  }

  predicate MayHappen(c: Connection, id: int, e: StreamEvent) {
    id in c.registry.table ==>
      c.registry.table[id] < |c.streams| && Legal(c.streams[c.registry.table[id]], e)
  }

  ghost predicate CanTouch(c: Connection, h: nat, e: StreamEvent) {
    h < |c.streams| && Inv(c.streams[h]) && Legal(c.streams[h], e)
  }

  // The step `e` of the stream under `id`, if there is one.
  ghost predicate CanReach(c: Connection, id: int, e: StreamEvent) {
    id in c.registry.table ==> CanTouch(c, c.registry.table[id], e)
  }

  function Touch(c: Connection, h: nat, e: StreamEvent): Connection
    requires CanTouch(c, h, e)
  {
    Replace(c, h, Apply(c.streams[h], e))
  }

  function Replace(c: Connection, h: nat, s: StreamState): Connection
    requires h < |c.streams|
  {
    c.(streams := c.streams[h := s])
  }

  function Add(c: Connection, id: int): Connection {
    c.(streams := c.streams + [Fresh(id)], registry := c.registry.Store(id, |c.streams|))
  }

  function OpenForPeer(c: Connection, id: int): Connection {
    if id in c.registry.table then c else Add(c, id)
  }

  function AcceptNext(c: Connection): Connection {
    if c.acceptQueue == [] then c
    else c.(taken := c.taken + [c.acceptQueue[0]], acceptQueue := c.acceptQueue[1..])
  }

  function Arrive(c: Connection, h: nat): Connection
    requires h < |c.streams|
  {
    if !ServerId(c.streams[h].id) then c
    else c.(arrivals := c.arrivals + [h],
            acceptQueue := if c.streams[h].acceptQueued then c.acceptQueue else c.acceptQueue + [h])
  }

  function Deliver(c: Connection, id: int, data: seq<byte>, fin: bool): Connection
    requires CanReach(c, id, Received(data, fin))
  {
    if id !in c.registry.table then c
    else
      var h := c.registry.table[id];
      Touch(Arrive(c, h), h, Received(data, fin))
  }

  function Notify(c: Connection, id: int, e: StreamEvent): Connection
    requires CanReach(c, id, e)
  {
    if id in c.registry.table then Touch(c, c.registry.table[id], e) else c
  }

  function Forget(c: Connection, id: int, hasCode: bool, code: nat): Connection
    requires CanReach(c, id, Closed(hasCode, code))
  {
    if id !in c.registry.table then c
    else Touch(c, c.registry.table[id], Closed(hasCode, code)).(registry := c.registry.Delete(id))
  }

  // The operations on a registered stream, with the stream step spelled out.

  lemma AckOfKnown(c: Connection, id: int, datalen: nat)
    requires CanReach(c, id, Acked(datalen)) && id in c.registry.table
    ensures var h := c.registry.table[id];
            && h < |c.streams| && c.streams[h].tx.acked + datalen <= c.streams[h].tx.sent
            && Notify(c, id, Acked(datalen))
               == Replace(c, h, c.streams[h].(tx := Ack(c.streams[h].tx, datalen)))
  {
  }

  lemma ResetOfKnown(c: Connection, id: int, code: nat)
    requires CanReach(c, id, StreamEvent.PeerReset(code)) && id in c.registry.table
    ensures var h := c.registry.table[id];
            && h < |c.streams|
            && Notify(c, id, StreamEvent.PeerReset(code)) == Replace(c, h, MarkReset(c.streams[h], code))
  {
  }

  lemma CloseOfKnown(c: Connection, id: int, hasCode: bool, code: nat)
    requires CanReach(c, id, Closed(hasCode, code)) && id in c.registry.table
    ensures var h := c.registry.table[id];
            && h < |c.streams|
            && Forget(c, id, hasCode, code)
               == Replace(c, h, MarkClosed(c.streams[h], hasCode, code)).(registry := c.registry.Delete(id))
  {
  }

  lemma DataOfKnown(c: Connection, id: int, data: seq<byte>, fin: bool)
    requires CanReach(c, id, Received(data, fin)) && id in c.registry.table
    ensures var h := c.registry.table[id];
            && h < |c.streams| && |c.streams[h].rx.received| + |data| <= MAX_STREAM_OFFSET
            && Deliver(c, id, data, fin) == Replace(Arrive(c, h), h, Receive(c.streams[h], data, fin))
  {
  }

  ghost predicate CanSend(c: Connection, n: int, pdatalen: int) {
    Pick(c).Some? ==> CanTouch(c, Pick(c).value, Framed(n, pdatalen))
  }

  function Send(c: Connection, n: int, pdatalen: int): Connection
    requires CanSend(c, n, pdatalen)
  {
    if Pick(c).None? then c else Touch(c, Pick(c).value, Framed(n, pdatalen))
  }

  lemma SendOfPicked(c: Connection, n: int, pdatalen: int)
    requires CanSend(c, n, pdatalen) && Pick(c).Some?
    ensures var h := Pick(c).value;
            && LegalResponse(c.streams[h].tx, n, pdatalen)
            && Send(c, n, pdatalen) == Replace(c, h, c.streams[h].(tx := Account(c.streams[h].tx, n, pdatalen)))
  {
  }

  /** A write that ends in an error leaves all accounting as it was. */
  lemma FailedSendChangesNothing(c: Connection, n: int, pdatalen: int)
    requires CanSend(c, n, pdatalen) && n < 0
    ensures Send(c, n, pdatalen) == c
  {
    if Pick(c).Some? {
      var h := Pick(c).value;
      assert Apply(c.streams[h], Framed(n, pdatalen)) == c.streams[h];
    }
  }

  datatype Response = Response(n: int, pdatalen: int)

  /** The drain loop of pump_once: write packets until one comes out empty. */
  ghost predicate LegalDrain(c: Connection, rs: seq<Response>)
    decreases |rs|
  {
    rs == []
    || (CanSend(c, rs[0].n, rs[0].pdatalen)
        && (0 < rs[0].n ==> LegalDrain(Send(c, rs[0].n, rs[0].pdatalen), rs[1..])))
  }

  function Drain(c: Connection, rs: seq<Response>): Connection
    requires LegalDrain(c, rs)
    decreases |rs|
  {
    if rs == [] then c
    else
      var d := Send(c, rs[0].n, rs[0].pdatalen);
      if 0 < rs[0].n then Drain(d, rs[1..]) else d
  }

  lemma ReplaceKeepsInv(c: Conn, h: nat, s: StreamState)
    requires h < |c.streams| && Inv(s) && s.id == c.streams[h].id
    requires s.closed == c.streams[h].closed && s.acceptQueued == c.streams[h].acceptQueued
    ensures ClientInv(c.(streams := c.streams[h := s]))
  {
  }

  lemma TouchKeepsInv(c: Conn, h: nat, e: StreamEvent)
    requires h < |c.streams| && Legal(c.streams[h], e)
    requires !e.Closed? && !e.Received?
    ensures ClientInv(Touch(c, h, e))
  {
    MarksOfStep(c.streams[h], e);
    ReplaceKeepsInv(c, h, Apply(c.streams[h], e));
  }

  lemma NotifyKeepsInv(c: Conn, id: int, e: StreamEvent)
    requires CanReach(c, id, e) && !e.Closed? && !e.Received?
    ensures ClientInv(Notify(c, id, e))
  {
    if id in c.registry.table { TouchKeepsInv(c, c.registry.table[id], e); }
  }

  lemma RemoveKeepsRegistry(streams: seq<StreamState>, registry: Hash<nat>, id: int, s: StreamState)
    requires RegistryInv(streams, registry) && id in registry.table
    ensures RegistryInv(streams[registry.table[id] := s], registry.Delete(id))
  {
    DeleteIsValid(registry, id);
    forall k | k in registry.table && k != id ensures registry.table[k] != registry.table[id] {
      assert streams[registry.table[k]].id == k;
    }
  }

  lemma ReplaceKeepsQueue(c: Connection, h: nat, s: StreamState, registry: Hash<nat>)
    requires QueueInv(c) && h < |c.streams| && s.id == c.streams[h].id
    requires s.acceptQueued == c.streams[h].acceptQueued
    ensures QueueInv(c.(streams := c.streams[h := s], registry := registry))
  {
  }

  lemma RemoveKeepsInv(c: Conn, id: int, s: StreamState)
    requires id in c.registry.table && Inv(s) && s.id == id
    requires s.acceptQueued == c.streams[c.registry.table[id]].acceptQueued
    ensures ClientInv(c.(streams := c.streams[c.registry.table[id] := s], registry := c.registry.Delete(id)))
  {
    RemoveKeepsRegistry(c.streams, c.registry, id, s);
    ReplaceKeepsQueue(c, c.registry.table[id], s, c.registry.Delete(id));
  }

  lemma CloseKeepsInv(c: Conn, id: int, hasCode: bool, code: nat)
    ensures CanReach(c, id, Closed(hasCode, code)) && ClientInv(Forget(c, id, hasCode, code))
  {
    if id in c.registry.table {
      var s := c.streams[c.registry.table[id]];
      MarksOfStep(s, Closed(hasCode, code));
      RemoveKeepsInv(c, id, Apply(s, Closed(hasCode, code)));
    }
  }

  lemma AddKeepsInv(c: Conn, id: int)
    ensures ClientInv(Add(c, id))
  {
    StoreIsValid(c.registry, id, |c.streams|);
  }

  lemma DedupPush(s: seq<nat>, h: nat)
    ensures Dedup(s + [h]) == if h in s then Dedup(s) else Dedup(s) + [h]
  {
    assert (s + [h])[..|s|] == s;
  }

  /** The first data of a server stream puts it last in the accept queue; more
      data leaves the queue alone. */
  lemma DataKeepsQueue(c: Conn, h: nat, s: StreamState)
    requires h < |c.streams| && s.id == c.streams[h].id
    requires s.acceptQueued == (c.streams[h].acceptQueued || ServerId(s.id))
    ensures QueueInv(Arrive(c, h).(streams := c.streams[h := s]))
  {
    DedupPush(c.arrivals, h);
    Associate(c.taken, c.acceptQueue, [h]);
  }

  lemma DataKeepsInv(c: Conn, h: nat, e: StreamEvent)
    requires h < |c.streams| && e.Received? && Legal(c.streams[h], e)
    ensures ClientInv(Touch(Arrive(c, h), h, e))
  {
    var s := Apply(c.streams[h], e);
    MarksOfStep(c.streams[h], e);
    DataKeepsQueue(c, h, s);
    ReplaceKeepsInv(c, h, s.(acceptQueued := c.streams[h].acceptQueued));
  }

  lemma AcceptKeepsInv(c: Conn)
    ensures ClientInv(AcceptNext(c))
  {
    if c.acceptQueue != [] {
      assert c.taken + [c.acceptQueue[0]] + c.acceptQueue[1..] == c.taken + c.acceptQueue;
    }
  }

  /** What the client does on each event; the class methods of Client are proved
      to perform these operations. */
  function Operate(c: Connection, e: Event): Connection
    requires CanOperate(c, e)
  {
    match e
    case Open(id) => Add(c, id)
    case PeerOpen(id) => OpenForPeer(c, id)
    case PeerData(id, data, fin) => Deliver(c, id, data, fin)
    case PeerAck(id, datalen) => Notify(c, id, Acked(datalen))
    case PeerReset(id, code) => Notify(c, id, StreamEvent.PeerReset(code))
    case StreamClose(id, hasCode, code) => Forget(c, id, hasCode, code)
    case WritePkt(n, pdatalen) => Send(c, n, pdatalen)
    case Accept => AcceptNext(c)
    case Call(h, call) => Touch(c, h, call)
  }

  ghost predicate CanOperate(c: Connection, e: Event) {
    match e
    case PeerData(id, data, fin) => CanReach(c, id, Received(data, fin))
    case PeerAck(id, datalen) => CanReach(c, id, Acked(datalen))
    case PeerReset(id, code) => CanReach(c, id, StreamEvent.PeerReset(code))
    case StreamClose(id, hasCode, code) => CanReach(c, id, Closed(hasCode, code))
    case WritePkt(n, pdatalen) => CanSend(c, n, pdatalen)
    case Call(h, call) => CanTouch(c, h, call)
    case _ => true
  }

  /** In a state of a legal run a legal event can be handled, and the invariant
      survives it. */
  lemma OperateKeepsInv(c: Conn, e: Event)
    requires LegalEvent(c, e)
    ensures CanOperate(c, e) && ClientInv(Operate(c, e))
  {
    match e
    case Open(id) =>
      AddKeepsInv(c, id);
      assert ClientInv(Operate(c, e));
    case PeerOpen(id) =>
      AddKeepsInv(c, id);
      assert ClientInv(Operate(c, e));
    case PeerData(id, data, fin) =>
      if id in c.registry.table { DataKeepsInv(c, c.registry.table[id], Received(data, fin)); }
      assert ClientInv(Operate(c, e));
    case PeerAck(id, datalen) =>
      NotifyKeepsInv(c, id, Acked(datalen));
      assert ClientInv(Operate(c, e));
    case PeerReset(id, code) =>
      NotifyKeepsInv(c, id, StreamEvent.PeerReset(code));
      assert ClientInv(Operate(c, e));
    case StreamClose(id, hasCode, code) =>
      CloseKeepsInv(c, id, hasCode, code);
      assert ClientInv(Operate(c, e));
    case WritePkt(n, pdatalen) =>
      if Pick(c).Some? { TouchKeepsInv(c, Pick(c).value, Framed(n, pdatalen)); }
      assert ClientInv(Operate(c, e));
    case Accept =>
      AcceptKeepsInv(c);
      assert ClientInv(Operate(c, e));
    case Call(h, call) =>
      TouchKeepsInv(c, h, call);
      assert ClientInv(Operate(c, e));
  }

  /** One step of a run. */
  function Step(c: Conn, e: Event): (r: Connection)
    requires LegalEvent(c, e)
    ensures ClientInv(r)
  {
    OperateKeepsInv(c, e);
    Operate(c, e)
  }

  predicate LegalEvents(c: Conn, es: seq<Event>)
    decreases |es|
  {
    es == [] || (LegalEvent(c, es[0]) && LegalEvents(Step(c, es[0]), es[1..]))
  }

  function Steps(c: Conn, es: seq<Event>): (r: Connection)
    requires LegalEvents(c, es)
    ensures ClientInv(r)
    decreases |es|
  {
    if es == [] then c else Steps(Step(c, es[0]), es[1..])
  }

  lemma RunHead(c: Conn, e: Event, es: seq<Event>)
    requires LegalEvent(c, e)
    ensures LegalEvents(c, [e] + es) <==> LegalEvents(Step(c, e), es)
    ensures LegalEvents(Step(c, e), es) ==> Steps(c, [e] + es) == Steps(Step(c, e), es)
  {
    assert ([e] + es)[1..] == es;
  }

  /** A legal run goes on with any event that is legal in its last state. */
  lemma {:induction false} RunOneMore(c: Conn, es: seq<Event>, e: Event)
    requires LegalEvents(c, es) && LegalEvent(Steps(c, es), e)
    ensures LegalEvents(c, es + [e]) && Steps(c, es + [e]) == Step(Steps(c, es), e)
    decreases |es|
  {
    if es == [] {
      assert es + [e] == [e] + [];
      RunHead(c, e, []);
    } else {
      var d, tail := Step(c, es[0]), es[1..];
      RunOneMore(d, tail, e);
      RunHead(c, es[0], tail + [e]);
      assert es + [e] == [es[0]] + (tail + [e]);
    }
  }

  function DrainEvents(rs: seq<Response>): seq<Event> {
    if rs == [] then []
    else [WritePkt(rs[0].n, rs[0].pdatalen)] + if 0 < rs[0].n then DrainEvents(rs[1..]) else []
  }
}
