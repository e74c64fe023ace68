/** What holds of a whole connection, over every run and for every stream in it. */
module ClientTheorems {
  import opened Bytes
  import opened StreamModel
  import opened StreamAnswers
  import opened StreamTheorems
  import opened RubyHash
  import opened ClientModel

  // --------------------------------------------------------------- selection

  ghost predicate FirstReady(streams: seq<StreamState>, keys: seq<int>, table: map<int, nat>, i: int) {
    && 0 <= i < |keys| && Ready(streams, table, keys[i])
    && forall j :: 0 <= j < i ==> !Ready(streams, table, keys[j])
  }

  lemma {:induction false} FirstWithWorkIsExact(streams: seq<StreamState>, keys: seq<int>, table: map<int, nat>)
    ensures var r := FirstWithWork(streams, keys, table);
            && (r.None? <==> forall k :: k in keys ==> !Ready(streams, table, k))
            && (r.Some? ==> exists i :: FirstReady(streams, keys, table, i) && r.value == table[keys[i]])
  {
    if keys != [] {
      var rest := keys[1..];
      FirstWithWorkIsExact(streams, rest, table);
      assert forall k :: k in keys <==> k == keys[0] || k in rest;
      var r := FirstWithWork(streams, keys, table);
      if Ready(streams, table, keys[0]) {
        assert FirstReady(streams, keys, table, 0);
      } else if r.Some? {
        var i :| FirstReady(streams, rest, table, i) && r.value == table[rest[i]];
        assert FirstReady(streams, keys, table, i + 1);
      }
    }
  }

  /** Pick finds nothing exactly when no registered stream has unsent bytes or an
      unflushed FIN; otherwise it finds the first such stream in registry order. */
  lemma PickIsExact(c: Conn)
    ensures Pick(c).None? <==> forall k :: k in c.registry.table ==> !HasWork(c.streams[c.registry.table[k]].tx)
    ensures Pick(c).Some? ==> exists i :: FirstReady(c.streams, c.registry.keys, c.registry.table, i)
                                          && Pick(c).value == c.registry.table[c.registry.keys[i]]
  {
    FirstWithWorkIsExact(c.streams, c.registry.keys, c.registry.table);
    assert forall k :: k in c.registry.table ==>
             (Ready(c.streams, c.registry.table, k) <==> HasWork(c.streams[c.registry.table[k]].tx));
  }

  // --------------------------------------------------- registry and isolation

  /** A step changes at most the stream it targets, and that one by one legal
      stream step; a new stream is fresh and comes last. */
  lemma StepIsIsolated(c: Conn, e: Event)
    requires LegalEvent(c, e)
    ensures var d, t := Step(c, e), Target(c, e);
            && |c.streams| <= |d.streams| <= |c.streams| + 1
            && (forall g :: 0 <= g < |c.streams| ==>
                  d.streams[g] == if t.Some? && t.value.0 == g then Apply(c.streams[g], t.value.1) else c.streams[g])
            && (|c.streams| < |d.streams| ==> d.streams[|c.streams|] == Fresh(d.streams[|c.streams|].id))
  {
    var d, t := Step(c, e), Target(c, e);
    if t.Some? {
      assert d.streams == c.streams[t.value.0 := Apply(c.streams[t.value.0], t.value.1)];
    } else if e.Open? || (e.PeerOpen? && e.id !in c.registry.table) {
      assert d.streams == c.streams + [Fresh(e.id)];
    } else {
      assert d.streams == c.streams;
    }
  }

  /** Callbacks for ids that are not registered, and a second open of a known
      id, change nothing at all. */
  lemma UnknownIdsAreIgnored(c: Conn, e: Event)
    requires match e
             case PeerData(id, _, _) => id !in c.registry.table
             case PeerAck(id, _) => id !in c.registry.table
             case PeerReset(id, _) => id !in c.registry.table
             case StreamClose(id, _, _) => id !in c.registry.table
             case PeerOpen(id) => id in c.registry.table
             case _ => false
    ensures LegalEvent(c, e) && Step(c, e) == c
  {
  }

  /** The open methods store without looking first: every registered stream
      stays registered exactly when the id they were given is a new one. */
  lemma OpenKeepsRegistered(c: Conn, id: int)
    ensures var before, after := c.registry.table, Step(c, Open(id)).registry.table;
            && (forall k :: k in before && k != id ==> k in after && after[k] == before[k])
            && ((forall k :: k in before ==> k in after && after[k] == before[k]) <==> id !in before)
            && id in after && Step(c, Open(id)).streams[after[id]] == Fresh(id)
  {
    if id in c.registry.table {
      assert Step(c, Open(id)).registry.table[id] == |c.streams|;
    }
  }

  /** Each callback reaches the stream registered under its id with all that it
      brings: data and FIN, the acknowledged length, the error code. */
  lemma CallbacksReachTheStream(c: Conn, e: Event)
    requires LegalEvent(c, e) && (e.PeerData? || e.PeerAck? || e.PeerReset? || e.StreamClose?)
    requires e.id in c.registry.table
    ensures var h := c.registry.table[e.id];
            var s, t := c.streams[h], Step(c, e).streams[h];
            match e
            case PeerData(_, data, fin) =>
              && t.rx.received == s.rx.received + data && t.rx.delivered == s.rx.delivered
              && (t.rx.fin <==> s.rx.fin || fin) && t.tx == s.tx
            case PeerAck(_, datalen) =>
              t == s.(tx := s.tx.(acked := t.tx.acked)) && t.tx.acked == s.tx.acked + datalen
            case PeerReset(_, code) =>
              t.reset && t.hasErrorCode && t.errorCode == code && t.closed == s.closed && t.tx == s.tx && t.rx == s.rx
            case StreamClose(_, hasCode, code) =>
              && t.closed && t.reset == s.reset && t.tx == s.tx && t.rx == s.rx
              && t.hasErrorCode == (s.hasErrorCode || hasCode)
              && t.errorCode == if hasCode then code else s.errorCode
  {
    var h := c.registry.table[e.id];
    StepIsIsolated(c, e);
    FinOfStep(c.streams[h], Target(c, e).value.1);
  }

  /** Closing takes one stream out of the registry and keeps the others, and the
      order in which they are scanned. */
  lemma CloseKeepsOrder(c: Conn, i: nat, hasCode: bool, code: nat)
    requires i < |c.registry.keys|
    ensures var before, id := c.registry, c.registry.keys[i];
            var after := Step(c, StreamClose(id, hasCode, code)).registry;
            && after.keys == before.keys[..i] + before.keys[i + 1..]
            && id !in after.table
            && (forall k :: k in before.table && k != id ==> k in after.table && after.table[k] == before.table[k])
  {
    DeleteIsExact(c.registry, i);
    RegistryOfStep(c, StreamClose(c.registry.keys[i], hasCode, code));
  }

  /** Every stream that is not closed is registered under its id. */
  ghost predicate NoneLost(c: Connection) {
    forall h :: 0 <= h < |c.streams| ==>
      var s := c.streams[h];
      s.closed || (s.id in c.registry.table && c.registry.table[s.id] == h)
  }

  lemma RegistryOfStep(c: Conn, e: Event)
    requires LegalEvent(c, e)
    ensures Step(c, e).registry == match e
                                   case Open(id) => c.registry.Store(id, |c.streams|)
                                   case PeerOpen(id) =>
                                     if id in c.registry.table then c.registry else c.registry.Store(id, |c.streams|)
                                   case StreamClose(id, _, _) =>
                                     if id in c.registry.table then c.registry.Delete(id) else c.registry
                                   case _ => c.registry
  {
  }

  lemma ReplaceLosesNone(c: Conn, h: nat, s: StreamState, registry: Hash<nat>)
    requires NoneLost(c) && h < |c.streams| && s.id == c.streams[h].id
    requires if s.closed && s.id in c.registry.table && c.registry.table[s.id] == h
             then registry == c.registry || registry == c.registry.Delete(s.id)
             else registry == c.registry && s.closed == c.streams[h].closed
    ensures NoneLost(c.(streams := c.streams[h := s], registry := registry))
  {
  }

  lemma TouchLosesNone(c: Conn, e: Event)
    requires LegalEvent(c, e) && NoneLost(c) && Target(c, e).Some?
    ensures NoneLost(Step(c, e))
  {
    var d, t := Step(c, e), Target(c, e).value;
    MarksOfStep(c.streams[t.0], t.1);
    StepIsIsolated(c, e);
    RegistryOfStep(c, e);
    assert d.streams == c.streams[t.0 := Apply(c.streams[t.0], t.1)];
    ReplaceLosesNone(c, t.0, Apply(c.streams[t.0], t.1), d.registry);
  }

  /** A step loses a stream exactly when an open method is given a registered id. */
  lemma StepLosesNone(c: Conn, e: Event)
    requires LegalEvent(c, e) && NoneLost(c)
    ensures NoneLost(Step(c, e)) <==> !(e.Open? && e.id in c.registry.table)
  {
    var d := Step(c, e);
    if Target(c, e).Some? {
      TouchLosesNone(c, e);
    } else if e.Open? && e.id in c.registry.table {
      var h := c.registry.table[e.id];
      assert d.streams[h] == c.streams[h] && d.registry.table[e.id] == |c.streams|;
    } else {
      assert NoneLost(d);
    }
  }

  predicate OpensNewIds(c: Conn, es: seq<Event>)
    requires LegalEvents(c, es)
    decreases |es|
  {
    es == [] || (!(es[0].Open? && es[0].id in c.registry.table) && OpensNewIds(Step(c, es[0]), es[1..]))
  }

  lemma {:induction false} RunLosesNone(c: Conn, es: seq<Event>)
    requires LegalEvents(c, es) && OpensNewIds(c, es) && NoneLost(c)
    ensures NoneLost(Steps(c, es))
    decreases |es|
  {
    if es != [] {
      StepLosesNone(c, es[0]);
      RunLosesNone(Step(c, es[0]), es[1..]);
    }
  }

  /** When open methods get new ids only, the registry holds exactly the streams
      that are not closed, and pick overlooks none of them, in every run. */
  lemma NoStreamIsOverlooked(es: seq<Event>)
    requires LegalEvents(NewClient(), es) && OpensNewIds(NewClient(), es)
    ensures var c := Steps(NewClient(), es);
            && NoneLost(c)
            && (Pick(c).None? <==>
                  forall h :: 0 <= h < |c.streams| && !c.streams[h].closed ==> !HasWork(c.streams[h].tx))
  {
    RunLosesNone(NewClient(), es);
    PickIsExact(Steps(NewClient(), es));
  }

  // ---------------------------------------------------------- registry order

  predicate Sending(s: StreamState) { !s.closed && HasWork(s.tx) }

  // The ids of the streams from number `from` on that are not closed, oldest first.
  function OpenIds(streams: seq<StreamState>, from: nat): seq<int>
    requires from <= |streams|
    decreases |streams| - from
  {
    if from == |streams| then []
    else (if streams[from].closed then [] else [streams[from].id]) + OpenIds(streams, from + 1)
  }

  ghost predicate InOrder(c: Connection) { NoneLost(c) && c.registry.keys == OpenIds(c.streams, 0) }

  lemma {:induction false} OpenIdsOfFresh(streams: seq<StreamState>, from: nat, id: int)
    requires from <= |streams|
    ensures OpenIds(streams + [Fresh(id)], from) == OpenIds(streams, from) + [id]
    decreases |streams| - from
  {
    if from < |streams| { OpenIdsOfFresh(streams, from + 1, id); }
  }

  lemma {:induction false} OpenIdsKept(before: seq<StreamState>, after: seq<StreamState>, from: nat)
    requires from <= |before| == |after|
    requires forall g :: 0 <= g < |before| ==> after[g].id == before[g].id && after[g].closed == before[g].closed
    ensures OpenIds(after, from) == OpenIds(before, from)
    decreases |before| - from
  {
    if from < |before| { OpenIdsKept(before, after, from + 1); }
  }

  /** Closing a stream takes its id, and only that, out of the list. */
  lemma {:induction false} OpenIdsAfterClose(streams: seq<StreamState>, from: nat, h: nat, s: StreamState)
    requires from <= |streams| && h < |streams| && s.closed
    requires forall g :: 0 <= g < |streams| && !streams[g].closed ==> (streams[g].id == s.id <==> g == h)
    ensures OpenIds(streams[h := s], from) == Without(OpenIds(streams, from), s.id)
    decreases |streams| - from
  {
    if from < |streams| {
      var rest := OpenIds(streams, from + 1);
      OpenIdsAfterClose(streams, from + 1, h, s);
      WithoutCons(streams[from].id, rest, s.id);
      assert [] + rest == rest && [] + Without(rest, s.id) == Without(rest, s.id);
    }
  }

  lemma CloseInOrder(c: Connection, h: nat, s: StreamState)
    requires InOrder(c) && h < |c.streams| && s.closed
    requires s.id == c.streams[h].id && s.id in c.registry.table && c.registry.table[s.id] == h
    ensures c.registry.Delete(s.id).keys == OpenIds(c.streams[h := s], 0)
  {
    OpenIdsAfterClose(c.streams, 0, h, s);
  }

  lemma StepOfClose(c: Conn, e: Event)
    requires e.StreamClose? && e.id in c.registry.table
    ensures var h := c.registry.table[e.id];
            var s := MarkClosed(c.streams[h], e.hasCode, e.code);
            && Step(c, e).streams == c.streams[h := s] && Step(c, e).registry == c.registry.Delete(e.id)
            && s.closed && s.id == c.streams[h].id == e.id
  {
    CloseOfKnown(c, e.id, e.hasCode, e.code);
  }

  // No other step of a stream closes one.
  lemma StepOfTouch(c: Conn, e: Event)
    requires LegalEvent(c, e) && Target(c, e).Some? && !e.StreamClose?
    ensures var after := Step(c, e).streams;
            && |after| == |c.streams|
            && forall g :: 0 <= g < |after| ==> after[g].id == c.streams[g].id && after[g].closed == c.streams[g].closed
  {
    var t := Target(c, e).value;
    MarksOfStep(c.streams[t.0], t.1);
    StepIsIsolated(c, e);
  }

  lemma TouchKeepsOrder(c: Conn, e: Event)
    requires LegalEvent(c, e) && InOrder(c) && Target(c, e).Some?
    ensures Step(c, e).registry.keys == OpenIds(Step(c, e).streams, 0)
  {
    if e.StreamClose? {
      var h := c.registry.table[e.id];
      StepOfClose(c, e);
      CloseInOrder(c, h, MarkClosed(c.streams[h], e.hasCode, e.code));
    } else {
      StepOfTouch(c, e);
      RegistryOfStep(c, e);
      OpenIdsKept(c.streams, Step(c, e).streams, 0);
    }
  }

  /** A step keeps the registry in the order of creation exactly when it does not
      open a stream under a registered id. */
  lemma StepKeepsOrder(c: Conn, e: Event)
    requires LegalEvent(c, e) && InOrder(c)
    ensures InOrder(Step(c, e)) <==> !(e.Open? && e.id in c.registry.table)
  {
    StepLosesNone(c, e);
    if Target(c, e).Some? {
      TouchKeepsOrder(c, e);
    } else if e.Open? || e.PeerOpen? {
      OpenIdsOfFresh(c.streams, 0, e.id);
      StoreIsExact(c.registry, e.id, |c.streams|);
      RegistryOfStep(c, e);
    }
  }

  lemma {:induction false} RunKeepsOrder(c: Conn, es: seq<Event>)
    requires LegalEvents(c, es) && OpensNewIds(c, es) && InOrder(c)
    ensures InOrder(Steps(c, es))
    decreases |es|
  {
    if es != [] {
      StepKeepsOrder(c, es[0]);
      RunKeepsOrder(Step(c, es[0]), es[1..]);
    }
  }

  // Stream `h` sends, and none from `from` on that is older does.
  ghost predicate IsOldest(streams: seq<StreamState>, from: nat, h: nat) {
    && from <= h < |streams| && Sending(streams[h])
    && forall g :: from <= g < h ==> !Sending(streams[g])
  }

  ghost predicate NoneSends(streams: seq<StreamState>, from: nat) {
    forall g :: from <= g < |streams| ==> !Sending(streams[g])
  }

  lemma FirstCons(streams: seq<StreamState>, k: int, rest: seq<int>, table: map<int, nat>)
    ensures FirstWithWork(streams, [k] + rest, table)
            == if Ready(streams, table, k) then Some(table[k]) else FirstWithWork(streams, rest, table)
  {
    assert ([k] + rest)[1..] == rest;
  }

  // What FirstWithWork finds among the ids from number `from` on.
  ghost predicate FindsOldest(streams: seq<StreamState>, from: nat, r: Option<nat>) {
    match r
    case None => NoneSends(streams, from)
    case Some(h) => IsOldest(streams, from, h)
  }

  lemma OldestCons(streams: seq<StreamState>, from: nat, r: Option<nat>)
    requires from < |streams| && FindsOldest(streams, from + 1, r)
    ensures FindsOldest(streams, from, if Sending(streams[from]) then Some(from) else r)
  {
  }

  lemma {:induction false} FirstIsOldest(c: Connection, from: nat)
    requires NoneLost(c) && from <= |c.streams|
    ensures FindsOldest(c.streams, from, FirstWithWork(c.streams, OpenIds(c.streams, from), c.registry.table))
    decreases |c.streams| - from
  {
    if from < |c.streams| {
      var s, rest := c.streams[from], OpenIds(c.streams, from + 1);
      FirstIsOldest(c, from + 1);
      OldestCons(c.streams, from, FirstWithWork(c.streams, rest, c.registry.table));
      if s.closed {
        assert OpenIds(c.streams, from) == [] + rest == rest;
      } else {
        FirstCons(c.streams, s.id, rest, c.registry.table);
      }
    }
  }

  lemma PickInOrder(c: Connection, h: nat)
    requires InOrder(c)
    ensures Pick(c) == Some(h) <==> IsOldest(c.streams, 0, h)
  {
    FirstIsOldest(c, 0);
  }

  /** In every run whose open methods get new ids, the registry lists the streams
      that are not closed in the order of their creation, and pick selects stream
      `h` exactly when it is the oldest of them with something to send. */
  lemma OldestIsPicked(es: seq<Event>, h: nat)
    requires LegalEvents(NewClient(), es) && OpensNewIds(NewClient(), es)
    ensures var c := Steps(NewClient(), es);
            && c.registry.keys == OpenIds(c.streams, 0)
            && (Pick(c) == Some(h) <==> IsOldest(c.streams, 0, h))
  {
    RunKeepsOrder(NewClient(), es);
    PickInOrder(Steps(NewClient(), es), h);
  }

  // ------------------------------------------------- runs, stream by stream

  /** The steps of a connection run that concern stream `h`. */
  function History(c: Conn, es: seq<Event>, h: nat): seq<StreamEvent>
    requires LegalEvents(c, es)
    decreases |es|
  {
    if es == [] then []
    else
      var t, rest := Target(c, es[0]), History(Step(c, es[0]), es[1..], h);
      if t.Some? && t.value.0 == h then [t.value.1] + rest else rest
  }

  lemma RunFirst(s: StreamState, e: StreamEvent, es: seq<StreamEvent>)
    requires Inv(s) && Legal(s, e) && LegalRun(Apply(s, e), es)
    ensures LegalRun(s, [e] + es) && Run(s, [e] + es) == Run(Apply(s, e), es)
  {
    assert ([e] + es)[1..] == es;
  }

  function Birth(c: Conn, h: nat, id: int): (s: StreamState)
    ensures Inv(s)
  {
    if h < |c.streams| then c.streams[h] else Fresh(id)
  }

  lemma {:induction false} StreamsOnlyAdded(c: Conn, es: seq<Event>)
    requires LegalEvents(c, es)
    ensures |c.streams| <= |Steps(c, es).streams|
    ensures forall h :: 0 <= h < |c.streams| ==> Steps(c, es).streams[h].id == c.streams[h].id
    decreases |es|
  {
    if es != [] {
      var d, t := Step(c, es[0]), Target(c, es[0]);
      StepIsIsolated(c, es[0]);
      if t.Some? { StepGrows(c.streams[t.value.0], t.value.1); }
      StreamsOnlyAdded(d, es[1..]);
    }
  }

  lemma BirthAfterStep(c: Conn, e: Event, h: nat, id: int)
    requires LegalEvent(c, e) && (h < |Step(c, e).streams| ==> Step(c, e).streams[h].id == id)
    ensures var t, b, d := Target(c, e), Birth(c, h, id), Birth(Step(c, e), h, id);
            if t.Some? && t.value.0 == h then Legal(b, t.value.1) && d == Apply(b, t.value.1) else d == b
  {
    StepIsIsolated(c, e);
    if h < |c.streams| {
      assert Birth(c, h, id) == c.streams[h] && Birth(Step(c, e), h, id) == Step(c, e).streams[h];
    } else {
      assert Birth(c, h, id) == Fresh(id) == Birth(Step(c, e), h, id);
    }
  }

  /** Every stream of a connection goes through a legal stream run of its own:
      whatever holds of stream runs holds of each stream in any interleaving. */
  lemma {:induction false} EveryStreamRuns(c: Conn, es: seq<Event>, h: nat)
    requires LegalEvents(c, es) && h < |Steps(c, es).streams|
    ensures var last := Steps(c, es).streams[h];
            var first := Birth(c, h, last.id);
            && LegalRun(first, History(c, es, h))
            && Run(first, History(c, es, h)) == last
    decreases |es|
  {
    if es != [] {
      var d, t := Step(c, es[0]), Target(c, es[0]);
      var id := Steps(c, es).streams[h].id;
      EveryStreamRuns(d, es[1..], h);
      StreamsOnlyAdded(d, es[1..]);
      BirthAfterStep(c, es[0], h, id);
      if t.Some? && t.value.0 == h {
        RunFirst(Birth(c, h, id), t.value.1, History(d, es[1..], h));
      }
    }
  }

  lemma RunIsFaithful(hist: seq<StreamEvent>, s: StreamState)
    requires LegalRun(Fresh(s.id), hist) && Run(Fresh(s.id), hist) == s
    ensures Faithful(hist, s)
  {
    StreamFidelity(s.id, hist);
  }

  /** In every reachable state of any number of streams, every stream is faithful
      to its part of the run: its framed slices spell its accepted bytes up to
      `sent`, and its delivered bytes plus buffer its received bytes. */
  lemma ConnectionFidelity(es: seq<Event>, h: nat)
    requires LegalEvents(NewClient(), es) && h < |Steps(NewClient(), es).streams|
    ensures Faithful(History(NewClient(), es, h), Steps(NewClient(), es).streams[h])
  {
    EveryStreamRuns(NewClient(), es, h);
    var s, hist := Steps(NewClient(), es).streams[h], History(NewClient(), es, h);
    assert Birth(NewClient(), h, s.id) == Fresh(s.id);
    RunIsFaithful(hist, s);
  }

  // ------------------------------------------------------------- accept FIFO

  // The part of one step in the two traces.
  function Arrival(c: Conn, e: Event): seq<nat> {
    if e.PeerData? && e.id in c.registry.table && ServerId(e.id) then [c.registry.table[e.id]] else []
  }

  function Taking(c: Conn, e: Event): seq<nat> {
    if e.Accept? && c.acceptQueue != [] then [c.acceptQueue[0]] else []
  }

  /** The receive callbacks of a run that found a registered server stream. */
  function ArrivalsIn(c: Conn, es: seq<Event>): seq<nat>
    requires LegalEvents(c, es)
    decreases |es|
  {
    if es == [] then [] else Arrival(c, es[0]) + ArrivalsIn(Step(c, es[0]), es[1..])
  }

  /** The streams that the accept calls of a run return. */
  function TakenIn(c: Conn, es: seq<Event>): seq<nat>
    requires LegalEvents(c, es)
    decreases |es|
  {
    if es == [] then [] else Taking(c, es[0]) + TakenIn(Step(c, es[0]), es[1..])
  }

  lemma StepTraces(c: Conn, e: Event)
    requires LegalEvent(c, e)
    ensures Step(c, e).arrivals == c.arrivals + Arrival(c, e)
    ensures Step(c, e).taken == c.taken + Taking(c, e)
  {
  }

  lemma {:induction false} RunTraces(c: Conn, es: seq<Event>)
    requires LegalEvents(c, es)
    ensures Steps(c, es).arrivals == c.arrivals + ArrivalsIn(c, es)
    ensures Steps(c, es).taken == c.taken + TakenIn(c, es)
    decreases |es|
  {
    if es != [] {
      var d := Step(c, es[0]);
      StepTraces(c, es[0]);
      RunTraces(d, es[1..]);
      Associate(c.arrivals, Arrival(c, es[0]), ArrivalsIn(d, es[1..]));
      Associate(c.taken, Taking(c, es[0]), TakenIn(d, es[1..]));
    }
  }

  ghost predicate FirstAt(s: seq<nat>, x: nat, i: nat) { i < |s| && s[i] == x && x !in s[..i] }

  lemma FirstAtPrefix(s: seq<nat>, x: nat, i: nat)
    requires s != [] && FirstAt(s, x, i)
    ensures var rest := s[..|s| - 1]; if x in rest then FirstAt(rest, x, i) else i == |s| - 1
  {
    var rest := s[..|s| - 1];
    if i < |rest| {
      assert rest[i] == x && rest[..i] == s[..i];
    } else {
      assert s[..i] == rest;
    }
  }

  /** Dedup lists every element once, in the order of first occurrences. */
  lemma {:induction false} DedupIsFirstOccurrences(s: seq<nat>)
    ensures forall i, j :: 0 <= i < j < |Dedup(s)| ==> Dedup(s)[i] != Dedup(s)[j]
    ensures forall i, j, a: nat, b: nat ::
              0 <= i < j < |Dedup(s)| && FirstAt(s, Dedup(s)[i], a) && FirstAt(s, Dedup(s)[j], b) ==> a < b
  {
    if s != [] {
      var d, rest := Dedup(s), s[..|s| - 1];
      DedupIsFirstOccurrences(rest);
      forall i, j, a: nat, b: nat | 0 <= i < j < |d| && FirstAt(s, d[i], a) && FirstAt(s, d[j], b)
        ensures a < b
      {
        FirstAtPrefix(s, d[i], a);
        FirstAtPrefix(s, d[j], b);
        assert d[i] in Dedup(rest);
      }
    }
  }

  /** Streams accepted so far, then those still queued, are the server streams
      that received data, each once, in the order of their first callback. */
  lemma AcceptIsFifo(es: seq<Event>)
    requires LegalEvents(NewClient(), es)
    ensures var c, arrivals := Steps(NewClient(), es), ArrivalsIn(NewClient(), es);
            && TakenIn(NewClient(), es) + c.acceptQueue == Dedup(arrivals)
            && (forall h :: h in arrivals ==> h < |c.streams| && ServerId(c.streams[h].id))
            && (forall h :: 0 <= h < |c.streams| ==> (c.streams[h].acceptQueued <==> h in arrivals))
  {
    RunTraces(NewClient(), es);
    assert [] + ArrivalsIn(NewClient(), es) == ArrivalsIn(NewClient(), es);
    assert [] + TakenIn(NewClient(), es) == TakenIn(NewClient(), es);
  }

  // ------------------------------------------------------------------- drain

  /** Unsent bytes, plus one for a FIN that is queued but not flushed. */
  function Backlog(tx: Sender): int {
    |Accepted(tx)| - tx.sent + if tx.fin && !tx.finFlushed then 1 else 0
  }

  function Total(streams: seq<StreamState>, keys: seq<int>, table: map<int, nat>): int {
    if keys == [] then 0
    else (if keys[0] in table && table[keys[0]] < |streams| then Backlog(streams[table[keys[0]]].tx) else 0)
         + Total(streams, keys[1..], table)
  }

  function Measure(c: Connection): int { Total(c.streams, c.registry.keys, c.registry.table) }

  /** Something is left to send exactly while the backlog is not empty. */
  lemma WorkIsBacklog(tx: Sender)
    requires SenderInv(tx)
    ensures 0 <= Backlog(tx) && (Backlog(tx) == 0 <==> !HasWork(tx))
  {
  }

  // Bytes taken by one answer, plus one if it took the FIN.
  function Gain(tx: Sender, n: int, pdatalen: int): nat
    requires HasWork(tx)
  {
    TakenBytes(n, pdatalen) + if TakesFin(NextOffer(tx), n, pdatalen) then 1 else 0
  }

  lemma AccountDrains(tx: Sender, n: int, pdatalen: int)
    requires SenderInv(tx) && HasWork(tx) && LegalResponse(tx, n, pdatalen)
    ensures Backlog(Account(tx, n, pdatalen)) == Backlog(tx) - Gain(tx, n, pdatalen)
  {
    OfferIsExact(tx);
    AccountIsExact(tx, n, pdatalen);
  }

  lemma {:induction false} TotalAfterChange(streams: seq<StreamState>, keys: seq<int>, table: map<int, nat>,
                                            h: nat, s: StreamState)
    requires h < |streams| && Distinct(keys)
    requires forall k :: k in keys ==> k in table && table[k] < |streams| && streams[table[k]].id == k
    ensures Total(streams[h := s], keys, table)
            == Total(streams, keys, table)
               + if streams[h].id in keys && table[streams[h].id] == h then Backlog(s.tx) - Backlog(streams[h].tx)
                 else 0
  {
    if keys != [] {
      TotalAfterChange(streams, keys[1..], table, h, s);
      assert streams[h].id in keys <==> streams[h].id == keys[0] || streams[h].id in keys[1..];
    }
  }

  function SendGain(c: Connection, n: int, pdatalen: int): nat
    requires CanSend(c, n, pdatalen)
  {
    if Pick(c).None? then 0 else Gain(c.streams[Pick(c).value].tx, n, pdatalen)
  }

  /** write_pkt lowers the backlog by exactly the bytes framed, plus one when it
      marks a FIN flushed; it never raises it. */
  lemma SendDrains(c: Conn, n: int, pdatalen: int)
    requires CanSend(c, n, pdatalen)
    ensures ClientInv(Send(c, n, pdatalen))
    ensures Measure(Send(c, n, pdatalen)) == Measure(c) - SendGain(c, n, pdatalen)
  {
    if Pick(c).Some? {
      var h := Pick(c).value;
      TouchKeepsInv(c, h, Framed(n, pdatalen));
      FirstWithWorkIsExact(c.streams, c.registry.keys, c.registry.table);
      AccountDrains(c.streams[h].tx, n, pdatalen);
      TotalAfterChange(c.streams, c.registry.keys, c.registry.table, h,
                       Apply(c.streams[h], Framed(n, pdatalen)));
    }
  }

  lemma {:induction false} TotalIsNatural(c: Conn, keys: seq<int>)
    ensures 0 <= Total(c.streams, keys, c.registry.table)
  {
    if keys != [] { TotalIsNatural(c, keys[1..]); }
  }

  lemma {:induction false} TotalIsZero(c: Conn, keys: seq<int>)
    ensures Total(c.streams, keys, c.registry.table) == 0
            <==> FirstWithWork(c.streams, keys, c.registry.table).None?
  {
    if keys != [] {
      var key := keys[0];
      TotalIsZero(c, keys[1..]);
      TotalIsNatural(c, keys[1..]);
      if key in c.registry.table { WorkIsBacklog(c.streams[c.registry.table[key]].tx); }
    }
  }

  /** Pick finds nothing exactly when the backlog of the connection is empty. */
  lemma NothingToPick(c: Conn)
    ensures Pick(c).None? <==> Measure(c) == 0
  {
    TotalIsZero(c, c.registry.keys);
  }

  // Bytes and FINs, and the number of calls that moved any of them.
  function DrainGain(c: Connection, rs: seq<Response>): (nat, nat)
    requires LegalDrain(c, rs)
    decreases |rs|
  {
    if rs == [] then (0, 0)
    else
      var g := SendGain(c, rs[0].n, rs[0].pdatalen);
      var calls := if g == 0 then 0 else 1;
      if 0 < rs[0].n then
        var rest := DrainGain(Send(c, rs[0].n, rs[0].pdatalen), rs[1..]);
        (g + rest.0, calls + rest.1)
      else (g, calls)
  }

  /** A drain loop moves exactly what the backlog loses, so the calls in it that
      make stream progress are at most the backlog it started with. */
  lemma {:induction false} DrainIsBounded(c: Conn, rs: seq<Response>)
    requires LegalDrain(c, rs)
    ensures ClientInv(Drain(c, rs))
    ensures Measure(Drain(c, rs)) == Measure(c) - DrainGain(c, rs).0
    ensures DrainGain(c, rs).1 <= DrainGain(c, rs).0 <= Measure(c)
    decreases |rs|
  {
    TotalIsNatural(c, c.registry.keys);
    if rs != [] {
      var d := Send(c, rs[0].n, rs[0].pdatalen);
      SendDrains(c, rs[0].n, rs[0].pdatalen);
      TotalIsNatural(d, d.registry.keys);
      if 0 < rs[0].n { DrainIsBounded(d, rs[1..]); }
    }
  }

  // Every answer, as long as a stream is picked, takes bytes of it or its lone FIN.
  ghost predicate Productive(c: Connection, rs: seq<Response>)
    requires LegalDrain(c, rs)
    decreases |rs|
  {
    rs == [] || Pick(c).None?
    || (&& 0 < rs[0].n
        && (0 < rs[0].pdatalen || NextOffer(c.streams[Pick(c).value].tx).data == [])
        && Productive(Send(c, rs[0].n, rs[0].pdatalen), rs[1..]))
  }

  lemma {:induction false} IdleDrain(c: Connection, rs: seq<Response>)
    requires LegalDrain(c, rs) && Pick(c).None?
    ensures Drain(c, rs) == c
    decreases |rs|
  {
    if rs != [] && 0 < rs[0].n { IdleDrain(c, rs[1..]); }
  }

  /** As many productive answers as there are bytes and FINs left empty the
      connection, with no stream left to pick. */
  lemma {:induction false} DrainEmpties(c: Conn, rs: seq<Response>)
    requires LegalDrain(c, rs) && Productive(c, rs) && Measure(c) <= |rs|
    ensures Measure(c) >= 0 && Pick(Drain(c, rs)).None?
    decreases |rs|
  {
    TotalIsNatural(c, c.registry.keys);
    NothingToPick(c);
    if Pick(c).None? {
      IdleDrain(c, rs);
    } else {
      OfferIsExact(c.streams[Pick(c).value].tx);
      SendDrains(c, rs[0].n, rs[0].pdatalen);
      DrainEmpties(Send(c, rs[0].n, rs[0].pdatalen), rs[1..]);
    }
  }

  /** A drain loop is a run of the connection: what holds of runs holds of it. */
  lemma {:induction false} DrainIsARun(c: Conn, rs: seq<Response>)
    requires LegalDrain(c, rs)
    ensures LegalEvents(c, DrainEvents(rs)) && Steps(c, DrainEvents(rs)) == Drain(c, rs)
    decreases |rs|
  {
    if rs != [] {
      var e := WritePkt(rs[0].n, rs[0].pdatalen);
      var rest := DrainEvents(rs)[1..];
      assert DrainEvents(rs) == [e] + rest;
      assert Step(c, e) == Send(c, rs[0].n, rs[0].pdatalen);
      if 0 < rs[0].n { DrainIsARun(Step(c, e), rs[1..]); }
    }
  }
}
