/** Quic::Connection::Client: the stream registry, the accept queue, the ngtcp2
    callbacks and write_pkt, proved to refine ClientModel step by step. */
module ClientClass {
  import opened Bytes
  import opened ChunkQueue
  import opened StreamModel
  import opened StreamAnswers
  import opened StreamTheorems
  import opened RubyHash
  import opened StreamClass
  import M = ClientModel
  import T = ClientTheorems

  datatype PktResult = Packet(length: nat) | NoPacket | Failed(error: int)

  ghost function Views(objs: seq<Stream>): (r: seq<StreamState>)
    reads objs
    ensures |r| == |objs| && forall i :: 0 <= i < |objs| ==> r[i] == objs[i].View()
  {
    seq(|objs|, i requires 0 <= i < |objs| reads objs => objs[i].View())
  }

  ghost function Handles(q: seq<Stream>): (r: seq<nat>)
    ensures |r| == |q| && forall i :: 0 <= i < |q| ==> r[i] == q[i].handle
  {
    seq(|q|, i requires 0 <= i < |q| => q[i].handle)
  }

  ghost function HandleTable(table: map<int, Stream>): map<int, nat> {
    map k | k in table :: table[k].handle
  }

  // Every stream sits at its own number ...
  ghost predicate AllValid(objs: seq<Stream>)
    reads objs, set s | s in objs :: s.recvData
  {
    forall i :: 0 <= i < |objs| ==> objs[i].handle == i && objs[i].Valid()
  }

  // ... and owns its receive buffer.
  ghost predicate Disjoint(objs: seq<Stream>)
    reads objs
  {
    forall i, j :: 0 <= i < j < |objs| ==> objs[i].recvData != objs[j].recvData
  }

  ghost predicate Owned(objs: seq<Stream>, s: Stream) { s.handle < |objs| && objs[s.handle] == s }

  twostate predicate OnlyChanged(objs: seq<Stream>, h: int)
    reads objs, set s | s in objs :: s.recvData
  {
    forall i :: 0 <= i < |objs| && i != h ==> unchanged(objs[i]) && unchanged(objs[i].recvData)
  }

  lemma OthersApart(objs: seq<Stream>, s: Stream)
    requires AllValid(objs) && Disjoint(objs) && Owned(objs, s)
    ensures forall i :: 0 <= i < |objs| && i != s.handle ==> objs[i].recvData != s.recvData && objs[i] != s
  {
  }

  twostate lemma OthersKept(objs: seq<Stream>)
    requires old(AllValid(objs))
    ensures forall i :: 0 <= i < |objs| && unchanged(objs[i]) && unchanged(objs[i].recvData) ==>
              && objs[i].handle == i && objs[i].Valid()
              && objs[i].View() == old(objs[i].View()) && objs[i].recvData == old(objs[i].recvData)
  {
  }

  lemma DisjointPush(objs: seq<Stream>, s: Stream)
    requires Disjoint(objs) && forall i :: 0 <= i < |objs| ==> objs[i].recvData != s.recvData
    ensures Disjoint(objs + [s])
  {
  }

  lemma AllValidPush(objs: seq<Stream>, s: Stream)
    requires AllValid(objs) && s.handle == |objs| && s.Valid()
    ensures AllValid(objs + [s])
  {
  }

  lemma ViewsPush(objs: seq<Stream>, s: Stream)
    ensures Views(objs + [s]) == Views(objs) + [s.View()]
  {
  }

  twostate lemma NoneChanged(objs: seq<Stream>)
    requires old(AllValid(objs) && Disjoint(objs)) && OnlyChanged(objs, |objs|)
    ensures AllValid(objs) && Disjoint(objs) && Views(objs) == old(Views(objs))
  {
    OthersKept(objs);
  }

  /** A new stream goes last. */
  twostate lemma Appended(objs: seq<Stream>, new s: Stream)
    requires old(AllValid(objs) && Disjoint(objs)) && s.handle == |objs| && s.Valid() && fresh(s) && fresh(s.recvData)
    requires OnlyChanged(objs, |objs|)
    ensures AllValid(objs + [s]) && Disjoint(objs + [s])
    ensures Views(objs + [s]) == old(Views(objs)) + [s.View()]
  {
    NoneChanged(objs);
    DisjointPush(objs, s);
    AllValidPush(objs, s);
    ViewsPush(objs, s);
  }

  lemma StoredHandle(h: Hash<Stream>, id: int, s: Stream)
    ensures HandleTable(h.Store(id, s).table) == HandleTable(h.table)[id := s.handle]
  {
  }

  lemma DeletedHandle(h: Hash<Stream>, id: int)
    ensures HandleTable(h.Delete(id).table) == HandleTable(h.table) - {id}
  {
  }

  class Client {
    var streams: Hash<Stream>       // @streams
    var acceptQueue: seq<Stream>    // @accept_queue

    ghost var objs: seq<Stream>     // every stream ever created, oldest first
    ghost var taken: seq<nat>
    ghost var arrivals: seq<nat>

    ghost function View(): M.Connection
      reads this, objs
    {
      M.Connection(Views(objs), Hash(streams.keys, HandleTable(streams.table)), Handles(acceptQueue), taken, arrivals)
    }

    // The registry and the queue refer to streams of this client only.
    ghost predicate Valid()
      reads this, objs, set s | s in objs :: s.recvData
    {
      && AllValid(objs) && Disjoint(objs)
      && streams.Valid()
      && (forall k :: k in streams.table ==> Owned(objs, streams.table[k]))
      && (forall s :: s in acceptQueue ==> Owned(objs, s))
    }

    constructor ()
      ensures Valid() && objs == []
      ensures View() == M.NewClient()
    {
      streams, acceptQueue := Hash([], map[]), [];
      objs, taken, arrivals := [], [], [];
    }

    // --------------------------------------------------- one stream at a time

    twostate lemma OneChanged(s: Stream)
      requires old(AllValid(objs)) && unchanged(this) && Owned(objs, s) && OnlyChanged(objs, s.handle)
      ensures View() == M.Replace(old(View()), s.handle, s.View())
    {
      OthersKept(objs);
      assert Views(objs) == old(Views(objs))[s.handle := s.View()];
    }

    twostate lemma StillValid(s: Stream)
      requires old(Valid()) && unchanged(this) && Owned(objs, s) && OnlyChanged(objs, s.handle)
      requires s.Valid() && (s.recvData == old(s.recvData) || fresh(s.recvData))
      ensures Valid()
    {
      OthersKept(objs);
    }

    /** Changing one stream, and nothing else, replaces its state in the view; the
        other streams and their buffers stay as they are. */
    twostate lemma Touched(s: Stream)
      requires old(Valid()) && unchanged(this) && Owned(objs, s) && OnlyChanged(objs, s.handle)
      requires s.Valid() && (s.recvData == old(s.recvData) || fresh(s.recvData))
      ensures Valid()
      ensures View() == M.Replace(old(View()), s.handle, s.View())
    {
      StillValid(s);
      OneChanged(s);
    }

    /** So a method call on any stream of this client, registered or not, is one
        step of the connection: the contracts of Stream lift to it. */
    twostate lemma CallIsStep(s: Stream, new e: StreamEvent)
      requires old(Valid()) && unchanged(this) && Owned(objs, s) && OnlyChanged(objs, s.handle)
      requires s.Valid() && s.recvData == old(s.recvData)
      requires M.CanTouch(old(View()), s.handle, e) && s.View() == Apply(old(s.View()), e)
      ensures Valid()
      ensures View() == M.Touch(old(View()), s.handle, e)
    {
      Touched(s);
    }

    method ReceiveOn(s: Stream, data: seq<byte>, fin: bool)
      requires Valid() && Owned(objs, s) && |s.received| + |data| <= MAX_STREAM_OFFSET
      modifies s, s.recvData
      ensures Valid()
      ensures View() == M.Replace(old(View()), s.handle, Receive(old(s.View()), data, fin))
    {
      OthersApart(objs, s);
      s.ReceiveData(data, fin);
      assert OnlyChanged(objs, s.handle);
      Touched(s);
    }

    method AckOn(s: Stream, datalen: uint64)
      requires Valid() && Owned(objs, s) && s.ackedOffset as int + datalen as int <= s.sentOffset as int
      modifies s
      ensures Valid()
      ensures View() == M.Replace(old(View()), s.handle, old(s.View()).(tx := Ack(old(s.Tx()), datalen as int)))
    {
      s.AckedData(datalen);
      Touched(s);
    }

    method CloseOn(s: Stream, hasCode: bool, code: uint64)
      requires Valid() && Owned(objs, s)
      modifies s
      ensures Valid()
      ensures View() == M.Replace(old(View()), s.handle, MarkClosed(old(s.View()), hasCode, code as int))
    {
      s.Close(hasCode, code);
      Touched(s);
    }

    method ResetOn(s: Stream, code: uint64)
      requires Valid() && Owned(objs, s)
      modifies s
      ensures Valid()
      ensures View() == M.Replace(old(View()), s.handle, MarkReset(old(s.View()), code as int))
    {
      s.PeerReset(code);
      Touched(s);
    }

    method AdvanceOn(s: Stream, offer: Offer, n: int, pdatalen: int)
      requires Valid() && Owned(objs, s) && HasWork(s.Tx()) && offer == NextOffer(s.Tx())
      requires LegalResponse(s.Tx(), n, pdatalen) && 0 <= n
      modifies s
      ensures Valid()
      ensures View() == M.Replace(old(View()), s.handle, old(s.View()).(tx := Account(old(s.Tx()), n, pdatalen)))
    {
      s.Advance(offer, n, pdatalen);
      Touched(s);
    }

    // ----------------------------------------------------- opening, accepting

    twostate lemma Registered(new s: Stream, id: int)
      requires old(Valid()) && objs == old(objs) + [s] && streams == old(streams).Store(id, s)
      requires acceptQueue == old(acceptQueue) && taken == old(taken) && arrivals == old(arrivals)
      requires fresh(s) && fresh(s.recvData) && s.Valid() && s.View() == Fresh(id) && s.handle == |old(objs)|
      requires OnlyChanged(old(objs), |old(objs)|)
      ensures Valid()
      ensures View() == M.Add(old(View()), id)
    {
      Appended(old(objs), s);
      StoredHandle(old(streams), id, s);
      StoreIsValid(old(streams), id, s);
      assert Handles(acceptQueue) == old(Handles(acceptQueue));
    }

    method Register(id: int) returns (s: Stream)
      requires Valid()
      modifies this`streams, this`objs
      ensures Valid() && fresh(s) && objs == old(objs) + [s] && s.handle == |old(objs)|
      ensures streams == old(streams).Store(id, s)
      ensures View() == M.Add(old(View()), id)
    {
      s := new Stream(id, |objs|);
      streams := streams.Store(id, s);
      objs := objs + [s];
      Registered(s, id);
    }

    /** open_bidi_stream and open_uni_stream; `rv` and `id` come from ngtcp2.
        Every stream handed out before stays the client's object. */
    method OpenStream(rv: int, id: int) returns (r: Option<Stream>)
      requires Valid()
      modifies this`streams, this`objs
      ensures Valid() && View() == if rv == 0 then M.Add(old(View()), id) else old(View())
      ensures match r
              case Some(s) => rv == 0 && fresh(s) && s.handle == |old(objs)|
                              && objs == old(objs) + [s] && streams == old(streams).Store(id, s)
              case None => rv != 0 && objs == old(objs) && streams == old(streams)
    {
      if rv != 0 { return None; }
      var s := Register(id);
      return Some(s);
    }

    /** A known id keeps its object; any other id gets a new one. */
    method StreamOpenCallback(id: int)
      requires Valid()
      modifies this`streams, this`objs
      ensures Valid() && View() == M.OpenForPeer(old(View()), id)
      ensures if id in old(streams.table) then streams == old(streams) && objs == old(objs)
              else old(objs) < objs && streams == old(streams).Store(id, objs[|old(objs)|]) && fresh(objs[|old(objs)|])
    {
      if id in streams.table { return; }
      var s := Register(id);
    }

    twostate lemma QueueChanged()
      requires old(Valid()) && objs == old(objs) && streams == old(streams)
      requires forall t :: t in acceptQueue ==> Owned(objs, t)
      requires OnlyChanged(objs, |objs|)
      ensures Valid()
    {
    }

    method AcceptStreamNonblock() returns (r: Option<Stream>)
      requires Valid()
      modifies this`acceptQueue, this`taken
      ensures Valid() && View() == M.AcceptNext(old(View()))
      ensures r == if old(acceptQueue) == [] then None else Some(old(acceptQueue)[0])
      ensures acceptQueue == if old(acceptQueue) == [] then [] else old(acceptQueue)[1..]
    {
      if acceptQueue == [] { return None; }
      var s := acceptQueue[0];
      taken := taken + [s.handle];
      acceptQueue := acceptQueue[1..];
      QueueChanged();
      assert Handles(acceptQueue) == old(Handles(acceptQueue))[1..];
      return Some(s);
    }

    // -------------------------------------------------------------- callbacks

    /** Surfaces a server stream to accept_stream on its first data. */
    method SurfaceArrival(s: Stream)
      requires Owned(objs, s)
      modifies this`acceptQueue, this`arrivals
      ensures View() == M.Arrive(old(View()), s.handle)
      ensures forall t :: t in acceptQueue ==> t in old(acceptQueue) || t == s
    {
      if !s.acceptQueued && s.streamId % 2 == 1 {
        acceptQueue := acceptQueue + [s];
      }
      if s.streamId % 2 == 1 {
        arrivals := arrivals + [s.handle];
      }
    }

    method QueueArrival(s: Stream)
      requires Valid() && Owned(objs, s)
      modifies this`acceptQueue, this`arrivals
      ensures Valid() && View() == M.Arrive(old(View()), s.handle)
    {
      SurfaceArrival(s);
      QueueChanged();
    }

    method RecvStreamDataCallback(id: int, data: seq<byte>, fin: bool)
      requires Valid() && M.CanReach(View(), id, Received(data, fin))
      modifies this`acceptQueue, this`arrivals, objs, set s | s in objs :: s.recvData
      ensures Valid()
      ensures View() == M.Deliver(old(View()), id, data, fin)
    {
      if id !in streams.table { return; }
      var s := streams.table[id];
      M.DataOfKnown(View(), id, data, fin);
      QueueArrival(s);
      ReceiveOn(s, data, fin);
    }

    method AckedStreamDataOffsetCallback(id: int, datalen: uint64)
      requires Valid() && M.CanReach(View(), id, Acked(datalen as int))
      modifies objs
      ensures Valid()
      ensures View() == M.Notify(old(View()), id, Acked(datalen as int))
    {
      if id !in streams.table { return; }
      M.AckOfKnown(View(), id, datalen as int);
      AckOn(streams.table[id], datalen);
    }

    method Unregister(id: int)
      requires Valid()
      modifies this`streams
      ensures Valid()
      ensures View() == old(View()).(registry := old(View()).registry.Delete(id))
    {
      DeleteIsValid(streams, id);
      DeletedHandle(streams, id);
      streams := streams.Delete(id);
    }

    method StreamCloseCallback(id: int, hasCode: bool, code: uint64)
      requires Valid() && M.CanReach(View(), id, Closed(hasCode, code as int))
      modifies this`streams, objs
      ensures Valid()
      ensures View() == M.Forget(old(View()), id, hasCode, code as int)
    {
      if id !in streams.table { return; }
      M.CloseOfKnown(View(), id, hasCode, code as int);
      CloseOn(streams.table[id], hasCode, code);
      Unregister(id);
    }

    method StreamResetCallback(id: int, code: uint64)
      requires Valid() && M.CanReach(View(), id, PeerReset(code as int))
      modifies objs
      ensures Valid()
      ensures View() == M.Notify(old(View()), id, PeerReset(code as int))
    {
      if id !in streams.table { return; }
      M.ResetOfKnown(View(), id, code as int);
      ResetOn(streams.table[id], code);
    }

    // ---------------------------------------------------------------- sending

    /** quic_client_pick_send_stream. */
    method PickSendStream() returns (selected: Option<Stream>, offer: Offer)
      requires Valid()
      ensures match M.Pick(View())
              case None => selected.None?
              case Some(h) => h < |objs| && selected == Some(objs[h])
                              && HasWork(objs[h].Tx()) && offer == NextOffer(objs[h].Tx())
    {
      ghost var views, table := Views(objs), HandleTable(streams.table);
      var i := 0;
      while i < |streams.keys|
        invariant 0 <= i <= |streams.keys|
        invariant M.Pick(View()) == M.FirstWithWork(views, streams.keys[i..], table)
      {
        var key := streams.keys[i];
        assert key in streams.keys;
        var st := streams.table[key];
        assert views[st.handle] == st.View();
        var slice := st.NextSlice();
        if slice.Some? {
          return Some(st), slice.value;
        }
        assert streams.keys[i..][1..] == streams.keys[i + 1..];
        i := i + 1;
      }
      return None, Offer([], false);
    }

    // The accounting after a write that did not fail.
    method AccountFor(selected: Option<Stream>, offer: Offer, n: int, pdatalen: int)
      requires Valid() && M.CanSend(View(), n, pdatalen) && 0 <= n
      requires match M.Pick(View())
               case None => selected.None?
               case Some(h) => h < |objs| && selected == Some(objs[h])
                               && HasWork(objs[h].Tx()) && offer == NextOffer(objs[h].Tx())
      modifies objs
      ensures Valid()
      ensures View() == M.Send(old(View()), n, pdatalen)
    {
      if selected.Some? {
        M.SendOfPicked(View(), n, pdatalen);
        AdvanceOn(selected.value, offer, n, pdatalen);
      }
    }

    /** quic_client_write_pkt; `n` and `pdatalen` are ngtcp2's answer to the offer. */
    method WritePkt(n: int, pdatalen: int) returns (r: PktResult)
      requires Valid() && M.CanSend(View(), n, pdatalen)
      modifies objs
      ensures Valid()
      ensures View() == M.Send(old(View()), n, pdatalen)
      ensures r == if n < 0 then Failed(n) else if n == 0 then NoPacket else Packet(n)
    {
      var selected, offer := PickSendStream();
      if n < 0 {
        M.FailedSendChangesNothing(View(), n, pdatalen);
        return Failed(n);
      }
      AccountFor(selected, offer, n, pdatalen);
      if n == 0 { return NoPacket; }
      return Packet(n);
    }

    /** The drain loop of pump_once, with ngtcp2's answers in `rs`; it sends the
        packets before the first answer without one. */
    method Drain(rs: seq<M.Response>) returns (packets: nat)
      requires Valid() && M.LegalDrain(View(), rs)
      modifies objs
      ensures Valid()
      ensures View() == M.Drain(old(View()), rs)
      ensures packets <= |rs| && (forall i :: 0 <= i < packets ==> 0 < rs[i].n)
      ensures packets < |rs| ==> rs[packets].n <= 0
    {
      packets := 0;
      while packets < |rs|
        invariant 0 <= packets <= |rs| && forall i :: 0 <= i < packets ==> 0 < rs[i].n
        invariant Valid() && M.LegalDrain(View(), rs[packets..])
        invariant M.Drain(old(View()), rs) == M.Drain(View(), rs[packets..])
      {
        assert rs[packets..][1..] == rs[packets + 1..];
        var pkt := WritePkt(rs[packets].n, rs[packets].pdatalen);
        if !pkt.Packet? { return; }
        packets := packets + 1;
      }
    }

    // ------------------------------------------------------ what always holds

    /** After any run `es` that brought the client to its present state: for each
        of its streams, the bytes framed so far are the accepted ones up to
        `sentOffset`, the chunk queue holds the accepted ones from `pendingShifted`
        on, and the bytes read so far followed by the receive buffer are the bytes
        received. The flags and `ackedOffset` say exactly what happened in the run. */
    lemma StreamsAreFaithful(es: seq<M.Event>, s: Stream)
      requires Valid() && Owned(objs, s)
      requires M.LegalEvents(M.NewClient(), es) && View() == M.Steps(M.NewClient(), es)
      ensures var hist := T.History(M.NewClient(), es, s.handle);
              && LegalRun(Fresh(s.streamId), hist)
              && var log := RunLog(Fresh(s.streamId), hist);
                 && s.pendingShifted <= s.ackedOffset <= s.sentOffset
                 && s.sentOffset as int <= |log.accepted|
                 && log.framed == log.accepted[..s.sentOffset]
                 && Flatten(s.pendingChunks) == log.accepted[s.pendingShifted..]
                 && log.delivered + s.recvData[..s.recvLen] == log.received
                 && (s.finSent <==> FinQueuedIn(Fresh(s.streamId), hist))
                 && (s.finFlushed <==> FinFlushedIn(Fresh(s.streamId), hist))
                 && (s.finReceived <==> FinArrives(hist))
                 && s.ackedOffset as int == AckedIn(hist)
                 && (s.reset <==> ResetIn(hist)) && (s.closed <==> ClosedIn(hist))
    {
      T.ConnectionFidelity(es, s.handle);
      CursorInvariant(s.Tx());
    }

    /** The streams that accept calls returned in the run, then the accept queue,
        are the server streams that received data, each once, in order of arrival. */
    lemma AcceptQueueIsFifo(es: seq<M.Event>)
      requires Valid()
      requires M.LegalEvents(M.NewClient(), es) && View() == M.Steps(M.NewClient(), es)
      ensures T.TakenIn(M.NewClient(), es) + Handles(acceptQueue) == M.Dedup(T.ArrivalsIn(M.NewClient(), es))
    {
      T.AcceptIsFifo(es);
    }
  }
}
