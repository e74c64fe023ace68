/** Quic::Stream with the fields of quic_stream_t, its chunk queue and its
    receive buffer, proved to refine StreamModel step by step. */
module StreamClass {
  import opened Bytes
  import opened ChunkQueue
  import opened StreamModel
  import opened StreamTheorems

  class Stream {
    const streamId: int
    var sentOffset: uint64
    var ackedOffset: uint64
    var pendingShifted: uint64
    var finReceived: bool
    var finSent: bool
    var finFlushed: bool
    var reset: bool
    var closed: bool
    var closeAppErrorCode: uint64
    var closeHasAppErrorCode: bool
    var acceptQueued: bool
    var pendingChunks: seq<seq<byte>>
    var recvData: array<byte>  // storage of @recv_buffer; its first recvLen bytes are in use
    var recvLen: nat

    ghost const handle: nat  // creation number within the client
    ghost var writes: seq<seq<byte>>
    ghost var frames: seq<seq<byte>>
    ghost var received: seq<byte>
    ghost var delivered: seq<byte>
    ghost var finFramed: bool

    ghost function Tx(): Sender
      reads `writes, `finSent, `frames, `sentOffset, `ackedOffset, `finFlushed, `finFramed
    {
      Sender(writes, finSent, frames, sentOffset as int, ackedOffset as int, finFlushed, finFramed)
    }

    ghost function Rx(): Receiver
      reads `received, `delivered, `finReceived
    {
      Receiver(received, delivered, finReceived)
    }

    ghost function View(): StreamState
      reads this
    {
      StreamState(streamId, Tx(), Rx(), reset, closed, closeAppErrorCode as int, closeHasAppErrorCode, acceptQueued)
    }

    // The chunk queue and its cursors stand for the flat send side.
    ghost predicate SendOk()
      reads `writes, `finSent, `frames, `sentOffset, `ackedOffset, `finFlushed, `finFramed
      reads `pendingChunks, `pendingShifted
    {
      SenderInv(Tx()) && Queue(pendingChunks, pendingShifted as int) == Pending(Tx())
    }

    // The receive buffer holds what was received and not delivered yet.
    ghost predicate RecvOk()
      reads `received, `delivered, `finReceived, `recvData, `recvLen, recvData
    {
      && delivered <= received && |received| <= MAX_STREAM_OFFSET
      && recvLen <= recvData.Length
      && recvData[..recvLen] == Buffered(Rx())
    }

    ghost predicate Valid()
      reads this, recvData
    {
      SendOk() && RecvOk()
    }

    constructor (id: int, ghost handle: nat)
      ensures Valid() && fresh(recvData) && this.handle == handle
      ensures View() == Fresh(id)
    {
      streamId, this.handle := id, handle;
      sentOffset, ackedOffset, pendingShifted := 0, 0, 0;
      finReceived, finSent, finFlushed, finFramed := false, false, false, false;
      reset, closed, closeAppErrorCode, closeHasAppErrorCode, acceptQueued := false, false, 0, false, false;
      pendingChunks, writes, frames, received, delivered := [], [], [], [], [];
      recvData, recvLen := new byte[0], 0;
    }

    // -------------------------------------------------------------- writing

    method PushSide(data: array<byte>, fin: bool)
      requires SendOk() && !finSent && data.Length <= LONG_MAX
      modifies `pendingChunks, `writes, `finSent
      ensures SendOk() && Tx() == Push(old(Tx()), data[..], fin)
    {
      PushKeepsInv(Tx(), data[..], fin);
      if data.Length > 0 {
        PendingAfterPush(Tx(), data[..], fin);
        pendingChunks := pendingChunks + [data[..]];
        writes := writes + [data[..]];
      }
      if fin { finSent := true; }
    }

    method Enqueue(data: array<byte>, fin: bool) returns (r: WriteResult)
      requires Valid() && data.Length <= LONG_MAX
      modifies `pendingChunks, `writes, `finSent
      ensures Valid()
      ensures (View(), r) == StreamModel.Enqueue(old(View()), data[..], fin)
    {
      if reset || closed { return StreamClosed; }
      if finSent { return StreamClosed; }
      PushSide(data, fin);
      return Queued(data.Length);
    }

    method WriteNonblock(data: array<byte>, fin: bool, streamLeft: uint64, connLeft: uint64)
      returns (r: WriteResult)
      requires Valid() && data.Length <= LONG_MAX
      modifies `pendingChunks, `writes, `finSent
      ensures Valid()
      ensures var window := (if streamLeft < connLeft then streamLeft else connLeft) as int;
              (View(), r) == StreamModel.WriteNonblock(old(View()), data[..], fin, window)
    {
      var needed := data.Length;
      if needed == 0 {
        r := Enqueue(data, fin);
        return;
      }
      var avail := if streamLeft < connLeft then streamLeft else connLeft;
      if avail == 0 { return WaitWritable; }
      var take := if needed <= avail as int then needed else avail as int;
      var effectiveFin := if take == needed then fin else false;
      var slice := data;
      if take != needed {
        slice := new byte[take];
        forall i | 0 <= i < take { slice[i] := data[i]; }
        assert slice[..] == data[..take];
      }
      r := Enqueue(slice, effectiveFin);
    }

    method CloseWrite() returns (r: WriteResult)
      requires Valid()
      modifies `pendingChunks, `writes, `finSent
      ensures Valid()
      ensures (View(), r) == StreamModel.CloseWrite(old(View()))
    {
      if finSent { return Queued(0); }
      var empty := new byte[0];
      assert empty[..] == [];
      r := Enqueue(empty, true);
    }

    /** Stream#reset; `rv` is what ngtcp2_conn_shutdown_stream_write returned. */
    method Reset(rv: int) returns (ok: bool)
      requires Valid()
      modifies `reset
      ensures Valid()
      ensures View() == MarkAborted(old(View()), rv == 0)
      ensures ok <==> old(reset) || rv == 0
    {
      if reset { return true; }
      if rv != 0 { return false; }
      reset := true;
      return true;
    }

    // -------------------------------------------------------------- sending

    /** Walks the chunks, with `position` decreasing, to the one that holds the
        next unsent byte; -1 when there is none. */
    static method FindChunk(chunks: seq<seq<byte>>, start: uint64)
      returns (chunkIdx: int, offsetInChunk: nat)
      ensures match Walk(chunks, start as int)
              case NotFound => chunkIdx == -1
              case Found(i, o) => chunkIdx == i && offsetInChunk == o
    {
      var position := start;
      chunkIdx, offsetInChunk := -1, 0;
      var j := 0;
      while j < |chunks|
        invariant 0 <= j <= |chunks| && chunkIdx == -1
        invariant Walk(chunks, start as int) == Later(Walk(chunks[j..], position as int), j)
      {
        var clen := |chunks[j]|;
        if position as int < clen {
          chunkIdx, offsetInChunk := j, position as int;
          break;
        }
        assert chunks[j..][1..] == chunks[j + 1..];
        position := position - clen as uint64;
        j := j + 1;
      }
    }

    /** The body of the scan in quic_client_pick_send_stream for one stream. */
    method NextSlice() returns (r: Option<Offer>)
      requires Valid()
      ensures r == if HasWork(Tx()) then Some(NextOffer(Tx())) else None
    {
      if finFlushed { return None; }
      OfferFromPending(Tx());
      var chunkIdx, offsetInChunk := FindChunk(pendingChunks, sentOffset - pendingShifted);
      if chunkIdx >= 0 {
        var fin := finSent && chunkIdx == |pendingChunks| - 1;
        return Some(Offer(pendingChunks[chunkIdx][offsetInChunk..], fin));
      }
      if finSent && !finFlushed { return Some(Offer([], true)); }
      return None;
    }

    method AdvanceSendSide(offer: Offer, n: int, pdatalen: int)
      requires SendOk() && HasWork(Tx()) && offer == NextOffer(Tx())
      requires LegalResponse(Tx(), n, pdatalen) && 0 <= n
      modifies this`sentOffset, this`finFlushed, this`frames, this`finFramed
      ensures SendOk() && Tx() == Account(old(Tx()), n, pdatalen)
    {
      AccountKeepsInv(Tx(), n, pdatalen);
      finFramed := finFramed || (offer.fin && 0 < n && pdatalen == |offer.data|);
      if pdatalen > 0 {
        frames := frames + [offer.data[..pdatalen]];
        sentOffset := sentOffset + pdatalen as uint64;
        if offer.fin && pdatalen == |offer.data| {
          finFlushed := true;
        }
      } else if offer.data == [] && n > 0 && offer.fin {
        finFlushed := true;
      }
    }

    /** The accounting in quic_client_write_pkt once ngtcp2 answered an offer. */
    method Advance(offer: Offer, n: int, pdatalen: int)
      requires Valid() && HasWork(Tx()) && offer == NextOffer(Tx())
      requires LegalResponse(Tx(), n, pdatalen) && 0 <= n
      modifies `sentOffset, `finFlushed, `frames, `finFramed
      ensures Valid()
      ensures View() == old(View()).(tx := Account(old(Tx()), n, pdatalen))
    {
      AdvanceSendSide(offer, n, pdatalen);
    }

    /** Shifts the head chunks whose end is covered by ackedOffset. */
    method ShiftAcked()
      requires pendingShifted <= ackedOffset
      requires forall c :: c in pendingChunks ==> ackedOffset as int + |c| < 0x1_0000_0000_0000_0000
      modifies this`pendingChunks, this`pendingShifted
      ensures Queue(pendingChunks, pendingShifted as int)
              == Trim(old(Queue(pendingChunks, pendingShifted as int)), ackedOffset as int)
    {
      while |pendingChunks| > 0
        invariant pendingShifted <= ackedOffset
        invariant forall c :: c in pendingChunks ==> ackedOffset as int + |c| < 0x1_0000_0000_0000_0000
        invariant Trim(Queue(pendingChunks, pendingShifted as int), ackedOffset as int)
                  == Trim(old(Queue(pendingChunks, pendingShifted as int)), ackedOffset as int)
        decreases |pendingChunks|
      {
        var headEnd := pendingShifted + |pendingChunks[0]| as uint64;
        if headEnd <= ackedOffset {
          pendingChunks := pendingChunks[1..];
          pendingShifted := headEnd;
        } else {
          break;
        }
      }
    }

    method AckSendSide(datalen: uint64)
      requires SendOk() && ackedOffset as int + datalen as int <= sentOffset as int
      modifies this`ackedOffset, this`pendingChunks, this`pendingShifted
      ensures SendOk() && Tx() == Ack(old(Tx()), datalen as int)
    {
      PendingAfterAck(Tx(), datalen as int);
      CursorInvariant(Tx());
      ghost var before := Tx();
      ackedOffset := ackedOffset + datalen;
      ShiftAcked();
      assert Tx() == Ack(before, datalen as int);
      assert Queue(pendingChunks, pendingShifted as int) == Trim(Pending(before), ackedOffset as int);
    }

    /** quic_acked_stream_data_offset_cb, after the stream was looked up. */
    method AckedData(datalen: uint64)
      requires Valid() && ackedOffset as int + datalen as int <= sentOffset as int
      modifies `ackedOffset, `pendingChunks, `pendingShifted
      ensures Valid()
      ensures View() == old(View()).(tx := Ack(old(Tx()), datalen as int))
    {
      AckSendSide(datalen);
    }

    // ------------------------------------------------------------ receiving

    /** rb_str_buf_cat on @recv_buffer: in place when there is room for the
        bytes, else into larger storage. */
    method AppendToBuffer(data: seq<byte>)
      requires recvLen <= recvData.Length
      modifies this`recvData, this`recvLen, recvData
      ensures recvLen <= recvData.Length && (recvData == old(recvData) || fresh(recvData))
      ensures recvData[..recvLen] == old(recvData[..recvLen]) + data
    {
      if recvLen + |data| > recvData.Length {
        var larger := new byte[recvLen + |data|];
        forall i | 0 <= i < recvLen { larger[i] := recvData[i]; }
        recvData := larger;
      }
      forall i | 0 <= i < |data| { recvData[recvLen + i] := data[i]; }
      recvLen := recvLen + |data|;
    }

    /** Drops the first `take` bytes of @recv_buffer: memmove, then truncate. */
    method DropFromBuffer(take: nat)
      requires take <= recvLen <= recvData.Length
      modifies this`recvLen, recvData
      ensures recvLen <= recvData.Length
      ensures recvData[..recvLen] == old(recvData[take..recvLen])
    {
      var have := recvLen;
      if take < have {
        forall i | 0 <= i < have - take { recvData[i] := recvData[i + take]; }
      }
      recvLen := have - take;
    }

    method ReceiveSide(data: seq<byte>, fin: bool)
      requires RecvOk() && |received| + |data| <= MAX_STREAM_OFFSET
      modifies this`recvData, this`recvLen, this`received, this`finReceived, recvData
      ensures RecvOk() && (recvData == old(recvData) || fresh(recvData))
      ensures Rx() == Receiver(old(received) + data, old(delivered), old(finReceived) || fin)
    {
      BufferedGrows(Rx(), data, fin);
      if |data| > 0 { AppendToBuffer(data); }
      received := received + data;
      if fin { finReceived := true; }
    }

    /** quic_recv_stream_data_cb, after the stream was looked up. */
    method ReceiveData(data: seq<byte>, fin: bool)
      requires Valid() && |received| + |data| <= MAX_STREAM_OFFSET
      modifies `acceptQueued, `recvData, `recvLen, `received, `finReceived, recvData
      ensures Valid() && (recvData == old(recvData) || fresh(recvData))
      ensures View() == Receive(old(View()), data, fin)
    {
      if !acceptQueued && streamId % 2 == 1 { acceptQueued := true; }
      ReceiveSide(data, fin);
      assert Tx() == old(Tx());
    }

    method ReadSide(length: int) returns (r: ReadResult)
      requires RecvOk()
      modifies this`recvLen, this`delivered, recvData
      ensures RecvOk() && (Rx(), r) == Read(old(Rx()), length)
    {
      if length < 0 { return NegativeLength; }
      var have := recvLen;
      if have == 0 {
        return if finReceived then EndOfFile else WaitReadable;
      }
      var take := if length < have then length else have;
      var out := recvData[..take];
      assert out == Buffered(Rx())[..take];
      delivered := delivered + out;
      DropFromBuffer(take);
      return Data(out);
    }

    method ReadNonblock(length: int) returns (r: ReadResult)
      requires Valid()
      modifies `recvLen, `delivered, recvData
      ensures Valid()
      ensures View() == old(View()).(rx := Read(old(Rx()), length).0) && r == Read(old(Rx()), length).1
    {
      r := ReadSide(length);
    }

    method IsEof() returns (b: bool)
      requires Valid()
      ensures b <==> Eof(Rx())
    {
      b := recvLen == 0 && finReceived;
      assert Rx().received == Rx().delivered + recvData[..recvLen];
    }

    method PeerReset(code: uint64)
      requires Valid()
      modifies `reset, `closeAppErrorCode, `closeHasAppErrorCode
      ensures Valid()
      ensures View() == MarkReset(old(View()), code as int)
    {
      reset, closeAppErrorCode, closeHasAppErrorCode := true, code, true;
    }

    method Close(hasCode: bool, code: uint64)
      requires Valid()
      modifies `closed, `closeAppErrorCode, `closeHasAppErrorCode
      ensures Valid()
      ensures View() == MarkClosed(old(View()), hasCode, code as int)
    {
      closed := true;
      if hasCode {
        closeHasAppErrorCode, closeAppErrorCode := true, code;
      }
    }
  }
}
