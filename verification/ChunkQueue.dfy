/** The pending chunk queue of a stream: what acknowledgements drop from its
    head, and how the next unsent byte is found in it. */
module ChunkQueue {
  import opened Bytes

  // `shifted` bytes have been dropped in front of `chunks`.
  datatype Queue = Queue(chunks: seq<seq<byte>>, shifted: nat)

  ghost predicate NonEmpty(chunks: seq<seq<byte>>) {
    forall i :: 0 <= i < |chunks| ==> chunks[i] != []
  }

  // Offset `b` is where some chunk of the queue starts, or where the last one ends.
  ghost predicate IsBoundary(q: Queue, b: int) {
    exists k :: 0 <= k <= |q.chunks| && b == q.shifted + |Flatten(q.chunks[..k])|
  }

  /** Drops every head chunk that `acked` covers completely. */
  function Trim(q: Queue, acked: nat): Queue
    decreases |q.chunks|
  {
    if q.chunks != [] && q.shifted + |q.chunks[0]| <= acked
    then Trim(Queue(q.chunks[1..], q.shifted + |q.chunks[0]|), acked)
    else q
  }

  lemma {:induction false} TrimAdditive(q: Queue, a: nat, b: nat)
    requires a <= b
    ensures Trim(Trim(q, a), b) == Trim(q, b)
    decreases |q.chunks|
  {
    if q.chunks != [] && q.shifted + |q.chunks[0]| <= a {
      TrimAdditive(Queue(q.chunks[1..], q.shifted + |q.chunks[0]|), a, b);
    }
  }

  /** Trimming loses only bytes below `acked`; the rest keeps its absolute offset. */
  lemma {:induction false} TrimKeepsTail(q: Queue, acked: nat)
    requires q.shifted <= acked
    ensures var t := Trim(q, acked);
            && q.shifted <= t.shifted <= acked
            && t.shifted <= q.shifted + |Flatten(q.chunks)|
            && Flatten(t.chunks) == Flatten(q.chunks)[t.shifted - q.shifted..]
            && (forall c :: c in t.chunks ==> c in q.chunks)
    decreases |q.chunks|
  {
    if q.chunks != [] && q.shifted + |q.chunks[0]| <= acked {
      TrimKeepsTail(Queue(q.chunks[1..], q.shifted + |q.chunks[0]|), acked);
    }
  }

  lemma TrimHead(q: Queue, acked: nat, head: seq<byte>, tail: seq<seq<byte>>)
    requires q.chunks == [head] + tail && q.shifted + |head| <= acked
    ensures Trim(q, acked) == Trim(Queue(tail, q.shifted + |head|), acked)
  {
    assert q.chunks[1..] == tail;
  }

  lemma {:induction false} TrimPush(q: Queue, acked: nat, c: seq<byte>)
    requires acked < q.shifted + |Flatten(q.chunks)| + |c|
    ensures Trim(Queue(q.chunks + [c], q.shifted), acked)
            == Queue(Trim(q, acked).chunks + [c], Trim(q, acked).shifted)
    decreases |q.chunks|
  {
    if q.chunks != [] && q.shifted + |q.chunks[0]| <= acked {
      var head, tail := q.chunks[0], q.chunks[1..];
      TrimPush(Queue(tail, q.shifted + |head|), acked, c);
      TrimHead(q, acked, head, tail);
      TrimHead(Queue(q.chunks + [c], q.shifted), acked, head, tail + [c]);
    } else {
      assert (q.chunks + [c])[0] == if q.chunks == [] then c else q.chunks[0];
    }
  }

  lemma BoundaryOfTail(q: Queue, b: int)
    requires q.chunks != []
    ensures IsBoundary(q, b) <==>
            b == q.shifted || IsBoundary(Queue(q.chunks[1..], q.shifted + |q.chunks[0]|), b)
  {
    var t := Queue(q.chunks[1..], q.shifted + |q.chunks[0]|);
    assert q.chunks[..0] == [];
    forall k | 1 <= k <= |q.chunks|
      ensures |Flatten(q.chunks[..k])| == |q.chunks[0]| + |Flatten(t.chunks[..k - 1])|
    {
      assert q.chunks[..k][1..] == t.chunks[..k - 1];
    }
    if IsBoundary(t, b) {
      var k :| 0 <= k <= |t.chunks| && b == t.shifted + |Flatten(t.chunks[..k])|;
      assert |Flatten(q.chunks[..k + 1])| == |q.chunks[0]| + |Flatten(t.chunks[..k])|;
    }
  }

  lemma BoundaryAtLeastStart(q: Queue, b: int)
    requires IsBoundary(q, b)
    ensures q.shifted <= b
    ensures b > q.shifted && q.chunks != [] ==> q.shifted + |q.chunks[0]| <= b
  {
    if q.chunks != [] && b > q.shifted {
      BoundaryOfTail(q, b);
    }
  }

  /** After trimming, `shifted` is the largest chunk boundary at or below `acked`. */
  lemma {:induction false} TrimStopsAtLargestBoundary(q: Queue, acked: nat)
    requires NonEmpty(q.chunks) && q.shifted <= acked
    ensures IsBoundary(q, Trim(q, acked).shifted) && Trim(q, acked).shifted <= acked
    ensures forall b :: IsBoundary(q, b) && b <= acked ==> b <= Trim(q, acked).shifted
    decreases |q.chunks|
  {
    if q.chunks != [] && q.shifted + |q.chunks[0]| <= acked {
      var t := Queue(q.chunks[1..], q.shifted + |q.chunks[0]|);
      TrimStopsAtLargestBoundary(t, acked);
      BoundaryOfTail(q, Trim(q, acked).shifted);
      forall b | IsBoundary(q, b) && b <= acked ensures b <= Trim(q, acked).shifted {
        BoundaryOfTail(q, b);
        assert IsBoundary(t, t.shifted) by { assert t.chunks[..0] == []; }
      }
    } else {
      assert q.chunks[..0] == [];
      forall b | IsBoundary(q, b) && b <= acked ensures b <= q.shifted {
        BoundaryAtLeastStart(q, b);
        if q.chunks == [] { var k :| 0 <= k <= |q.chunks| && b == q.shifted + |Flatten(q.chunks[..k])|; }
      }
    }
  }

  datatype Place = NotFound | Found(index: nat, offset: nat)

  /** The chunk that holds byte `position` of the queue, and the place in it. */
  function Walk(chunks: seq<seq<byte>>, position: nat): (p: Place)
    ensures p.Found? ==> p.index < |chunks| && p.offset < |chunks[p.index]|
  {
    if chunks == [] then NotFound
    else if position < |chunks[0]| then Found(0, position)
    else Later(Walk(chunks[1..], position - |chunks[0]|), 1)
  }

  function Later(p: Place, j: nat): Place {
    if p.NotFound? then NotFound else Found(p.index + j, p.offset)
  }

  /** Where the chunk that holds byte `position` ends. */
  function ChunkEnd(chunks: seq<seq<byte>>, position: nat): (end: nat)
    requires position < |Flatten(chunks)|
    ensures position < end <= |Flatten(chunks)|
  {
    if position < |chunks[0]| then |chunks[0]|
    else |chunks[0]| + ChunkEnd(chunks[1..], position - |chunks[0]|)
  }

  lemma {:induction false} ChunkEndIsNextBoundary(chunks: seq<seq<byte>>, position: nat)
    requires position < |Flatten(chunks)|
    ensures IsBoundary(Queue(chunks, 0), ChunkEnd(chunks, position))
    ensures forall b :: IsBoundary(Queue(chunks, 0), b) && position < b ==> ChunkEnd(chunks, position) <= b
  {
    var q := Queue(chunks, 0);
    var t := Queue(chunks[1..], |chunks[0]|);
    if position < |chunks[0]| {
      assert t.chunks[..0] == [];
      assert IsBoundary(t, |chunks[0]|);
      BoundaryOfTail(q, |chunks[0]|);
      forall b | IsBoundary(q, b) && position < b ensures |chunks[0]| <= b {
        BoundaryAtLeastStart(q, b);
      }
    } else {
      var p := position - |chunks[0]|;
      ChunkEndIsNextBoundary(chunks[1..], p);
      forall b | IsBoundary(q, b) && position < b ensures ChunkEnd(chunks, position) <= b {
        BoundaryOfTail(q, b);
        BoundaryShift(chunks[1..], |chunks[0]|, b);
      }
      BoundaryShift(chunks[1..], |chunks[0]|, ChunkEnd(chunks, position));
      BoundaryOfTail(q, ChunkEnd(chunks, position));
    }
  }

  lemma BoundaryShift(chunks: seq<seq<byte>>, base: nat, b: int)
    ensures IsBoundary(Queue(chunks, base), b) <==> IsBoundary(Queue(chunks, 0), b - base)
  {
    if IsBoundary(Queue(chunks, base), b) {
      var k :| 0 <= k <= |chunks| && b == base + |Flatten(chunks[..k])|;
      assert Queue(chunks, 0).chunks[..k] == chunks[..k];
    }
    if IsBoundary(Queue(chunks, 0), b - base) {
      var k :| 0 <= k <= |chunks| && b - base == |Flatten(chunks[..k])|;
      assert Queue(chunks, base).chunks[..k] == chunks[..k];
    }
  }

  /** The walk refines flat indexing into the concatenation. */
  lemma {:induction false} WalkIsFlatIndexing(chunks: seq<seq<byte>>, position: nat)
    requires NonEmpty(chunks)
    ensures Walk(chunks, position).NotFound? <==> |Flatten(chunks)| <= position
    ensures position < |Flatten(chunks)| ==>
              var p, end := Walk(chunks, position), ChunkEnd(chunks, position);
              && p.Found?
              && chunks[p.index][p.offset..] == Flatten(chunks)[position..end]
              && (p.index == |chunks| - 1 <==> end == |Flatten(chunks)|)
  {
    if chunks != [] && |chunks[0]| <= position {
      var rest := chunks[1..];
      WalkIsFlatIndexing(rest, position - |chunks[0]|);
      if position < |Flatten(chunks)| {
        var end := ChunkEnd(chunks, position);
        assert Flatten(chunks)[position..end] == Flatten(rest)[position - |chunks[0]|..end - |chunks[0]|];
      }
    } else if chunks != [] {
      assert |Flatten(chunks)| == |chunks[0]| + |Flatten(chunks[1..])|;
      if |chunks| > 1 {
        assert Flatten(chunks[1..]) == chunks[1] + Flatten(chunks[1..][1..]);
      }
    }
  }

  /** What the queue offers from absolute offset `at`: the rest of the chunk
      found there, and whether that chunk is the last one. */
  function OfferFrom(q: Queue, at: nat): Option<(seq<byte>, bool)>
    requires q.shifted <= at
  {
    var p := Walk(q.chunks, at - q.shifted);
    if p.NotFound? then None
    else Some((q.chunks[p.index][p.offset..], p.index == |q.chunks| - 1))
  }

  lemma {:induction false} TrimStaysBelow(q: Queue, acked: nat)
    requires q.shifted <= acked
    ensures q.shifted <= Trim(q, acked).shifted <= acked
    decreases |q.chunks|
  {
    if q.chunks != [] && q.shifted + |q.chunks[0]| <= acked {
      TrimStaysBelow(Queue(q.chunks[1..], q.shifted + |q.chunks[0]|), acked);
    }
  }

  lemma OfferSkipsHead(q: Queue, at: nat)
    requires q.chunks != [] && q.shifted + |q.chunks[0]| <= at
    ensures OfferFrom(q, at) == OfferFrom(Queue(q.chunks[1..], q.shifted + |q.chunks[0]|), at)
  {
  }

  /** Acknowledging first changes nothing in what is offered next. */
  lemma {:induction false} TrimCommutesWithOffer(q: Queue, acked: nat, at: nat)
    requires q.shifted <= acked <= at
    ensures Trim(q, acked).shifted <= at
    ensures OfferFrom(Trim(q, acked), at) == OfferFrom(q, at)
    decreases |q.chunks|
  {
    TrimStaysBelow(q, acked);
    if q.chunks != [] && q.shifted + |q.chunks[0]| <= acked {
      OfferSkipsHead(q, at);
      TrimCommutesWithOffer(Queue(q.chunks[1..], q.shifted + |q.chunks[0]|), acked, at);
    }
  }
}
