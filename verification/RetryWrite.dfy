/** The documented way to write everything without blocking: call write_nonblock
    with `fin: true` again on the part that was not accepted. */
module RetryWrite {
  import opened Bytes
  import opened StreamModel
  import opened StreamAnswers
  import opened StreamTheorems

  // One call under a send window, and what else happens on the stream before the next.
  datatype Attempt = Attempt(window: nat, between: seq<StreamEvent>)

  predicate Quiet(e: StreamEvent) { e.Framed? || e.Acked? || e.Received? || e.ReadSome? }

  ghost predicate LegalAttempt(s: StreamState, data: seq<byte>, a: Attempt)
    requires Inv(s) && |data| <= LONG_MAX
  {
    && 0 < a.window
    && (forall e :: e in a.between ==> Quiet(e))
    && LegalRun(Apply(s, WriteSome(data, true, a.window)), a.between)
  }

  function After(s: StreamState, data: seq<byte>, a: Attempt): (r: StreamState)
    requires Inv(s) && |data| <= LONG_MAX && LegalAttempt(s, data, a)
    ensures Inv(r)
  {
    Run(Apply(s, WriteSome(data, true, a.window)), a.between)
  }

  // How many bytes one call reports.
  function Count(s: StreamState, data: seq<byte>, window: nat): nat {
    var r := WriteNonblock(s, data, true, window).1;
    if r.Queued? && r.count <= |data| then r.count else 0
  }

  ghost predicate LegalRetry(s: StreamState, data: seq<byte>, attempts: seq<Attempt>)
    requires Inv(s) && |data| <= LONG_MAX
    decreases |attempts|
  {
    attempts == []
    || (&& LegalAttempt(s, data, attempts[0])
        && var n := Count(s, data, attempts[0].window);
           n < |data| ==> LegalRetry(After(s, data, attempts[0]), data[n..], attempts[1..]))
  }

  /** The caller's loop; returns the stream and the bytes left over. */
  function Retry(s: StreamState, data: seq<byte>, attempts: seq<Attempt>): (StreamState, seq<byte>)
    requires Inv(s) && |data| <= LONG_MAX && LegalRetry(s, data, attempts)
    decreases |attempts|
  {
    if attempts == [] then (s, data)
    else
      var n, t := Count(s, data, attempts[0].window), After(s, data, attempts[0]);
      if n < |data| then Retry(t, data[n..], attempts[1..]) else (t, [])
  }

  lemma QuietStep(s: StreamState, e: StreamEvent)
    requires Inv(s) && Legal(s, e) && Quiet(e)
    ensures var r := Apply(s, e);
            r.tx.writes == s.tx.writes && r.tx.fin == s.tx.fin && r.reset == s.reset && r.closed == s.closed
  {
    match e
    case Framed(n, pdatalen) =>
    case Acked(_) =>
    case Received(_, _) =>
    case ReadSome(_) =>
  }

  lemma {:induction false} QuietKeepsWrites(s: StreamState, es: seq<StreamEvent>)
    requires Inv(s) && LegalRun(s, es) && forall e :: e in es ==> Quiet(e)
    ensures var r := Run(s, es);
            r.tx.writes == s.tx.writes && r.tx.fin == s.tx.fin && r.reset == s.reset && r.closed == s.closed
    decreases |es|
  {
    if es != [] {
      var t := Apply(s, es[0]);
      QuietStep(s, es[0]);
      QuietKeepsWrites(t, es[1..]);
    }
  }

  function Windows(attempts: seq<Attempt>): nat {
    if attempts == [] then 0 else attempts[0].window + Windows(attempts[1..])
  }

  /** One call takes as long a prefix as the window holds, in order, and queues the
      FIN exactly when it takes everything. */
  lemma AttemptTakesPrefix(s: StreamState, data: seq<byte>, a: Attempt)
    requires Inv(s) && |data| <= LONG_MAX && Open(s) && LegalAttempt(s, data, a)
    ensures var n, t := Count(s, data, a.window), After(s, data, a);
            && n == (if |data| < a.window then |data| else a.window)
            && Accepted(t.tx) == Accepted(s.tx) + data[..n]
            && !t.reset && !t.closed && (t.tx.fin <==> n == |data|)
  {
    var t := Apply(s, WriteSome(data, true, a.window));
    WriteNonblockIsExact(s, data, true, a.window);
    QuietKeepsWrites(t, a.between);
  }

  /** Over any sequence of non-zero windows, and whatever is framed, acked,
      received and read meanwhile: the accepted bytes are the original data in
      order, as many as the windows hold together; the FIN is queued exactly when
      they hold everything, so as many calls as there are bytes are enough. */
  lemma {:induction false} RetryAcceptsAll(s: StreamState, data: seq<byte>, attempts: seq<Attempt>)
    requires Inv(s) && |data| <= LONG_MAX && Open(s) && LegalRetry(s, data, attempts)
    ensures var (r, rest) := Retry(s, data, attempts);
            && Accepted(r.tx) + rest == Accepted(s.tx) + data
            && |rest| == (if Windows(attempts) < |data| then |data| - Windows(attempts) else 0)
            && (r.tx.fin <==> attempts != [] && |data| <= Windows(attempts))
            && !r.reset && !r.closed
            && (!r.tx.fin ==> |attempts| <= Windows(attempts))
            && (|data| <= |attempts| && attempts != [] ==> r.tx.fin)
    decreases |attempts|
  {
    if attempts != [] {
      var n, t := Count(s, data, attempts[0].window), After(s, data, attempts[0]);
      AttemptTakesPrefix(s, data, attempts[0]);
      assert data[..n] + data[n..] == data;
      if n < |data| {
        RetryAcceptsAll(t, data[n..], attempts[1..]);
        Associate(Accepted(s.tx), data[..n], data[n..]);
      } else {
        assert data[..n] == data;
      }
    }
  }
}
