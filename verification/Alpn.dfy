/** The ALPN wire encoder of Client._open: entries of a protocol name list
    (section 3.1 of RFC 7301), without the outer list length. */
module Alpn {
  import opened Bytes

  predicate ValidEntry(e: seq<byte>) { 1 <= |e| <= 255 }

  ghost predicate AllEntriesValid(es: seq<seq<byte>>) { forall i :: 0 <= i < |es| ==> ValidEntry(es[i]) }

  function EncodeEntry(e: seq<byte>): seq<byte>
    requires ValidEntry(e)
  {
    [|e| as byte] + e
  }

  function Encode(es: seq<seq<byte>>): seq<byte>
    requires AllEntriesValid(es)
  {
    if es == [] then [] else EncodeEntry(es[0]) + Encode(es[1..])
  }

  /** What the receiver of the list reads back. */
  function Parse(w: seq<byte>): Option<seq<seq<byte>>> {
    if w == [] then Some([])
    else
      var n := w[0] as int;
      if n == 0 || |w| < 1 + n then None
      else
        var rest := Parse(w[1 + n..]);
        if rest.None? then None else Some([w[1..1 + n]] + rest.value)
  }

  lemma {:induction false} ParseEncode(es: seq<seq<byte>>)
    requires AllEntriesValid(es)
    ensures Parse(Encode(es)) == Some(es)
  {
    if es != [] {
      ParseEncode(es[1..]);
      var w, n := Encode(es), |es[0]|;
      assert w[0] as int == n && w[1..1 + n] == es[0] && w[1 + n..] == Encode(es[1..]);
      assert [es[0]] + es[1..] == es;
    }
  }

  lemma {:induction false} EncodeParse(w: seq<byte>)
    requires Parse(w).Some?
    ensures AllEntriesValid(Parse(w).value) && Encode(Parse(w).value) == w
  {
    if w != [] {
      var n := w[0] as int;
      EncodeParse(w[1 + n..]);
      var first, rest := w[1..1 + n], Parse(w[1 + n..]).value;
      ValidCons(first, rest);
      SplitEntry(w);
    }
  }

  lemma SplitEntry(w: seq<byte>)
    requires w != [] && 1 <= w[0] as int < |w|
    ensures var n := w[0] as int; ValidEntry(w[1..1 + n]) && EncodeEntry(w[1..1 + n]) + w[1 + n..] == w
  {
    var n := w[0] as int;
    assert EncodeEntry(w[1..1 + n]) == w[..1 + n];
  }

  lemma ValidCons(e: seq<byte>, es: seq<seq<byte>>)
    requires ValidEntry(e) && AllEntriesValid(es)
    ensures AllEntriesValid([e] + es) && Encode([e] + es) == EncodeEntry(e) + Encode(es)
  {
    assert ([e] + es)[1..] == es;
  }

  /** Parsing inverts encoding on exactly the encodings of valid lists, so the
      encoding is injective. */
  lemma RoundTrip(es: seq<seq<byte>>, w: seq<byte>)
    requires AllEntriesValid(es)
    ensures Parse(w) == Some(es) <==> w == Encode(es)
  {
    ParseEncode(es);
    if Parse(w) == Some(es) { EncodeParse(w); }
  }

  lemma EncodeIsInjective(es: seq<seq<byte>>, fs: seq<seq<byte>>)
    requires AllEntriesValid(es) && AllEntriesValid(fs) && Encode(es) == Encode(fs)
    ensures es == fs
  {
    ParseEncode(es);
    ParseEncode(fs);
  }

  // ---------------------------------------------------------- size and length

  // The bound that the stack buffer for the encoding relies on.
  const WIRE_BOUND := 65536

  lemma {:induction false} EncodeIsBounded(es: seq<seq<byte>>)
    requires AllEntriesValid(es)
    ensures |Encode(es)| <= 256 * |es|
  {
    if es != [] { EncodeIsBounded(es[1..]); }
  }

  // `n` entries of the largest length.
  function Longest(n: nat): (es: seq<seq<byte>>)
    ensures |es| == n && AllEntriesValid(es)
  {
    seq(n, _ => seq(255, _ => 0))
  }

  lemma {:induction false} EncodeLongest(n: nat)
    ensures |Encode(Longest(n))| == 256 * n
  {
    if n > 0 {
      EncodeLongest(n - 1);
      assert Longest(n)[1..] == Longest(n - 1);
    }
  }

  /** A list with `n` entries is sure to fit the bound exactly when `n <= 256`;
      the number of entries is not checked. */
  lemma BoundNeedsFewEntries(n: nat)
    ensures (forall es :: |es| == n && AllEntriesValid(es) ==> |Encode(es)| <= WIRE_BOUND) <==> n <= 256
  {
    if n <= 256 {
      forall es | |es| == n && AllEntriesValid(es) ensures |Encode(es)| <= WIRE_BOUND {
        EncodeIsBounded(es);
      }
    } else {
      EncodeLongest(n);
      assert |Encode(Longest(n))| > WIRE_BOUND;
    }
  }

  /** 257 names of 255 bytes pass the check of the entries and exceed the bound. */
  lemma BoundBroken()
    ensures AllEntriesValid(Longest(257)) && |Encode(Longest(257))| == 65792 > WIRE_BOUND
  {
    EncodeLongest(257);
  }

  // The length goes to OpenSSL as an `unsigned int`.
  function Passed(total: nat): nat { total % 0x1_0000_0000 }

  /** The bytes given to OpenSSL spell the configured list exactly when the cast
      keeps the length of its encoding. */
  lemma OpenSslGetsListExactly(es: seq<seq<byte>>)
    requires AllEntriesValid(es)
    ensures var w := Encode(es);
            Parse(w[..Passed(|w|)]) == Some(es) <==> |w| < 0x1_0000_0000
  {
    var w := Encode(es);
    RoundTrip(es, w[..Passed(|w|)]);
    if |w| < 0x1_0000_0000 {
      assert Passed(|w|) == |w| && w[..|w|] == w;
    }
  }

  /** 2^24 names of 255 bytes encode to 2^32 bytes, of which the cast leaves none. */
  lemma CastLosesList()
    ensures var w := Encode(Longest(0x100_0000));
            |w| == 0x1_0000_0000 && Passed(|w|) == 0 && Parse(w[..Passed(|w|)]) == Some([])
  {
    EncodeLongest(0x100_0000);
  }

  // --------------------------------------------------------------- the encoder

  lemma {:induction false} EncodeConcat(es: seq<seq<byte>>, fs: seq<seq<byte>>)
    requires AllEntriesValid(es) && AllEntriesValid(fs)
    ensures AllEntriesValid(es + fs) && Encode(es + fs) == Encode(es) + Encode(fs)
  {
    if es == [] {
      assert es + fs == fs;
    } else {
      EncodeConcat(es[1..], fs);
      assert (es + fs)[1..] == es[1..] + fs;
      Associate(EncodeEntry(es[0]), Encode(es[1..]), Encode(fs));
    }
  }

  lemma EncodePrefix(es: seq<seq<byte>>, i: nat)
    requires i < |es| && AllEntriesValid(es[..i + 1])
    ensures AllEntriesValid(es[..i])
    ensures Encode(es[..i + 1]) == Encode(es[..i]) + EncodeEntry(es[i])
  {
    assert AllEntriesValid(es[..i]) && AllEntriesValid([es[i]]) by {
      assert forall k :: 0 <= k < i ==> es[..i][k] == es[..i + 1][k];
      assert es[i] == es[..i + 1][i];
    }
    EncodeConcat(es[..i], [es[i]]);
    assert es[..i] + [es[i]] == es[..i + 1];
    assert Encode([es[i]]) == EncodeEntry(es[i]) + [];
  }

  datatype Result = NotConfigured | BadEntry(length: nat) | Wire(wire: array<byte>, passed: nat)

  /** First pass: checks every entry and counts the bytes. */
  method CheckAndCount(entries: seq<seq<byte>>) returns (bad: Option<nat>, total: nat)
    ensures bad.None? <==> AllEntriesValid(entries)
    ensures bad.None? ==> total == |Encode(entries)|
    ensures bad.Some? ==> exists i :: 0 <= i < |entries| && bad.value == |entries[i]| && !ValidEntry(entries[i])
                                      && AllEntriesValid(entries[..i])
  {
    bad, total := None, 0;
    for i := 0 to |entries|
      invariant AllEntriesValid(entries[..i])
      invariant total == |Encode(entries[..i])|
      invariant bad.None?
    {
      var len := |entries[i]|;
      if len < 1 || len > 255 {
        return Some(len), total;
      }
      assert AllEntriesValid(entries[..i + 1]) by {
        assert forall k :: 0 <= k < i ==> entries[..i + 1][k] == entries[..i][k];
      }
      EncodePrefix(entries, i);
      total := total + 1 + len;
    }
    assert entries[..|entries|] == entries;
  }

  /** Second pass: writes length and bytes of every entry through a moving
      position, and fills exactly the bytes counted. */
  method Fill(entries: seq<seq<byte>>, wire: array<byte>)
    requires AllEntriesValid(entries) && wire.Length == |Encode(entries)|
    modifies wire
    ensures wire[..] == Encode(entries)
  {
    var p := 0;
    for i := 0 to |entries|
      invariant AllEntriesValid(entries[..i]) && AllEntriesValid(entries[i..])
      invariant p + |Encode(entries[i..])| == wire.Length
      invariant wire[..p] == Encode(entries[..i])
    {
      var entry := entries[i];
      assert entries[i..][0] == entry && entries[i..][1..] == entries[i + 1..];
      assert AllEntriesValid(entries[..i + 1]);
      EncodePrefix(entries, i);
      ghost var done := wire[..p];
      wire[p] := |entry| as byte;
      p := p + 1;
      forall k | 0 <= k < |entry| { wire[p + k] := entry[k]; }
      p := p + |entry|;
      assert wire[..p] == done + EncodeEntry(entry);
    }
    assert entries[..|entries|] == entries && wire[..p] == wire[..];
  }

  method EncodeAlpn(entries: seq<seq<byte>>) returns (r: Result)
    ensures r.NotConfigured? <==> entries == []
    ensures r.BadEntry? <==> !AllEntriesValid(entries)
    ensures r.Wire? ==> r.wire[..] == Encode(entries) && r.passed == Passed(|Encode(entries)|)
    ensures r.BadEntry? ==> exists i :: 0 <= i < |entries| && r.length == |entries[i]| && !ValidEntry(entries[i])
                                        && AllEntriesValid(entries[..i])
  {
    if |entries| == 0 { return NotConfigured; }
    var bad, total := CheckAndCount(entries);
    if bad.Some? { return BadEntry(bad.value); }
    var wire := new byte[total];
    Fill(entries, wire);
    return Wire(wire, total % 0x1_0000_0000);
  }
}
