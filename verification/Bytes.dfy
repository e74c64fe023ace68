/** Machine types and byte strings shared by every module. */
module Bytes {
  newtype byte = x: int | 0 <= x < 256
  newtype uint64 = x: int | 0 <= x < 0x1_0000_0000_0000_0000

  // A Ruby String keeps its length in a C `long`.
  const LONG_MAX: int := 0x7FFF_FFFF_FFFF_FFFF

  // Largest offset on a QUIC stream (section 4.5 of RFC 9000).
  const MAX_STREAM_OFFSET: int := 0x3FFF_FFFF_FFFF_FFFF

  datatype Option<+T> = None | Some(value: T)

  /** The byte string that a list of chunks spells out. */
  function Flatten(ss: seq<seq<byte>>): seq<byte> {
    if ss == [] then [] else ss[0] + Flatten(ss[1..])
  }

  lemma Associate<T>(a: seq<T>, b: seq<T>, c: seq<T>)
    ensures (a + b) + c == a + (b + c)
  {
  }

  lemma {:induction false} FlattenConcat(a: seq<seq<byte>>, b: seq<seq<byte>>)
    ensures Flatten(a + b) == Flatten(a) + Flatten(b)
  {
    if a == [] {
      assert a + b == b;
    } else {
      FlattenConcat(a[1..], b);
      assert (a + b)[1..] == a[1..] + b;
      Associate(a[0], Flatten(a[1..]), Flatten(b));
    }
  }

  lemma FlattenPush(a: seq<seq<byte>>, c: seq<byte>)
    ensures Flatten(a + [c]) == Flatten(a) + c
  {
    FlattenConcat(a, [c]);
    assert Flatten([c]) == c + Flatten([]);
  }
}
