/** A Ruby Hash with Integer keys: a table that remembers insertion order. */
module RubyHash {
  datatype Hash<V> = Hash(keys: seq<int>, table: map<int, V>) {
    ghost predicate Valid() {
      && Distinct(keys)
      && (forall k :: k in keys <==> k in table)
    }

    // Storing under a known key replaces the value and keeps the key's place.
    function Store(k: int, v: V): Hash<V> {
      Hash(if k in table then keys else keys + [k], table[k := v])
    }

    function Delete(k: int): Hash<V> {
      Hash(Without(keys, k), table - {k})
    }
  }

  ghost predicate Distinct(keys: seq<int>) {
    forall i, j :: 0 <= i < j < |keys| ==> keys[i] != keys[j]
  }

  function Without(keys: seq<int>, k: int): (r: seq<int>)
    ensures forall x :: x in r <==> x in keys && x != k
    ensures |r| <= |keys|
  {
    if keys == [] then []
    else if keys[0] == k then Without(keys[1..], k)
    else [keys[0]] + Without(keys[1..], k)
  }

  lemma WithoutCons(x: int, keys: seq<int>, k: int)
    ensures Without([x] + keys, k) == (if x == k then [] else [x]) + Without(keys, k)
  {
    assert ([x] + keys)[1..] == keys;
  }

  lemma {:induction false} WithoutAbsent(keys: seq<int>, k: int)
    requires k !in keys
    ensures Without(keys, k) == keys
  {
    if keys != [] { WithoutAbsent(keys[1..], k); }
  }

  /** Deleting takes one key out and keeps the others in their order. */
  lemma {:induction false} WithoutKeepsOrder(keys: seq<int>, i: nat)
    requires i < |keys| && Distinct(keys)
    ensures Without(keys, keys[i]) == keys[..i] + keys[i + 1..]
  {
    if i == 0 {
      WithoutAbsent(keys[1..], keys[0]);
    } else {
      WithoutKeepsOrder(keys[1..], i - 1);
      assert keys[..i] == [keys[0]] + keys[1..][..i - 1];
    }
  }

  lemma StoreIsValid<V>(h: Hash<V>, k: int, v: V)
    requires h.Valid()
    ensures h.Store(k, v).Valid()
    ensures h.keys <= h.Store(k, v).keys
  {
    var r := h.Store(k, v);
    forall x ensures x in r.keys <==> x in r.table {
      assert x in h.keys <==> x in h.table;
    }
  }

  /** Storing a new key puts it last; a known one keeps its place. No other entry
      changes. */
  lemma StoreIsExact<V>(h: Hash<V>, k: int, v: V)
    requires h.Valid()
    ensures var r := h.Store(k, v);
            && r.Valid()
            && r.keys == h.keys + (if k in h.keys then [] else [k])
            && k in r.table && r.table[k] == v
            && (forall x :: x in h.table && x != k ==> x in r.table && r.table[x] == h.table[x])
  {
    StoreIsValid(h, k, v);
  }

  /** Deleting takes out one entry; the others keep their values and their order. */
  lemma DeleteIsExact<V>(h: Hash<V>, i: nat)
    requires h.Valid() && i < |h.keys|
    ensures var r := h.Delete(h.keys[i]);
            && r.Valid()
            && r.keys == h.keys[..i] + h.keys[i + 1..]
            && h.keys[i] !in r.table
            && (forall x :: x in h.table && x != h.keys[i] ==> x in r.table && r.table[x] == h.table[x])
  {
    WithoutKeepsOrder(h.keys, i);
    DeleteIsValid(h, h.keys[i]);
  }

  lemma DeleteIsValid<V>(h: Hash<V>, k: int)
    requires h.Valid()
    ensures h.Delete(k).Valid()
  {
    if k in h.keys {
      var i :| 0 <= i < |h.keys| && h.keys[i] == k;
      WithoutKeepsOrder(h.keys, i);
    } else {
      WithoutAbsent(h.keys, k);
    }
  }
}
