/** Python's `dict` as a value: a map together with the order in which its
    keys were first inserted.  Iteration (`values()`) follows that order,
    replacing the value of an existing key keeps its position, and `pop`
    removes the key from both. */
module Dicts {

  datatype Dict<K(==), V> = Dict(order: seq<K>, entries: map<K, V>) {

    /** Every key appears exactly once in `order`, and `order` lists
        exactly the keys of `entries`. */
    predicate Valid() {
      && Distinct(order)
      && (forall k | k in entries :: k in order)
      && (forall i | 0 <= i < |order| :: order[i] in entries)
    }

    /** The values in insertion order, as `list(d.values())` returns them */
    function Values(): (vs: seq<V>)
      requires Valid()
      ensures |vs| == |order|
      ensures forall i | 0 <= i < |order| :: vs[i] == entries[order[i]]
    {
      seq(|order|, i requires 0 <= i < |order| => entries[order[i]])
    }

    /** `d[k] = v` */
    function Put(k: K, v: V): (d: Dict<K, V>)
      requires Valid()
      ensures d.Valid()
      ensures d.entries == entries[k := v]
      ensures k in entries ==> d.order == order
      ensures k !in entries ==> d.order == order + [k]
    {
      if k in entries then Dict(order, entries[k := v])
      else Dict(order + [k], entries[k := v])
    }

    /** Storing a new key appends its value to the iteration order; storing
        an existing key replaces its value in place */
    lemma PutValues(k: K, v: V)
      requires Valid()
      ensures k !in entries ==> Put(k, v).Values() == Values() + [v]
      ensures k in entries ==> |Put(k, v).Values()| == |Values()|
    {
      if k !in entries {
        var d := Put(k, v);
        assert forall i | 0 <= i < |order| :: order[i] != k;
        assert forall i | 0 <= i < |order| :: d.Values()[i] == Values()[i];
      }
    }

    /** `d.pop(k, None)`: removes `k` if present, otherwise no change */
    function Pop(k: K): (d: Dict<K, V>)
      requires Valid()
      ensures d.Valid()
      ensures d.entries == entries - {k}
      ensures k !in entries ==> d == this
    {
      if k in entries then Dict(Without(order, k), entries - {k}) else this
    }

    /** Popping a key just stored under a new key gives back the dictionary
        as it was, iteration order included */
    lemma PutThenPop(k: K, v: V)
      requires Valid() && k !in entries
      ensures Put(k, v).Pop(k) == this
    {
      WithoutAppended(order, k);
      assert entries[k := v] - {k} == entries;
    }
  }

  function Empty<K(==), V>(): (d: Dict<K, V>)
    ensures d.Valid() && d.entries == map[] && d.order == []
  {
    Dict([], map[])
  }

  predicate Distinct<K(==)>(s: seq<K>) {
    forall i, j | 0 <= i < j < |s| :: s[i] != s[j]
  }

  /** `s` with every occurrence of `k` removed, keeping the order of the rest */
  function Without<K(==)>(s: seq<K>, k: K): (r: seq<K>)
    ensures forall i | 0 <= i < |r| :: r[i] in s && r[i] != k
    ensures forall i | 0 <= i < |s| && s[i] != k :: s[i] in r
    ensures Distinct(s) ==> Distinct(r)
  {
    if s == [] then []
    else if s[0] == k then Without(s[1..], k)
    else [s[0]] + Without(s[1..], k)
  }

  /** Removal works piece by piece, so the rest keep their order */
  lemma {:induction false} WithoutConcat<K>(s: seq<K>, t: seq<K>, k: K)
    ensures Without(s + t, k) == Without(s, k) + Without(t, k)
  {
    if s != [] {
      assert (s + t)[0] == s[0];
      assert (s + t)[1..] == s[1..] + t;
      WithoutConcat(s[1..], t, k);
    } else {
      assert s + t == t;
    }
  }

  /** Removing a key appended to a sequence without it leaves that sequence */
  lemma WithoutAppended<K>(s: seq<K>, k: K)
    requires k !in s
    ensures Without(s + [k], k) == s
  {
    WithoutAbsent(s, k);
    WithoutConcat(s, [k], k);
    assert [k][1..] == [];
  }

  /** Removing a key that does not occur changes nothing */
  lemma {:induction false} WithoutAbsent<K>(s: seq<K>, k: K)
    requires k !in s
    ensures Without(s, k) == s
  {
    if s != [] {
      assert k !in s[1..];
      WithoutAbsent(s[1..], k);
      assert s == [s[0]] + s[1..];
    }
  }
}
