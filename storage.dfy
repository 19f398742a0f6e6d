/**
 * The task store: an ordered key-value map with `insert`, `get`, `remove`,
 * `clear`, `size` and `values`. Inserting under a new key appends it to the
 * iteration order; inserting under a present key overwrites the record in
 * place; removing a key drops it from the order.
 */
module Storage {

  import opened Optional

  /** No key occurs twice in `s`. */
  predicate Distinct<K(==,!new)>(s: seq<K>) {
    forall i, j :: 0 <= i < j < |s| ==> s[i] != s[j]
  }

  /** `r` is `s` with some elements left out and the others in their order in `s`. */
  predicate Subsequence<T(==)>(r: seq<T>, s: seq<T>)
    decreases |s|
  {
    r == [] || (s != [] && ((r[0] == s[0] && Subsequence(r[1..], s[1..])) || Subsequence(r, s[1..])))
  }

  /** One step of a filter: keeping or dropping `x` in front of a kept part of `tail`. */
  lemma FilterStep<T>(x: T, tail: seq<T>, rest: seq<T>, keep: bool)
    requires Subsequence(rest, tail)
    ensures Subsequence((if keep then [x] else []) + rest, [x] + tail)
    ensures multiset((if keep then [x] else []) + rest)
         == (if keep then multiset{x} else multiset{}) + multiset(rest)
    ensures multiset([x] + tail) == multiset{x} + multiset(tail)
  {
    assert ([x] + tail)[1..] == tail;
    if keep {
      assert ([x] + rest)[1..] == rest;
    } else {
      assert [] + rest == rest;
    }
  }

  /** `s` with `k` taken out, the other keys in their old order. */
  function Without<K(==,!new)>(s: seq<K>, k: K): (r: seq<K>)
    ensures Subsequence(r, s)
    ensures forall j :: j in r <==> j in s && j != k
    ensures |r| <= |s|
    ensures Distinct(s) ==> Distinct(r)
    ensures Distinct(s) && k in s ==> |r| == |s| - 1
    ensures k !in s ==> r == s
  {
    if s == [] then []
    else
      var rest := Without(s[1..], k);
      assert forall j :: j in s[1..] ==> j in s;
      assert Distinct(s) ==> Distinct(s[1..]) && s[0] !in s[1..];
      if s[0] == k then rest
      else
        assert ([s[0]] + rest)[1..] == rest;
        [s[0]] + rest
  }

  /** The records listed in the order their keys appear in `order`. */
  function ValuesOf<K(==,!new), V(!new)>(order: seq<K>, records: map<K, V>): (vs: seq<V>)
    requires forall k :: k in order ==> k in records
    ensures |vs| == |order|
    ensures forall i :: 0 <= i < |order| ==> vs[i] == records[order[i]]
  {
    if order == [] then [] else [records[order[0]]] + ValuesOf(order[1..], records)
  }

  /** The values of a non-empty key order: the first key's record, then the values of the rest. */
  lemma ValuesOfCons<K(!new), V(!new)>(order: seq<K>, records: map<K, V>)
    requires order != [] && forall k :: k in order ==> k in records
    ensures ValuesOf(order, records)[0] == records[order[0]]
    ensures ValuesOf(order, records)[1..] == ValuesOf(order[1..], records)
  {
  }

  /** The abstract value of a store: its iteration order and its key-to-record map. */
  datatype Snapshot<K(==,!new), V(!new)> = Snapshot(order: seq<K>, records: map<K, V>) {

    /** Every key is listed exactly once in the order. */
    ghost predicate Valid() {
      && Distinct(order)
      && (forall k :: k in records <==> k in order)
      && |records| == |order|
    }

    /** `insert(k, v)`: overwrite in place, or append a new key. */
    function Put(k: K, v: V): (s: Snapshot<K, V>)
      requires Valid()
      ensures s.Valid()
      ensures k in s.records && s.records[k] == v
      ensures forall j :: j != k ==> (j in s.records <==> j in records)
      ensures forall j :: j != k && j in records ==> s.records[j] == records[j]
      ensures k in records ==> s.order == order
      ensures k !in records ==> s.order == order + [k]
    {
      if k in records then Snapshot(order, records[k := v])
      else Snapshot(order + [k], records[k := v])
    }

    /** `remove(k)`: the key and its record disappear, everything else stays. */
    function Delete(k: K): (s: Snapshot<K, V>)
      requires Valid()
      ensures s.Valid()
      ensures Subsequence(s.order, order)
      ensures k !in s.records
      ensures forall j :: j != k ==> (j in s.records <==> j in records)
      ensures forall j :: j != k && j in records ==> s.records[j] == records[j]
      ensures k !in records ==> s == this
    {
      if k in records then
        RemoveOneKey(records, k);
        Snapshot(Without(order, k), records - {k})
      else
        assert records - {k} == records;
        Snapshot(Without(order, k), records - {k})
    }

    /** `values()`: every record, in iteration order. */
    function Values(): (vs: seq<V>)
      requires Valid()
      ensures |vs| == |records|
      ensures forall v :: v in vs <==> exists k :: k in records && records[k] == v
    {
      var vs := ValuesOf(order, records);
      assert forall k :: k in records ==> records[k] == vs[IndexOf(order, k)];
      vs
    }
  }

  /** Taking a present key out of a map leaves one entry fewer. */
  lemma RemoveOneKey<K, V>(m: map<K, V>, k: K)
    requires k in m
    ensures |m - {k}| == |m| - 1
  {
    assert (m - {k}).Keys == m.Keys - {k};
    assert m.Keys == (m.Keys - {k}) + {k};
  }

  /** The empty store. */
  function Empty<K(==,!new), V(!new)>(): (s: Snapshot<K, V>)
    ensures s.Valid() && s.records == map[] && s.Values() == []
  {
    Snapshot([], map[])
  }

  /**
   * What `next == acc.Put(k, v)` says of the keys and records: the old keys
   * stay first in the order, `k` holds `v`, and every other key is as in `acc`.
   */
  ghost predicate PutFacts<K(!new), V(!new)>(acc: Snapshot<K, V>, k: K, v: V, next: Snapshot<K, V>) {
    && |acc.order| <= |next.order| && next.order[..|acc.order|] == acc.order
    && k in next.records && next.records[k] == v
    && (forall j :: j != k ==> (j in next.records <==> j in acc.records))
    && (forall j :: j != k && j in acc.records ==> next.records[j] == acc.records[j])
  }

  /** `Put` keeps the old keys first, stores `v` under `k` and leaves every other key alone. */
  lemma PutHasFacts<K(!new), V(!new)>(acc: Snapshot<K, V>, k: K, v: V)
    requires acc.Valid()
    ensures PutFacts(acc, k, v, acc.Put(k, v))
  {
    var next := acc.Put(k, v);
    if k in acc.records {
      assert next.order[..|acc.order|] == acc.order;
    } else {
      assert next.order[..|acc.order|] == (acc.order + [k])[..|acc.order|] == acc.order;
    }
  }

  /** Inserting under a new key appends the record to `values()` and grows the store by one. */
  lemma PutNewKeyAppends<K(!new), V(!new)>(s: Snapshot<K, V>, k: K, v: V)
    requires s.Valid() && k !in s.records
    ensures s.Put(k, v).Values() == s.Values() + [v]
    ensures |s.Put(k, v).records| == |s.records| + 1
  {
    var s' := s.Put(k, v);
    var before, after := ValuesOf(s.order, s.records), ValuesOf(s'.order, s'.records);
    forall i | 0 <= i < |s.order|
      ensures after[i] == before[i]
    {
      assert s'.order[i] == s.order[i] != k;
    }
    assert after == before + [v];
  }

  /** Where `k` sits in `s`. */
  function IndexOf<K(==,!new)>(s: seq<K>, k: K): (i: nat)
    requires k in s
    ensures i < |s| && s[i] == k
  {
    if s[0] == k then 0 else 1 + IndexOf(s[1..], k)
  }

  /** The mutable store the handlers share (`listStorage`). */
  class Store<K(==,!new), V(!new)> {
    var order: seq<K>
    var records: map<K, V>

    function State(): Snapshot<K, V>
      reads this
    {
      Snapshot(order, records)
    }

    ghost predicate Valid()
      reads this
    {
      State().Valid()
    }

    constructor ()
      ensures Valid() && State() == Empty()
    {
      order := [];
      records := map[];
    }

    method Insert(k: K, v: V)
      requires Valid()
      modifies this
      ensures Valid() && State() == old(State()).Put(k, v)
    {
      if k !in records {
        order := order + [k];
      }
      records := records[k := v];
    }

    method Get(k: K) returns (r: Option<V>)
      requires Valid()
      ensures r.Some? <==> k in records
      ensures r.Some? ==> r.value == records[k]
    {
      r := if k in records then Some(records[k]) else None;
    }

    /** Takes `k` out and hands back what was stored there. */
    method Remove(k: K) returns (r: Option<V>)
      requires Valid()
      modifies this
      ensures Valid() && State() == old(State()).Delete(k)
      ensures r.Some? <==> k in old(records)
      ensures r.Some? ==> r.value == old(records)[k]
    {
      if k in records {
        r := Some(records[k]);
        order := Without(order, k);
        records := records - {k};
      } else {
        r := None;
      }
    }

    method Clear()
      modifies this
      ensures Valid() && State() == Empty()
    {
      order := [];
      records := map[];
    }

    method Size() returns (n: nat)
      requires Valid()
      ensures n == |records| && n == |State().Values()|
    {
      n := |order|;
    }

    /** A fresh snapshot sequence of the records, in iteration order. */
    method Values() returns (vs: seq<V>)
      requires Valid()
      ensures vs == State().Values()
    {
      vs := ValuesOf(order, records);
    }
  }
}
