/** JavaScript's `Map`: entries keep the position at which their key was first set. */
module InsertionMap {
  import opened Wrappers
  import opened Sequences

  datatype Entry<K, V> = Entry(key: K, value: V)
  type Entries<K, V> = seq<Entry<K, V>>

  function Keys<K, V>(m: Entries<K, V>): seq<K> {
    seq(|m|, i requires 0 <= i < |m| => m[i].key)
  }

  function Values<K, V>(m: Entries<K, V>): seq<V> {
    seq(|m|, i requires 0 <= i < |m| => m[i].value)
  }

  ghost function KeySet<K, V>(m: Entries<K, V>): set<K> {
    set e | e in m :: e.key
  }

  /** No key occurs twice. */
  predicate Unique<K(==), V>(m: Entries<K, V>) {
    forall i, j :: 0 <= i < j < |m| ==> m[i].key != m[j].key
  }

  /** Where `k` stands in `m`; the length of `m` when it does not occur. */
  function Find<K(==), V>(m: Entries<K, V>, k: K): (i: nat)
    ensures i <= |m|
    ensures i < |m| ==> m[i].key == k
    ensures forall j :: 0 <= j < i ==> m[j].key != k
  {
    if m == [] then 0 else if m[0].key == k then 0 else 1 + Find(m[1..], k)
  }

  predicate Has<K(==), V>(m: Entries<K, V>, k: K) {
    Find(m, k) < |m|
  }

  /** `map.get(k)` */
  function Lookup<K(==), V>(m: Entries<K, V>, k: K): Option<V> {
    if Has(m, k) then Some(m[Find(m, k)].value) else None
  }

  /** `map.set(k, v)`: an existing key keeps its place. */
  function Put<K(==), V>(m: Entries<K, V>, k: K, v: V): Entries<K, V> {
    if Has(m, k) then m[Find(m, k) := Entry(k, v)] else m + [Entry(k, v)]
  }

  /** `map.delete(k)` for every `k` in `gone`. */
  function Without<K(==), V>(m: Entries<K, V>, gone: set<K>): Entries<K, V> {
    if m == [] then []
    else
      var front, last := m[..|m| - 1], m[|m| - 1];
      if last.key in gone then Without(front, gone) else Without(front, gone) + [last]
  }

  lemma HasIffKey<K, V>(m: Entries<K, V>, k: K)
    ensures Has(m, k) <==> k in Keys(m)
    ensures Has(m, k) <==> k in KeySet(m)
    ensures Has(m, k) <==> exists i :: 0 <= i < |m| && m[i].key == k
  {
    if Has(m, k) {
      assert Keys(m)[Find(m, k)] == k;
      assert m[Find(m, k)] in m;
    }
    if k in KeySet(m) {
      var e :| e in m && e.key == k;
      var i :| 0 <= i < |m| && m[i] == e;
      assert Keys(m)[i] == k;
    }
  }

  lemma LookupAt<K, V>(m: Entries<K, V>, i: nat)
    requires Unique(m) && i < |m|
    ensures Find(m, m[i].key) == i
    ensures Lookup(m, m[i].key) == Some(m[i].value)
  {
    var j := Find(m, m[i].key);
    assert j <= i;
  }

  lemma PutKeys<K, V>(m: Entries<K, V>, k: K, v: V)
    requires Unique(m)
    ensures Unique(Put(m, k, v))
    ensures Keys(Put(m, k, v)) == if Has(m, k) then Keys(m) else Keys(m) + [k]
  {
  }

  lemma PutLookup<K, V>(m: Entries<K, V>, k: K, v: V, q: K)
    requires Unique(m) && Unique(Put(m, k, v))
    ensures Lookup(Put(m, k, v), q) == if q == k then Some(v) else Lookup(m, q)
  {
    var p := Put(m, k, v);
    HasIffKey(p, q);
    HasIffKey(m, q);
    if q == k {
      LookupAt(p, if Has(m, k) then Find(m, k) else |m|);
    } else if Has(m, q) {
      LookupAt(m, Find(m, q));
      LookupAt(p, Find(m, q));
    }
  }

  lemma PutFacts<K, V>(m: Entries<K, V>, k: K, v: V)
    requires Unique(m)
    ensures Unique(Put(m, k, v))
    ensures Keys(Put(m, k, v)) == if Has(m, k) then Keys(m) else Keys(m) + [k]
    ensures KeySet(Put(m, k, v)) == KeySet(m) + {k}
    ensures forall q :: Lookup(Put(m, k, v), q) == if q == k then Some(v) else Lookup(m, q)
  {
    PutKeys(m, k, v);
    forall q ensures q in KeySet(Put(m, k, v)) <==> q in KeySet(m) || q == k {
      HasIffKey(Put(m, k, v), q);
      HasIffKey(m, q);
    }
    forall q ensures Lookup(Put(m, k, v), q) == if q == k then Some(v) else Lookup(m, q) {
      PutLookup(m, k, v, q);
    }
  }

  lemma {:induction false} WithoutMembers<K, V>(m: Entries<K, V>, gone: set<K>)
    ensures forall e :: e in Without(m, gone) <==> e in m && e.key !in gone
  {
    if m != [] {
      WithoutMembers(m[..|m| - 1], gone);
      assert m == m[..|m| - 1] + [m[|m| - 1]];
    }
  }

  lemma {:induction false} WithoutKeys<K, V>(m: Entries<K, V>, gone: set<K>)
    ensures Keys(Without(m, gone)) == Minus(Keys(m), gone)
  {
    if m != [] {
      var front, last := m[..|m| - 1], m[|m| - 1];
      WithoutKeys(front, gone);
      assert Keys(m)[..|m| - 1] == Keys(front);
      assert last.key !in gone ==> Keys(Without(m, gone)) == Keys(Without(front, gone)) + [last.key];
    }
  }

  lemma WithoutKeySet<K, V>(m: Entries<K, V>, gone: set<K>)
    ensures KeySet(Without(m, gone)) == KeySet(m) - gone
  {
    WithoutMembers(m, gone);
    var kept := Without(m, gone);
    forall k | k in KeySet(m) - gone ensures k in KeySet(kept) {
      var e :| e in m && e.key == k;
      assert e in kept;
    }
    forall k | k in KeySet(kept) ensures k in KeySet(m) - gone {
      var e :| e in kept && e.key == k;
      assert e in m && e.key !in gone;
    }
  }

  lemma WithoutFacts<K, V>(m: Entries<K, V>, gone: set<K>)
    ensures forall e :: e in Without(m, gone) <==> e in m && e.key !in gone
    ensures KeySet(Without(m, gone)) == KeySet(m) - gone
    ensures Keys(Without(m, gone)) == Minus(Keys(m), gone)
    ensures Unique(m) ==> Unique(Without(m, gone))
  {
    WithoutMembers(m, gone);
    WithoutKeys(m, gone);
    WithoutKeySet(m, gone);
    if Unique(m) {
      DistinctKeys(m);
      MinusDistinct(Keys(m), gone);
      assert Distinct(Keys(Without(m, gone)));
      DistinctKeys(Without(m, gone));
    }
  }

  lemma DistinctKeys<K, V>(m: Entries<K, V>)
    ensures Unique(m) <==> Distinct(Keys(m))
  {
    assert forall i :: 0 <= i < |m| ==> Keys(m)[i] == m[i].key;
  }
}
