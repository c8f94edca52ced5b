/** Relations read row by row into indexes, and the keys under which two rows disagree. */
module BridgeIndex {
  ghost predicate Functional<K(!new), V(!new)>(rel: set<(K, V)>) {
    forall p, q :: p in rel && q in rel && p.0 == q.0 ==> p.1 == q.1
  }

  ghost predicate Injective<K(!new), V(!new)>(rel: set<(K, V)>) {
    forall p, q :: p in rel && q in rel && p.1 == q.1 ==> p.0 == q.0
  }

  /** The keys that two pairs map to different values. */
  ghost function Ambiguous<K, V>(rel: set<(K, V)>): set<K> {
    set p, q | p in rel && q in rel && p.0 == q.0 && p.1 != q.1 :: p.0
  }

  ghost function Flip<K, V>(rel: set<(K, V)>): set<(V, K)> {
    set p | p in rel :: (p.1, p.0)
  }

  /** m picks a value of rel for each of its keys, and c is the set of keys found ambiguous. */
  ghost predicate Indexed<K(!new), V(!new)>(m: map<K, V>, c: set<K>, rel: set<(K, V)>) {
    && (forall k {:trigger m[k]} :: k in m ==> (k, m[k]) in rel)
    && (forall p :: p in rel ==> p.0 in m)
    && c == Ambiguous(rel)
  }

  /** The index after one more row: the first value of a key is kept. */
  function Keep<K, V>(m: map<K, V>, k: K, v: V): map<K, V> {
    if k in m then m else m[k := v]
  }

  predicate Clashes<K, V(==)>(m: map<K, V>, k: K, v: V) {
    k in m && m[k] != v
  }

  /** The conflicting keys after one more row. */
  function Flag<K(==), V(==)>(c: set<K>, m: map<K, V>, k: K, v: V): set<K> {
    if Clashes(m, k, v) then c + {k} else c
  }

  lemma KeepIndexes<K(!new), V(!new)>(m: map<K, V>, c: set<K>, rel: set<(K, V)>, k: K, v: V)
    requires Indexed(m, c, rel)
    ensures Indexed(Keep(m, k, v), Flag(c, m, k, v), rel + {(k, v)})
  {
  }

  lemma OverwriteIndexes<K(!new), V(!new)>(m: map<K, V>, c: set<K>, rel: set<(K, V)>, k: K, v: V)
    requires Indexed(m, c, rel)
    ensures Indexed(m[k := v], Flag(c, m, k, v), rel + {(k, v)})
  {
  }

  /** No key is ambiguous exactly when the relation is a function. */
  lemma UnambiguousIff<K(!new), V(!new)>(rel: set<(K, V)>)
    ensures Ambiguous(rel) == {} <==> Functional(rel)
  {
    if !Functional(rel) {
      var p, q :| p in rel && q in rel && p.0 == q.0 && p.1 != q.1;
      assert p.0 in Ambiguous(rel);
    }
  }

  lemma AmbiguousMonotone<K(!new), V(!new)>(rel: set<(K, V)>, more: set<(K, V)>)
    requires rel <= more
    ensures Ambiguous(rel) <= Ambiguous(more) && Flip(rel) <= Flip(more)
  {
  }

  lemma FlipIff<K(!new), V(!new)>(rel: set<(K, V)>)
    ensures Functional(Flip(rel)) <==> Injective(rel)
  {
    forall p | p in rel ensures (p.1, p.0) in Flip(rel) {
    }
    if Functional(Flip(rel)) {
      forall p, q | p in rel && q in rel && p.1 == q.1 ensures p.0 == q.0 {
        assert (p.1, p.0) in Flip(rel) && (q.1, q.0) in Flip(rel);
      }
    }
  }

  /** An index without ambiguous keys is the relation itself. */
  lemma IndexIsRelation<K(!new), V(!new)>(m: map<K, V>, rel: set<(K, V)>)
    requires Indexed(m, {}, rel)
    ensures Functional(rel)
    ensures forall k, v :: (k, v) in rel <==> k in m && m[k] == v
  {
    UnambiguousIff(rel);
    forall k, v | (k, v) in rel ensures k in m && m[k] == v {
      assert (k, v).0 in m && (k, m[k]) in rel && (k, m[k]).0 == (k, v).0;
    }
  }

  /** So it does not depend on the order of the rows. */
  lemma OneIndex<K(!new), V(!new)>(m: map<K, V>, n: map<K, V>, rel: set<(K, V)>)
    requires Indexed(m, {}, rel) && Indexed(n, {}, rel)
    ensures m == n
  {
    IndexIsRelation(m, rel);
    IndexIsRelation(n, rel);
    forall k ensures k in m <==> k in n {
      if k in m {
        assert (k, m[k]) in rel;
      }
      if k in n {
        assert (k, n[k]) in rel;
      }
    }
    forall k | k in m ensures m[k] == n[k] {
      assert (k, m[k]) in rel;
    }
  }
}
