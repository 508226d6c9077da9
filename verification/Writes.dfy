/** Which entries of a piece of state an operation has written. */
module Writes {

  // the entry at k is as it was
  ghost predicate SameAt<K, V>(m: map<K, V>, m': map<K, V>, k: K) {
    (k in m' <==> k in m) && (k in m ==> m'[k] == m[k])
  }

  // entries change at these keys only
  ghost predicate OnlyAt<V>(m: map<nat, V>, m': map<nat, V>, keys: set<nat>) {
    forall k: nat :: k !in keys ==> SameAt(m, m', k)
  }

  lemma OnlyAtNone<V>(m: map<nat, V>, keys: set<nat>)
    ensures OnlyAt(m, m, keys)
  {
  }

  lemma OnlyAtStore<V>(m: map<nat, V>, m': map<nat, V>, keys: set<nat>, k: nat, v: V)
    requires OnlyAt(m, m', keys) && k in keys
    ensures OnlyAt(m, m'[k := v], keys)
  {
    forall q: nat | q !in keys ensures SameAt(m, m'[k := v], q) {
      assert SameAt(m, m', q);
    }
  }

  lemma OnlyAtTrans<V>(m: map<nat, V>, m1: map<nat, V>, m2: map<nat, V>, keys: set<nat>, more: set<nat>)
    requires OnlyAt(m, m1, keys) && OnlyAt(m1, m2, more)
    ensures OnlyAt(m, m2, keys + more)
  {
    forall k: nat | k !in keys + more ensures SameAt(m, m2, k) {
      assert SameAt(m, m1, k) && SameAt(m1, m2, k);
    }
  }
}
