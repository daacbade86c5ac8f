/** Assignments of distinct values to keys, each from the key's candidate
    set, and when repeatedly settling a key left with one candidate reaches
    a given assignment: the shared reasoning of the two elimination loops
    (ticket fields, allergens). */
module Matching {
  /** No value is given to two keys. */
  predicate Injective<K, V(==)>(m: map<K, V>)
  {
    forall a, b :: a in m && b in m && a != b ==> m[a] != m[b]
  }

  /** An assignment of all the keys: every key a distinct value among its
      candidates. */
  ghost predicate Fitting<K, V>(cands: map<K, set<V>>, m: map<K, V>)
  {
    m.Keys == cands.Keys && (forall k :: k in m ==> m[k] in cands[k]) && Injective(m)
  }

  /** The values `m` gives the keys `s`. */
  ghost function Image<K, V>(m: map<K, V>, s: set<K>): set<V>
  {
    set k | k in s && k in m :: m[k]
  }

  /** Whatever keys are settled as in `m`, some other key has no candidate
      left but its value in `m`: elimination is never stuck on the way to `m`. */
  ghost predicate Peels<K(!new), V>(cands: map<K, set<V>>, m: map<K, V>)
  {
    forall s: set<K> :: s < cands.Keys ==> Unblocked(cands, m, s)
  }

  /** Once the keys `s` are settled as in `m`, some other key is left with its
      own value only. */
  ghost predicate Unblocked<K, V>(cands: map<K, set<V>>, m: map<K, V>, s: set<K>)
  {
    exists k :: k in cands && k in m && k !in s && cands[k] - Image(m, s) == {m[k]}
  }

  /** A key outside `s` that is not left with its own value only has a second
      candidate outside the values of `s`. */
  ghost function Other<K, V>(cands: map<K, set<V>>, m: map<K, V>, s: set<K>, k: K): (c: V)
    requires Fitting(cands, m) && k in cands && k !in s && !Unblocked(cands, m, s)
    ensures c in cands[k] && c !in Image(m, s) && c != m[k]
  {
    OtherExists(cands, m, s, k);
    var c :| c in cands[k] - Image(m, s) && c != m[k];
    c
  }

  lemma OtherExists<K, V>(cands: map<K, set<V>>, m: map<K, V>, s: set<K>, k: K)
    requires Fitting(cands, m) && k in cands && k !in s && !Unblocked(cands, m, s)
    ensures exists c :: c in cands[k] - Image(m, s) && c != m[k]
  {
    var left := cands[k] - Image(m, s);
    forall c | c in s && c in m ensures m[c] != m[k] {
      assert c != k;
    }
    assert m[k] in left;
    assert left != {m[k]};
    assert left - {m[k]} != {};
  }

  /** A walk through the keys outside `s`: each key's second candidate is the
      value in `m` of the next key. */
  ghost predicate Walk<K, V>(cands: map<K, set<V>>, m: map<K, V>, s: set<K>, p: seq<K>)
    requires Fitting(cands, m) && !Unblocked(cands, m, s)
  {
    (forall i :: 0 <= i < |p| ==> p[i] in cands && p[i] !in s) &&
    (forall i, j :: 0 <= i < j < |p| ==> p[i] != p[j]) &&
    (forall i :: 0 <= i < |p| - 1 ==> Other(cands, m, s, p[i]) == m[p[i + 1]])
  }

  /** When the keys `s` settled as in `m` leave every other key a second
      candidate, a walk from any key outside `s` leads to a second
      assignment. */
  lemma {:induction false} Rearrange<K, V>(cands: map<K, set<V>>, m: map<K, V>, s: set<K>, p: seq<K>)
    returns (m': map<K, V>)
    requires Fitting(cands, m) && !Unblocked(cands, m, s)
    requires p != [] && Walk(cands, m, s, p)
    ensures Fitting(cands, m') && m' != m
    decreases cands.Keys - (set i | 0 <= i < |p| :: p[i])
  {
    var last := p[|p| - 1];
    var c := Other(cands, m, s, last);
    if k :| k in m && m[k] == c {
      assert k !in s;
      if i :| 0 <= i < |p| && p[i] == k {
        m' := Rotate(cands, m, s, p, i);
      } else {
        var p' := p + [k];
        assert p'[|p|] == k && p'[..|p|] == p;
        assert (set i | 0 <= i < |p'| :: p'[i]) == (set i | 0 <= i < |p| :: p[i]) + {k};
        m' := Rearrange(cands, m, s, p');
      }
    } else {
      m' := m[last := c];
      assert m'[last] != m[last];
    }
  }

  /** The keys of a walk from its `i`-th on. */
  ghost function Cycle<K>(p: seq<K>, i: nat): set<K>
  {
    set j | i <= j < |p| :: p[j]
  }

  /** The walk's step after its `j`-th key, back to its `i`-th after the
      last. */
  function Next<K>(p: seq<K>, i: nat, j: nat): (k: nat)
    requires i < |p| && j < |p|
    ensures k < |p|
  {
    if j < |p| - 1 then j + 1 else i
  }

  /** On a walk that comes back to its `i`-th key, each key of the cycle has
      the value in `m` of the next one as its second candidate. */
  lemma OnCycle<K, V>(cands: map<K, set<V>>, m: map<K, V>, s: set<K>, p: seq<K>, i: nat, a: K)
    returns (j: nat)
    requires Fitting(cands, m) && !Unblocked(cands, m, s)
    requires p != [] && Walk(cands, m, s, p)
    requires i < |p| && Other(cands, m, s, p[|p| - 1]) == m[p[i]]
    requires a in Cycle(p, i)
    ensures i <= j < |p| && p[j] == a && p[Next(p, i, j)] in Cycle(p, i)
    ensures Other(cands, m, s, a) == m[p[Next(p, i, j)]]
  {
    j :| i <= j < |p| && p[j] == a;
  }

  /** Distinct keys keep distinct values when the cycle moves on. */
  lemma RotatedApart<K, V>(cands: map<K, set<V>>, m: map<K, V>, s: set<K>, p: seq<K>, i: nat, a: K, b: K)
    requires Fitting(cands, m) && !Unblocked(cands, m, s)
    requires p != [] && Walk(cands, m, s, p)
    requires i < |p| && Other(cands, m, s, p[|p| - 1]) == m[p[i]]
    requires a in m && b in m && a != b
    ensures (if a in Cycle(p, i) then Other(cands, m, s, a) else m[a]) != (if b in Cycle(p, i) then Other(cands, m, s, b) else m[b])
  {
    if a in Cycle(p, i) && b in Cycle(p, i) {
      var ja := OnCycle(cands, m, s, p, i, a);
      var jb := OnCycle(cands, m, s, p, i, b);
      assert Next(p, i, ja) != Next(p, i, jb);
    } else if a in Cycle(p, i) {
      var ja := OnCycle(cands, m, s, p, i, a);
    } else if b in Cycle(p, i) {
      var jb := OnCycle(cands, m, s, p, i, b);
    }
  }

  /** A walk that comes back to its `i`-th key: moving every key of the cycle
      to its second candidate, the next one's value, is a second assignment. */
  lemma Rotate<K, V>(cands: map<K, set<V>>, m: map<K, V>, s: set<K>, p: seq<K>, i: nat)
    returns (m': map<K, V>)
    requires Fitting(cands, m) && !Unblocked(cands, m, s)
    requires p != [] && Walk(cands, m, s, p)
    requires i < |p| && Other(cands, m, s, p[|p| - 1]) == m[p[i]]
    ensures Fitting(cands, m') && m' != m
  {
    m' := map k | k in m :: if k in Cycle(p, i) then Other(cands, m, s, k) else m[k];
    forall a, b | a in m' && b in m' && a != b ensures m'[a] != m'[b] {
      RotatedApart(cands, m, s, p, i, a, b);
    }
    var last := p[|p| - 1];
    assert last in Cycle(p, i) && m'[last] != m[last];
  }

  /** When `m` is the only assignment, each state on the way to `m` leaves
      some key with its own value only: elimination never gets stuck on a
      unique assignment. */
  lemma UniquePeels<K(!new), V>(cands: map<K, set<V>>, m: map<K, V>)
    requires Fitting(cands, m)
    requires forall m' :: Fitting(cands, m') ==> m' == m
    ensures Peels(cands, m)
  {
    forall s | s < cands.Keys ensures Unblocked(cands, m, s) {
      var m' := Rearranged(cands, m, s);
    }
  }

  /** Either the keys `s` settled as in `m` leave a key with its own value
      only, or the candidates have a second assignment `m'`. */
  lemma Rearranged<K, V>(cands: map<K, set<V>>, m: map<K, V>, s: set<K>) returns (m': map<K, V>)
    requires Fitting(cands, m) && s < cands.Keys
    ensures Unblocked(cands, m, s) || (Fitting(cands, m') && m' != m)
  {
    m' := m;
    if !Unblocked(cands, m, s) {
      var k :| k in cands && k !in s;
      m' := Rearrange(cands, m, s, [k]);
    }
  }
}
