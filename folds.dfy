/** Order-independent folds over finite sets. A Rust `HashMap`/`HashSet` is
    iterated in an unspecified order; the sums and products the puzzles take
    over them do not depend on it, which these definitions make explicit. */
module Folds {

  ghost function SetSum<K>(s: set<K>, f: K -> int): int
    decreases s
  {
    if s == {} then 0 else var x :| x in s; f(x) + SetSum(s - {x}, f)
  }

  /** Any element can be taken out first. */
  lemma {:induction false} SetSumRemove<K>(s: set<K>, f: K -> int, y: K)
    requires y in s
    ensures SetSum(s, f) == f(y) + SetSum(s - {y}, f)
    decreases s
  {
    var x :| x in s && SetSum(s, f) == f(x) + SetSum(s - {x}, f);
    if x != y {
      SetSumRemove(s - {x}, f, y);
      SetSumRemove(s - {y}, f, x);
      assert s - {x} - {y} == s - {y} - {x};
    }
  }

  lemma SetSumAdd<K>(s: set<K>, f: K -> int, y: K)
    requires y !in s
    ensures SetSum(s + {y}, f) == f(y) + SetSum(s, f)
  {
    SetSumRemove(s + {y}, f, y);
    assert s + {y} - {y} == s;
  }

  lemma {:induction false} SetSumNonNegative<K>(s: set<K>, f: K -> int)
    requires forall x :: x in s ==> f(x) >= 0
    ensures SetSum(s, f) >= 0
    decreases s
  {
    if s != {} {
      var x :| x in s && SetSum(s, f) == f(x) + SetSum(s - {x}, f);
      SetSumNonNegative(s - {x}, f);
    }
  }

  /** Sums agree when the summands agree on the set. */
  lemma {:induction false} SetSumCongruent<K>(s: set<K>, f: K -> int, g: K -> int)
    requires forall x :: x in s ==> f(x) == g(x)
    ensures SetSum(s, f) == SetSum(s, g)
    decreases s
  {
    if s != {} {
      var x :| x in s && SetSum(s, f) == f(x) + SetSum(s - {x}, f);
      SetSumRemove(s, g, x);
      SetSumCongruent(s - {x}, f, g);
    }
  }

  /** A sum of zeros is zero. */
  lemma {:induction false} SetSumZero<K>(s: set<K>, f: K -> int)
    requires forall x :: x in s ==> f(x) == 0
    ensures SetSum(s, f) == 0
    decreases s
  {
    if s != {} {
      var x :| x in s && SetSum(s, f) == f(x) + SetSum(s - {x}, f);
      SetSumZero(s - {x}, f);
    }
  }

  /** The sum of a pointwise sum is the sum of the sums. */
  lemma {:induction false} SetSumLinear<K>(s: set<K>, h: K -> int, f: K -> int, g: K -> int)
    requires forall x :: x in s ==> h(x) == f(x) + g(x)
    ensures SetSum(s, h) == SetSum(s, f) + SetSum(s, g)
    decreases s
  {
    if s != {} {
      var x :| x in s && SetSum(s, h) == h(x) + SetSum(s - {x}, h);
      SetSumRemove(s, f, x);
      SetSumRemove(s, g, x);
      SetSumLinear(s - {x}, h, f, g);
    }
  }

  /** Summing one for each element of `t` counts the elements `s` and `t` share. */
  lemma {:induction false} SetSumIndicator<K>(s: set<K>, t: set<K>, f: K -> int)
    requires forall x :: x in s ==> f(x) == if x in t then 1 else 0
    ensures SetSum(s, f) == |s * t|
    decreases s
  {
    if s != {} {
      var x :| x in s && SetSum(s, f) == f(x) + SetSum(s - {x}, f);
      SetSumIndicator(s - {x}, t, f);
      if x in t {
        assert s * t == (s - {x}) * t + {x};
      } else {
        assert s * t == (s - {x}) * t;
      }
    }
  }

  ghost function SetProduct<K>(s: set<K>, f: K -> int): int
    decreases s
  {
    if s == {} then 1 else var x :| x in s; f(x) * SetProduct(s - {x}, f)
  }

  lemma {:induction false} SetProductRemove<K>(s: set<K>, f: K -> int, y: K)
    requires y in s
    ensures SetProduct(s, f) == f(y) * SetProduct(s - {y}, f)
    decreases s
  {
    var x :| x in s && SetProduct(s, f) == f(x) * SetProduct(s - {x}, f);
    if x != y {
      SetProductRemove(s - {x}, f, y);
      SetProductRemove(s - {y}, f, x);
      assert s - {x} - {y} == s - {y} - {x};
    }
  }

  lemma SetProductAdd<K>(s: set<K>, f: K -> int, y: K)
    requires y !in s
    ensures SetProduct(s + {y}, f) == f(y) * SetProduct(s, f)
  {
    SetProductRemove(s + {y}, f, y);
    assert s + {y} - {y} == s;
  }

  /** An injective image of a set is as large as the set. */
  lemma {:induction false} ImageSize<A, B>(s: set<A>, f: A -> B, image: set<B>)
    requires forall a, b :: a in s && b in s && f(a) == f(b) ==> a == b
    requires forall a :: a in s ==> f(a) in image
    requires forall b :: b in image ==> exists a :: a in s && f(a) == b
    ensures |image| == |s|
    decreases s
  {
    if s == {} {
      assert image == {};
    } else {
      var a :| a in s;
      var rest := image - {f(a)};
      forall b | b in rest ensures exists c :: c in s - {a} && f(c) == b {
        var c :| c in s && f(c) == b;
        assert c != a;
      }
      ImageSize(s - {a}, f, rest);
      assert image == rest + {f(a)};
    }
  }

  /** The elements of a set in some order, each once: how a `HashMap`'s keys
      come out of its iterator. */
  method Elements<K>(s: set<K>) returns (q: seq<K>)
    ensures |q| == |s|
    ensures forall x :: x in q <==> x in s
    ensures forall i, j :: 0 <= i < j < |q| ==> q[i] != q[j]
  {
    q := [];
    var rest := s;
    while rest != {}
      invariant rest <= s
      invariant |q| + |rest| == |s|
      invariant forall x :: x in q <==> x in s && x !in rest
      invariant forall i, j :: 0 <= i < j < |q| ==> q[i] != q[j]
      decreases |rest|
    {
      var x :| x in rest;
      q := q + [x];
      rest := rest - {x};
    }
  }

  /** The sum of a map's values, each entry counted once: `values().sum()`. */
  ghost function ValueSum<K>(m: map<K, nat>): int
  {
    SetSum(m.Keys, k => if k in m then m[k] else 0)
  }

  /** Any entry can be taken out of the sum. */
  lemma ValueSumRemove<K>(m: map<K, nat>, k: K)
    requires k in m
    ensures ValueSum(m) == m[k] + ValueSum(m - {k})
  {
    var f := x => if x in m then m[x] else 0;
    var rest := m - {k};
    var g := x => if x in rest then rest[x] else 0;
    SetSumRemove(m.Keys, f, k);
    assert rest.Keys == m.Keys - {k};
    SetSumCongruent(rest.Keys, f, g);
  }

  lemma ValueSumEmpty<K>(m: map<K, nat>)
    requires m == map[]
    ensures ValueSum(m) == 0
  {
    assert m.Keys == {};
  }

  /** A new entry adds its value to the sum. */
  lemma ValueSumInsert<K>(m: map<K, nat>, k: K, v: nat)
    requires k !in m
    ensures ValueSum(m[k := v]) == ValueSum(m) + v
  {
    ValueSumRemove(m[k := v], k);
    assert m[k := v] - {k} == m;
  }

  /** Sums the values of `m` in some iteration order. */
  method SumValues<K>(m: map<K, nat>) returns (s: nat)
    ensures s == ValueSum(m)
  {
    var keys := Elements(m.Keys);
    var f := k => if k in m then m[k] else 0;
    s := 0;
    ghost var done: set<K> := {};
    for i := 0 to |keys|
      invariant forall k :: k in done <==> k in keys[..i]
      invariant s == SetSum(done, f)
    {
      var k := keys[i];
      assert keys[..i + 1] == keys[..i] + [k];
      assert k !in done by {
        forall j | 0 <= j < i ensures keys[..i][j] != k {
          assert keys[..i][j] == keys[j];
        }
      }
      SetSumAdd(done, f, k);
      s := s + m[k];
      done := done + {k};
    }
    assert keys[..|keys|] == keys;
    assert done == m.Keys;
  }
}
