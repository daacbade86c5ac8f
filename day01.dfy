/** Day 1: find the expenses that sum to 2020 and multiply them. The expenses
    live in a `BTreeSet<i32>`, modelled by its ascending enumeration: a
    strictly increasing sequence. */
module Day01 {
  import opened Text
  import opened Seqs

  const Goal: int := 2020

  /** `i32::from_str` accepts exactly the integers the type can hold. */
  predicate IsI32(n: int) { -0x8000_0000 <= n < 0x8000_0000 }

  /** `i32::from_str` on one line. */
  function ParseI32(line: string): (r: Option<int>)
    ensures r.Some? <==> ParseInt(line).Some? && IsI32(ParseInt(line).value)
    ensures r.Some? ==> ParseInt(line) == r
  {
    match ParseInt(line)
    case None => None
    case Some(n) => if IsI32(n) then Some(n) else None
  }

  /** One expense per line; the first line that is not an `i32` makes the parse fail. */
  function ParseExpenses(lines: seq<string>): (r: Option<seq<int>>)
    ensures r.Some? ==> |r.value| == |lines|
    ensures r.Some? ==> forall i :: 0 <= i < |lines| ==> ParseInt(lines[i]) == Some(r.value[i])
    ensures r.None? <==> exists i :: 0 <= i < |lines| && (ParseInt(lines[i]).None? || !IsI32(ParseInt(lines[i]).value))
  {
    var r := ParseEach(lines, ParseI32);
    assert r.None? ==> exists i :: 0 <= i < |lines| && ParseI32(lines[i]).None?;
    r
  }

  /** Drops the repeats of a sorted sequence. */
  function Dedup(s: seq<int>): (r: seq<int>)
    requires Sorted(s)
    ensures StrictlyIncreasing(r)
    ensures forall x :: x in r <==> x in s
    ensures |r| > 0 ==> |s| > 0 && r[0] == s[0]
  {
    if |s| <= 1 then s
    else if s[0] == s[1] then Dedup(s[1..])
    else [s[0]] + Dedup(s[1..])
  }

  /** Collecting into a `BTreeSet`: the distinct values in ascending order. */
  function CollectSet(values: seq<int>): (r: seq<int>)
    ensures StrictlyIncreasing(r)
    ensures forall x :: x in r <==> x in values
  {
    var sorted := SortAsc(values);
    assert forall x :: x in sorted <==> x in multiset(sorted);
    assert forall x :: x in values <==> x in multiset(values);
    Dedup(sorted)
  }

  predicate Completes(xs: seq<int>, a: int) { Goal - a in xs }

  /** The search of the set from position `i` on, as the `for` loop runs it. */
  function Part1From(xs: seq<int>, i: nat): (r: Option<int>)
    requires i <= |xs|
    decreases |xs| - i
    ensures r.Some? ==> exists k :: i <= k < |xs| && Completes(xs, xs[k]) && r.value == xs[k] * (Goal - xs[k])
                                    && forall k' :: i <= k' < k ==> !Completes(xs, xs[k'])
    ensures r.None? <==> forall k :: i <= k < |xs| ==> !Completes(xs, xs[k])
  {
    if i == |xs| then None
    else if Completes(xs, xs[i]) then Some(xs[i] * (Goal - xs[i]))
    else Part1From(xs, i + 1)
  }

  /** `part_1` */
  function Part1(xs: seq<int>): Option<int>
  {
    Part1From(xs, 0)
  }

  predicate IsPair(xs: seq<int>, a: int, b: int) { a in xs && b in xs && a + b == Goal }

  /** No element smaller than `a` completes a pair. */
  predicate NoSmallerPair(xs: seq<int>, a: int)
  {
    forall a' :: a' in xs && a' < a ==> Goal - a' !in xs
  }

  /** `part_1` returns the product of the pair with the smallest first element
      (the two may be the same expense), and `None` exactly when no pair sums to 2020. */
  lemma Part1Correct(xs: seq<int>)
    requires StrictlyIncreasing(xs)
    ensures Part1(xs).Some? ==> exists a, b :: IsPair(xs, a, b) && Part1(xs).value == a * b && NoSmallerPair(xs, a)
    ensures Part1(xs).None? <==> forall a, b :: !IsPair(xs, a, b)
  {
    if Part1(xs).Some? {
      Part1Found(xs);
    } else {
      Part1Missing(xs);
    }
  }

  lemma Part1Found(xs: seq<int>)
    requires StrictlyIncreasing(xs) && Part1(xs).Some?
    ensures exists a, b :: IsPair(xs, a, b) && Part1(xs).value == a * b && NoSmallerPair(xs, a)
  {
    var r := Part1From(xs, 0);
    var k :| 0 <= k < |xs| && Completes(xs, xs[k]) && r.value == xs[k] * (Goal - xs[k])
             && forall k' :: 0 <= k' < k ==> !Completes(xs, xs[k']);
    assert NoSmallerPair(xs, xs[k]) by {
      forall a' | a' in xs && a' < xs[k] ensures Goal - a' !in xs {
        var k' :| 0 <= k' < |xs| && xs[k'] == a';
        assert k' < k;
      }
    }
    assert IsPair(xs, xs[k], Goal - xs[k]);
  }

  lemma Part1Missing(xs: seq<int>)
    requires Part1(xs).None?
    ensures forall a, b :: !IsPair(xs, a, b)
  {
    forall a, b ensures !IsPair(xs, a, b) {
      if a in xs {
        var k :| 0 <= k < |xs| && xs[k] == a;
        assert !Completes(xs, xs[k]);
      }
    }
  }

  predicate CompletesWith(xs: seq<int>, a: int, b: int) { Goal - a - b in xs }

  /** The inner `for` loop of `part_2`, from position `j`, for the outer expense `a`. */
  function Part2Inner(xs: seq<int>, a: int, j: nat): (r: Option<int>)
    requires j <= |xs|
    decreases |xs| - j
    ensures r.Some? ==> exists k :: j <= k < |xs| && CompletesWith(xs, a, xs[k]) && r.value == a * xs[k] * (Goal - a - xs[k])
    ensures r.None? <==> forall k :: j <= k < |xs| ==> !CompletesWith(xs, a, xs[k])
  {
    if j == |xs| then None
    else if CompletesWith(xs, a, xs[j]) then Some(a * xs[j] * (Goal - a - xs[j]))
    else Part2Inner(xs, a, j + 1)
  }

  /** The outer `for` loop of `part_2`, from position `i`. */
  function Part2From(xs: seq<int>, i: nat): (r: Option<int>)
    requires i <= |xs|
    decreases |xs| - i
    ensures r.Some? ==> exists k, l :: i <= k < |xs| && 0 <= l < |xs| && CompletesWith(xs, xs[k], xs[l])
                                       && r.value == xs[k] * xs[l] * (Goal - xs[k] - xs[l])
    ensures r.None? <==> forall k, l :: i <= k < |xs| && 0 <= l < |xs| ==> !CompletesWith(xs, xs[k], xs[l])
  {
    if i == |xs| then None
    else
      match Part2Inner(xs, xs[i], 0)
      case Some(p) => Some(p)
      case None => Part2From(xs, i + 1)
  }

  /** `part_2` */
  function Part2(xs: seq<int>): Option<int>
  {
    Part2From(xs, 0)
  }

  predicate IsTriple(xs: seq<int>, a: int, b: int, c: int) { a in xs && b in xs && c in xs && a + b + c == Goal }

  /** `part_2` returns the product of three expenses summing to 2020, repeats
      allowed, and `None` exactly when there is no such triple. */
  lemma Part2Correct(xs: seq<int>)
    ensures Part2(xs).Some? ==> exists a, b, c :: IsTriple(xs, a, b, c) && Part2(xs).value == a * b * c
    ensures Part2(xs).None? <==> forall a, b, c :: !IsTriple(xs, a, b, c)
  {
    var r := Part2From(xs, 0);
    if r.Some? {
      var k, l :| 0 <= k < |xs| && 0 <= l < |xs| && CompletesWith(xs, xs[k], xs[l])
                  && r.value == xs[k] * xs[l] * (Goal - xs[k] - xs[l]);
      assert IsTriple(xs, xs[k], xs[l], Goal - xs[k] - xs[l]);
    } else {
      forall a, b, c ensures !IsTriple(xs, a, b, c) {
        if a in xs && b in xs {
          var k :| 0 <= k < |xs| && xs[k] == a;
          var l :| 0 <= l < |xs| && xs[l] == b;
          assert !CompletesWith(xs, xs[k], xs[l]);
        }
      }
    }
  }

  /** The puzzle's example report, as the ascending set it collects into:
      1721 * 299 and 979 * 366 * 675. */
  lemma Example(xs: seq<int>)
    requires xs == [299, 366, 675, 979, 1456, 1721]
    ensures Part1(xs) == Some(514579)
    ensures Part2(xs) == Some(241861950)
  {
    ExampleFirst(xs);
    ExampleSecond(xs);
  }

  lemma ExampleFirst(xs: seq<int>)
    requires xs == [299, 366, 675, 979, 1456, 1721]
    ensures Part1(xs) == Some(514579)
  {
    assert Completes(xs, 299);
  }

  lemma ExampleSecond(xs: seq<int>)
    requires xs == [299, 366, 675, 979, 1456, 1721]
    ensures Part2(xs) == Some(241861950)
  {
    ExampleNo299(xs);
    assert CompletesWith(xs, 366, 675);
    assert Part2Inner(xs, 366, 2) == Some(241861950);
    assert !CompletesWith(xs, 366, 366);
    assert Part2Inner(xs, 366, 1) == Some(241861950);
    assert !CompletesWith(xs, 366, 299);
    assert Part2Inner(xs, 366, 0) == Some(241861950);
    assert Part2From(xs, 1) == Some(241861950);
  }

  /** No pair completes 299 to 2020. */
  lemma ExampleNo299(xs: seq<int>)
    requires xs == [299, 366, 675, 979, 1456, 1721]
    ensures Part2Inner(xs, 299, 0) == None
  {
    forall k | 0 <= k < |xs| ensures !CompletesWith(xs, 299, xs[k]) {
      assert xs[k] in {299, 366, 675, 979, 1456, 1721};
    }
  }

  /** Two strictly increasing sequences with the same elements are equal. */
  lemma {:induction false} StrictlyIncreasingByElements(xs: seq<int>, ys: seq<int>)
    requires StrictlyIncreasing(xs) && StrictlyIncreasing(ys)
    requires forall x :: x in xs <==> x in ys
    ensures xs == ys
  {
    if xs != [] {
      assert xs[0] in xs;
    }
    if ys != [] {
      assert ys[0] in ys;
    }
    if xs != [] && ys != [] {
      assert xs[0] == ys[0] by {
        var i :| 0 <= i < |ys| && ys[i] == xs[0];
        var j :| 0 <= j < |xs| && xs[j] == ys[0];
      }
      forall x | x in xs[1..] ensures x in ys[1..] {
        var i :| 0 <= i < |xs[1..]| && xs[1..][i] == x;
        assert xs[i + 1] == x && x in xs && x in ys;
        var j :| 0 <= j < |ys| && ys[j] == x;
        assert j != 0;
        assert ys[1..][j - 1] == x;
      }
      forall x | x in ys[1..] ensures x in xs[1..] {
        var i :| 0 <= i < |ys[1..]| && ys[1..][i] == x;
        assert ys[i + 1] == x && x in ys && x in xs;
        var j :| 0 <= j < |xs| && xs[j] == x;
        assert j != 0;
        assert xs[1..][j - 1] == x;
      }
      StrictlyIncreasingByElements(xs[1..], ys[1..]);
    }
  }
}
