/** Day 23: cups in a circle. The circle is a singly linked list held in an
    array: `nexts[x]` is the label clockwise of cup `x`. Each move picks up
    the three cups after the current one, puts them back after the
    destination cup (the next lower label, wrapping, that was not picked up)
    and moves on to the next cup. The model keeps, beside the array, the
    circle as a sequence of labels starting at the current cup. */
module Day23 {
  import opened Text
  import opened Seqs

  /** The labels `lo..=hi`. */
  function Range(lo: nat, hi: nat): (r: seq<nat>)
    ensures |r| == if hi < lo then 0 else hi - lo + 1
    ensures forall i :: 0 <= i < |r| ==> r[i] == lo + i
  {
    seq(if hi < lo then 0 else hi - lo + 1, i => lo + i)
  }

  /** `order` holds every label `lo..=hi` exactly once. */
  predicate IsLabelling(order: seq<nat>, lo: nat, hi: nat)
  {
    multiset(order) == multiset(Range(lo, hi))
  }

  /** A sequence without repeats counts each value at most once. */
  lemma {:induction false} DistinctCount(s: seq<nat>, x: nat)
    requires forall i, j :: 0 <= i < j < |s| ==> s[i] != s[j]
    ensures multiset(s)[x] <= 1
  {
    if s != [] {
      var init := s[..|s| - 1];
      DistinctCount(init, x);
      assert s == init + [s[|s| - 1]];
      if s[|s| - 1] == x {
        assert x !in init by {
          forall k | 0 <= k < |init| ensures init[k] != x {
            assert init[k] == s[k];
          }
        }
      }
    }
  }

  /** A repeated value is counted twice. */
  lemma Repeated(s: seq<nat>, i: nat, j: nat)
    requires i < j < |s| && s[i] == s[j]
    ensures multiset(s)[s[i]] >= 2
  {
    assert s == s[..j] + [s[j]] + s[j + 1..];
    assert s[..j][i] == s[i];
  }

  /** What a labelling guarantees: its length, its members, no repeats. */
  lemma LabellingFacts(order: seq<nat>, lo: nat, hi: nat)
    requires IsLabelling(order, lo, hi) && lo <= hi
    ensures |order| == hi - lo + 1
    ensures forall x :: x in order <==> lo <= x <= hi
    ensures forall i, j :: 0 <= i < j < |order| ==> order[i] != order[j]
  {
    var r := Range(lo, hi);
    assert |order| == |multiset(order)| == |multiset(r)| == |r|;
    forall x ensures x in order <==> lo <= x <= hi {
      assert x in order <==> x in multiset(order);
      assert x in r <==> x in multiset(r);
      if lo <= x <= hi {
        assert r[x - lo] == x;
      }
    }
    forall i, j | 0 <= i < j < |order| ensures order[i] != order[j] {
      if order[i] == order[j] {
        Repeated(order, i, j);
        DistinctCount(r, order[i]);
      }
    }
  }

  /** The label `j` below `cur`, counting down and wrapping from `lo` to `hi`. */
  function Back(cur: nat, j: nat, lo: nat, hi: nat): int
  {
    if cur - j >= lo then cur - j else cur - j + (hi - lo + 1)
  }

  /** `dest -= 1; if dest < min { dest = max }`. */
  function Below(x: nat, lo: nat, hi: nat): (y: nat)
    requires 1 <= lo <= x
  {
    if x - 1 < lo then hi else x - 1
  }

  lemma BelowBack(cur: nat, j: nat, lo: nat, hi: nat)
    requires 1 <= lo <= cur <= hi && j + 1 < hi - lo + 1
    ensures lo <= Back(cur, j, lo, hi) <= hi
    ensures Below(Back(cur, j, lo, hi), lo, hi) == Back(cur, j + 1, lo, hi)
  {
  }

  /** How far below the current cup the destination lies: the first of the
      labels one, two, three and four below it that was not picked up. */
  function DestDistance(cur: nat, pick: seq<nat>, lo: nat, hi: nat): (i: nat)
    requires 1 <= lo <= cur <= hi && hi - lo + 1 >= 5 && |pick| == 3
    ensures 1 <= i <= 4
    ensures Back(cur, i, lo, hi) !in pick
    ensures forall j :: 1 <= j < i ==> Back(cur, j, lo, hi) in pick
  {
    if Back(cur, 1, lo, hi) !in pick then 1
    else if Back(cur, 2, lo, hi) !in pick then 2
    else if Back(cur, 3, lo, hi) !in pick then 3
    else 4
  }

  /** The destination cup: a label other than the current one, not picked
      up, with every label between it and the current one (counting down and
      wrapping) picked up. */
  function Destination(cur: nat, pick: seq<nat>, lo: nat, hi: nat): (d: nat)
    requires 1 <= lo <= cur <= hi && hi - lo + 1 >= 5 && |pick| == 3
    ensures lo <= d <= hi && d != cur && d !in pick
    ensures d == Back(cur, DestDistance(cur, pick, lo, hi), lo, hi)
  {
    Back(cur, DestDistance(cur, pick, lo, hi), lo, hi)
  }

  /** The position of `x` in `s`. */
  function IndexOf(s: seq<nat>, x: nat): (k: nat)
    requires x in s
    ensures k < |s| && s[k] == x
    ensures forall j :: 0 <= j < k ==> s[j] != x
  {
    if s[0] == x then 0 else 1 + IndexOf(s[1..], x)
  }

  /** Where the destination cup sits in the circle read from the current cup. */
  function DestIndex(order: seq<nat>, lo: nat, hi: nat): (k: nat)
    requires IsLabelling(order, lo, hi) && 1 <= lo && hi - lo + 1 >= 5
    ensures 4 + k < |order| && lo <= order[0] <= hi
    ensures order[4 + k] == Destination(order[0], order[1..4], lo, hi)
  {
    LabellingFacts(order, lo, hi);
    assert order[0] in order;
    var d := Destination(order[0], order[1..4], lo, hi);
    assert d in order;
    assert order == order[..4] + order[4..];
    assert d !in order[..4] by {
      assert order[..4] == [order[0]] + order[1..4];
    }
    IndexOf(order[4..], d)
  }

  /** One move on the circle read from the current cup: the three cups
      after it go right after the destination, and the circle is then read
      from the cup that followed them. */
  function StepOrder(order: seq<nat>, lo: nat, hi: nat): (r: seq<nat>)
    requires IsLabelling(order, lo, hi) && 1 <= lo && hi - lo + 1 >= 5
    ensures IsLabelling(r, lo, hi)
    ensures |r| == |order| && r[0] == order[4] && r[|r| - 1] == order[0]
  {
    var k := DestIndex(order, lo, hi);
    var r := order[4..5 + k] + order[1..4] + order[5 + k..] + [order[0]];
    assert order == [order[0]] + order[1..4] + order[4..5 + k] + order[5 + k..];
    assert multiset(r) == multiset(order);
    r
  }

  /** After a move the destination cup is followed by the three cups that
      were picked up, in their old order. */
  lemma StepPlacesPickup(order: seq<nat>, lo: nat, hi: nat)
    requires IsLabelling(order, lo, hi) && 1 <= lo && hi - lo + 1 >= 5
    ensures var r, d := StepOrder(order, lo, hi), Destination(order[0], order[1..4], lo, hi);
      exists k :: 0 <= k && k + 3 < |r| && r[k] == d && r[k + 1..k + 4] == order[1..4]
  {
    var k := DestIndex(order, lo, hi);
    var r := StepOrder(order, lo, hi);
    assert r[k] == order[4 + k];
    assert r[k + 1..k + 4] == order[1..4];
  }

  /** `n` moves. */
  function Iterate(order: seq<nat>, lo: nat, hi: nat, n: nat): (r: seq<nat>)
    requires IsLabelling(order, lo, hi) && 1 <= lo && hi - lo + 1 >= 5
    ensures IsLabelling(r, lo, hi)
  {
    if n == 0 then order else StepOrder(Iterate(order, lo, hi, n - 1), lo, hi)
  }

  /** Each label of `s` but the last leads to the one after it. */
  ghost predicate Chain(nx: seq<nat>, s: seq<nat>)
  {
    (forall i :: 0 <= i < |s| ==> s[i] < |nx|) &&
    (forall i :: 0 <= i < |s| - 1 ==> nx[s[i]] == s[i + 1])
  }

  /** `nx` links the labels `lo..=hi` into one cycle, in the order `order`. */
  ghost predicate CircleOf(nx: seq<nat>, order: seq<nat>, lo: nat, hi: nat)
  {
    IsLabelling(order, lo, hi) && Links(nx, order)
  }

  /** A circle of at least five cups from `lo` up to `hi`, read clockwise
      from the current cup. */
  ghost predicate IsCircle(nx: seq<nat>, order: seq<nat>, current: nat, lo: nat, hi: nat)
  {
    1 <= lo && hi - lo + 1 >= 5 && |order| > 0 && order[0] == current && CircleOf(nx, order, lo, hi)
  }

  /** `nx` links the labels of `order` into one cycle, in that order. */
  ghost predicate Links(nx: seq<nat>, order: seq<nat>)
  {
    Chain(nx, order) && (|order| > 0 ==> nx[order[|order| - 1]] == order[0])
  }

  /** Two chains joined by a link make a chain. */
  lemma ChainAppend(nx: seq<nat>, s: seq<nat>, t: seq<nat>)
    requires Chain(nx, s) && Chain(nx, t)
    requires s != [] && t != [] ==> nx[s[|s| - 1]] == t[0]
    ensures Chain(nx, s + t)
  {
    var u := s + t;
    forall i | 0 <= i < |u| - 1 ensures nx[u[i]] == u[i + 1] {
      if i < |s| - 1 {
        assert u[i] == s[i] && u[i + 1] == s[i + 1];
      } else if i == |s| - 1 {
        assert u[i] == s[i] && u[i + 1] == t[0];
      } else {
        assert u[i] == t[i - |s|] && u[i + 1] == t[i - |s| + 1];
      }
    }
  }

  /** A chain stays a chain where the links it uses are unchanged. */
  lemma ChainAgree(nx: seq<nat>, nx': seq<nat>, s: seq<nat>)
    requires Chain(nx, s) && |nx'| == |nx|
    requires forall i :: 0 <= i < |s| - 1 ==> nx'[s[i]] == nx[s[i]]
    ensures Chain(nx', s)
  {
  }

  /** A slice of a chain is a chain. */
  lemma ChainSlice(nx: seq<nat>, s: seq<nat>, i: nat, j: nat)
    requires Chain(nx, s) && i <= j <= |s|
    ensures Chain(nx, s[i..j])
  {
    var t := s[i..j];
    forall p | 0 <= p < |t| - 1 ensures nx[t[p]] == t[p + 1] {
      assert t[p] == s[i + p] && t[p + 1] == s[i + p + 1];
    }
  }

  /** `nx'` is `nx` after `step`'s three writes, for the circle `o` read from
      the current cup with the destination at `o[4 + k]`. */
  ghost predicate Rewired(nx: seq<nat>, nx': seq<nat>, o: seq<nat>, k: nat)
    requires 4 + k < |o| && o[4 + k] < |nx|
  {
    |nx'| == |nx| &&
    forall x :: 0 <= x < |nx| ==>
      nx'[x] == if x == o[0] then o[4] else if x == o[3] then nx[o[4 + k]] else if x == o[4 + k] then o[1] else nx[x]
  }

  /** The three writes of `step`, as updates of the sequence of links. */
  lemma UpdateRewired(nx: seq<nat>, o: seq<nat>, k: nat)
    requires 4 + k < |o| && o[0] < |nx| && o[3] < |nx| && o[4 + k] < |nx|
    requires o[0] != o[3] && o[0] != o[4 + k] && o[3] != o[4 + k]
    ensures Rewired(nx, nx[o[4 + k] := o[1]][o[3] := nx[o[4 + k]]][o[0] := o[4]], o, k)
  {
  }

  /** The three writes of `step` relink the cycle in the order of one move:
      the destination `o[4 + k]` now leads to the picked cups `o[1..4]`, the
      last picked cup to what followed the destination, and the current cup
      `o[0]` to `o[4]`. */
  lemma RewireLinks(nx: seq<nat>, nx': seq<nat>, o: seq<nat>, k: nat)
    requires 4 + k < |o|
    requires Links(nx, o) && forall i, j :: 0 <= i < j < |o| ==> o[i] != o[j]
    requires o[4 + k] < |nx| && Rewired(nx, nx', o, k)
    ensures Links(nx', o[4..5 + k] + o[1..4] + o[5 + k..] + [o[0]])
  {
    var front, back := o[4..5 + k] + o[1..4], o[5 + k..] + [o[0]];
    FrontChain(nx, nx', o, k);
    BackChain(nx, nx', o, k);
    assert front[|front| - 1] == o[3];
    if 5 + k < |o| {
      assert nx[o[4 + k]] == o[5 + k] == back[0];
    } else {
      assert nx[o[4 + k]] == o[0] == back[0];
    }
    ChainAppend(nx', front, back);
    assert front + back == o[4..5 + k] + o[1..4] + o[5 + k..] + [o[0]];
    assert (front + back)[0] == o[4];
  }

  /** The cups up to the destination, then the picked-up cups, form a chain. */
  lemma FrontChain(nx: seq<nat>, nx': seq<nat>, o: seq<nat>, k: nat)
    requires 4 + k < |o|
    requires Links(nx, o) && forall i, j :: 0 <= i < j < |o| ==> o[i] != o[j]
    requires o[4 + k] < |nx| && Rewired(nx, nx', o, k)
    ensures Chain(nx', o[4..5 + k] + o[1..4])
  {
    var p1, pick := o[4..5 + k], o[1..4];
    ChainSlice(nx, o, 4, 5 + k);
    UnchangedSlice(nx, nx', o, 4, 4 + k, k);
    ChainAgree(nx, nx', p1);
    assert Chain(nx', pick) by {
      assert nx[o[1]] == o[2] && nx[o[2]] == o[3];
      assert nx'[o[1]] == nx[o[1]] && nx'[o[2]] == nx[o[2]];
    }
    assert nx'[p1[|p1| - 1]] == pick[0];
    ChainAppend(nx', p1, pick);
  }

  /** The cups after the destination, then the old current cup, form a chain. */
  lemma BackChain(nx: seq<nat>, nx': seq<nat>, o: seq<nat>, k: nat)
    requires 4 + k < |o|
    requires Links(nx, o) && forall i, j :: 0 <= i < j < |o| ==> o[i] != o[j]
    requires o[4 + k] < |nx| && Rewired(nx, nx', o, k)
    ensures Chain(nx', o[5 + k..] + [o[0]])
  {
    var p2 := o[5 + k..];
    ChainSlice(nx, o, 5 + k, |o|);
    if 5 + k < |o| {
      UnchangedSlice(nx, nx', o, 5 + k, |o| - 1, k);
      ChainAgree(nx, nx', p2);
      assert p2[|p2| - 1] == o[|o| - 1];
      assert nx'[p2[|p2| - 1]] == o[0];
      ChainAppend(nx', p2, [o[0]]);
    } else {
      assert p2 + [o[0]] == [o[0]];
    }
  }

  /** The three rewritten entries lie outside `o[i..j]` (`i >= 4`, not
      reaching the destination's position unless past it). */
  lemma UnchangedSlice(nx: seq<nat>, nx': seq<nat>, o: seq<nat>, i: nat, j: nat, k: nat)
    requires 4 <= i <= j <= |o| && 4 + k < |o| && (j <= 4 + k || i > 4 + k)
    requires forall p, q :: 0 <= p < q < |o| ==> o[p] != o[q]
    requires (forall p :: 0 <= p < |o| ==> o[p] < |nx|) && Rewired(nx, nx', o, k)
    ensures forall p :: i <= p < j ==> nx'[o[p]] == nx[o[p]]
  {
    forall p | i <= p < j ensures nx'[o[p]] == nx[o[p]] {
      assert o[p] != o[0] && o[p] != o[3] && o[p] != o[4 + k];
    }
  }

  /** One move keeps the array a single cycle: the cycle of the next order. */
  lemma StepLinks(nx: seq<nat>, nx': seq<nat>, order: seq<nat>, lo: nat, hi: nat)
    requires IsLabelling(order, lo, hi) && 1 <= lo && hi - lo + 1 >= 5 && Links(nx, order)
    requires var k := DestIndex(order, lo, hi); order[4 + k] < |nx| && Rewired(nx, nx', order, k)
    ensures Links(nx', StepOrder(order, lo, hi))
  {
    LabellingFacts(order, lo, hi);
    RewireLinks(nx, nx', order, DestIndex(order, lo, hi));
  }

  /** The four links after the current cup. */
  lemma PickupLinks(nx: seq<nat>, o: seq<nat>)
    requires Links(nx, o) && |o| >= 5
    ensures nx[o[0]] == o[1] && nx[o[1]] == o[2] && nx[o[2]] == o[3] && nx[o[3]] == o[4]
  {
  }

  /** One more link extends a chain. */
  lemma ChainSnoc(nx: seq<nat>, s: seq<nat>, x: nat)
    requires Chain(nx, s) && s != [] && x < |nx|
    requires forall i :: 0 <= i < |s| - 1 ==> s[i] != s[|s| - 1]
    ensures Chain(nx[s[|s| - 1] := x], s + [x])
  {
    var nx' := nx[s[|s| - 1] := x];
    ChainAgree(nx, nx', s);
    ChainAppend(nx', s, [x]);
  }

  /** Consecutive runs of labels make one run. */
  lemma RangeSplit(lo: nat, mid: nat, hi: nat)
    requires lo <= mid + 1 && mid <= hi
    ensures Range(lo, mid) + Range(mid + 1, hi) == Range(lo, hi)
  {
  }

  /** The last element of a sequence cannot also appear earlier. */
  lemma LastDistinct(s: seq<nat>, lo: nat, hi: nat, len: nat)
    requires IsLabelling(s, lo, hi) && lo <= hi && 0 < len <= |s|
    ensures forall i :: 0 <= i < len - 1 ==> s[..len][i] != s[..len][len - 1]
  {
    LabellingFacts(s, lo, hi);
  }

  /** The label `x` above the digits sits at `j` in the circle, and the
      chain read so far can be extended by it. */
  lemma AboveStep(ord: seq<nat>, len: nat, lo: nat, hi: nat, n: nat, j: nat, x: nat)
    requires 0 < len <= j && len <= |ord| && lo <= hi < x <= n && j == x - hi - 1 + len
    requires Above(ord, len, lo, hi, n)
    ensures j < |ord| && ord[j] == x && ord[..j] + [x] == ord[..j + 1]
    ensures forall i :: 0 <= i < |ord[..j]| - 1 ==> ord[..j][i] != ord[..j][|ord[..j]| - 1]
  {
    LabellingFacts(ord, lo, n);
    assert ord[j] == ord[len..][j - len] == Range(hi + 1, n)[j - len];
    LastDistinct(ord, lo, n, j);
  }

  /** The digits followed by the labels above them form a labelling from
      the smallest digit up to `n`. */
  lemma Layout(ds: seq<nat>, lo: nat, hi: nat, n: nat)
    requires ds != [] && IsLabelling(ds, lo, hi) && 1 <= lo <= hi <= n
    ensures Above(ds + Range(hi + 1, n), |ds|, lo, hi, n)
    ensures (ds + Range(hi + 1, n))[..|ds|] == ds
  {
    var ord := ds + Range(hi + 1, n);
    RangeSplit(lo, hi, n);
    assert ord[..|ds|] == ds;
    assert ord[|ds|..] == Range(hi + 1, n);
  }

  /** The circle `parse` builds: the first `len` labels are the digits, then
      the labels above the largest digit `hi` up to `n`, in order. */
  ghost predicate Above(ord: seq<nat>, len: nat, lo: nat, hi: nat, n: nat)
  {
    len <= |ord| && ord[len..] == Range(hi + 1, n) && IsLabelling(ord, lo, n)
  }

  /** The circle `parse` lays out for the digits `ds`: the digits, then
      the labels above the largest digit up to `n`. */
  function Initial(ds: seq<nat>, n: nat): seq<nat>
    requires ds != []
  {
    ds + Range(Max(ds) + 1, n)
  }

  lemma InitialLayout(ds: seq<nat>, hi: nat, n: nat)
    requires ds != [] && hi == Max(ds)
    ensures Initial(ds, n) == ds + Range(hi + 1, n)
  {
  }

  /** `m` is the smallest element of `s`. */
  ghost predicate IsLeast(s: seq<nat>, m: nat)
  {
    m in s && forall i :: 0 <= i < |s| ==> m <= s[i]
  }

  /** `m` is the largest element of `s`. */
  ghost predicate IsGreatest(s: seq<nat>, m: nat)
  {
    m in s && forall i :: 0 <= i < |s| ==> s[i] <= m
  }

  /** Rust's `usize::MAX`, where `parse` starts its running minimum. */
  const UsizeMax: nat := 0xFFFF_FFFF_FFFF_FFFF

  /** Digits `parse` turns into a circle of `n` cups: a permutation of a run
      of labels from at least 1, ending at most at `n`, with at least five
      labels from the smallest up to `n`. */
  predicate Playable(ds: seq<nat>, n: nat)
  {
    ds != [] && IsLabelling(ds, Min(ds), Max(ds)) && 1 <= Min(ds) && Max(ds) <= n && n - Min(ds) + 1 >= 5
  }

  /** `c.to_digit(10).unwrap()` for every character. */
  function Digits(input: string): (ds: seq<nat>)
    requires AllDigits(input)
    ensures |ds| == |input| && forall i :: 0 <= i < |ds| ==> ds[i] < 10
    ensures forall i :: 0 <= i < |ds| ==> ds[i] == DigitValue(input[i])
  {
    if input == [] then [] else [DigitValue(input[0])] + Digits(input[1..])
  }

  /** The circle of cups: `nexts[x]` is the cup clockwise of `x`, `current`
      the current cup, `min` and `max` the smallest and largest labels; `n`
      is the const parameter `N`. `order` is the circle read clockwise from
      the current cup, which the array must link in one cycle. */
  class Circle {
    const n: nat
    const nexts: array<nat>
    var current: nat
    const min: nat
    const max: nat
    ghost var order: seq<nat>

    ghost predicate Valid()
      reads this, nexts
    {
      nexts.Length == n + 1 && max == n && IsCircle(nexts[..], order, current, min, max)
    }

    /** `Circle::parse`: link the digits in input order, then the labels
        above the largest digit up to `n`, and close the circle at the first
        digit. `unwrap` panics on a non-digit, and the remaining writes stay
        inside the array and leave one cycle only when the digits are a
        permutation of a run of labels that ends at most at `n`; the game
        needs at least five labels from the smallest digit up to `n`. */
    constructor Parse(n: nat, input: string)
      requires AllDigits(input) && Playable(Digits(input), n)
      ensures Valid() && fresh(nexts) && this.n == n
      ensures min == Min(Digits(input)) && current == Digits(input)[0]
      ensures order == Initial(Digits(input), n)
    {
      var ds := Digits(input);
      ghost var ord;
      var nx, first, mn, mx;
      nx, first, mn, mx, ord := Make(n, ds);
      ghost var links := nx[..];
      this.n := n;
      nexts := nx;
      current := first;
      min := mn;
      max := mx;
      order := ord;
      new;
      assert nexts[..] == links;
    }

    /** The fields `parse` initialises for the digits `ds`. */
    static method Make(n: nat, ds: seq<nat>) returns (nx: array<nat>, first: nat, mn: nat, mx: nat, ghost ord: seq<nat>)
      requires Playable(ds, n) && forall i :: 0 <= i < |ds| ==> ds[i] < 10
      ensures fresh(nx) && nx.Length == n + 1 && mx == n && mn == Min(ds) && first == ds[0]
      ensures ord == Initial(ds, n) && IsCircle(nx[..], ord, first, mn, mx)
    {
      ghost var lo, hi := Min(ds), Max(ds);
      InitialLayout(ds, hi, n);
      assert IsLeast(ds, lo) && IsGreatest(ds, hi);
      nx, first, mn, mx := Build(n, ds, lo, hi);
      ord := ds + Range(hi + 1, n);
    }

    /** The array `parse` fills for the digits `ds`, with the first digit
        and the smallest and largest labels. */
    static method Build(n: nat, ds: seq<nat>, ghost lo: nat, ghost hi: nat)
      returns (nx: array<nat>, first: nat, mn: nat, mx: nat)
      requires ds != [] && forall i :: 0 <= i < |ds| ==> ds[i] < 10
      requires IsLeast(ds, lo) && IsGreatest(ds, hi) && IsLabelling(ds, lo, hi) && 1 <= lo && hi <= n
      ensures fresh(nx) && nx.Length == n + 1 && first == ds[0] && mn == lo && mx == n
      ensures CircleOf(nx[..], ds + Range(hi + 1, n), lo, n)
    {
      ghost var ord := ds + Range(hi + 1, n);
      Layout(ds, lo, hi, n);
      nx := new nat[n + 1](_ => 0);
      var prev;
      first, prev, mn, mx := LinkDigits(nx, ds, ord, lo, hi, n);
      assert Above(ord, |ds|, lo, hi, n);
      assert Chain(nx[..], ord[..|ds|]) && prev == ord[|ds| - 1];
      prev, mx := LinkAbove(nx, |ds|, ord, lo, hi, n, prev, mx);
      LastDistinct(ord, lo, n, |ord|);
      assert ord[..|ord|] == ord;
      assert Chain(nx[..], ord) && prev == ord[|ord| - 1] && first == ord[0];
      Close(nx, ord, prev, first);
      assert Links(nx[..], ord);
      assert IsLabelling(ord, mn, n);
    }

    /** `nexts[prev] = first`: the link that closes the circle. */
    static method Close(nx: array<nat>, ghost ord: seq<nat>, prev: nat, first: nat)
      requires Chain(nx[..], ord) && ord != [] && prev == ord[|ord| - 1] && first == ord[0]
      requires forall i :: 0 <= i < |ord| - 1 ==> ord[i] != ord[|ord| - 1]
      modifies nx
      ensures Links(nx[..], ord)
    {
      nx[prev] := first;
      ChainAgree(old(nx[..]), nx[..], ord);
    }

    /** `nexts[prev] = x`: one more link at the end of a chain of distinct labels. */
    static method Link(nx: array<nat>, ghost s: seq<nat>, prev: nat, x: nat)
      requires Chain(nx[..], s) && s != [] && prev == s[|s| - 1] && x < nx.Length
      requires forall i :: 0 <= i < |s| - 1 ==> s[i] != s[|s| - 1]
      modifies nx
      ensures Chain(nx[..], s + [x])
    {
      ChainSnoc(nx[..], s, x);
      nx[prev] := x;
    }

    /** One step of the first loop of `parse`: the digit `ds[i]` follows the one before. */
    static method LinkDigit(nx: array<nat>, ds: seq<nat>, ghost ord: seq<nat>, ghost lo: nat, ghost n: nat,
                            i: nat, prev: nat)
      requires 0 < i < |ds| <= |ord| && ord[..|ds|] == ds && IsLabelling(ord, lo, n) && lo <= n
      requires ds[i] < nx.Length && Chain(nx[..], ds[..i]) && prev == ds[i - 1]
      modifies nx
      ensures Chain(nx[..], ds[..i + 1])
    {
      LastDistinct(ord, lo, n, i);
      assert ord[..i] == ds[..i];
      Link(nx, ds[..i], prev, ds[i]);
      assert ds[..i] + [ds[i]] == ds[..i + 1];
    }

    /** The state of the first loop of `parse` after `i` digits: those digits
        are linked, and the first, the last, the smallest and the largest are known. */
    static ghost predicate Scanned(nx: seq<nat>, ds: seq<nat>, i: nat, first: nat, prev: nat, mn: nat, mx: nat)
    {
      && i <= |ds|
      && (i > 0 ==> first == ds[0] && prev == ds[i - 1] && Chain(nx, ds[..i]))
      && (i > 0 ==> mn in ds[..i] && mx in ds[..i])
      && (i == 0 ==> mn == UsizeMax && mx == 0)
      && forall j :: 0 <= j < i ==> mn <= ds[j] <= mx
    }

    /** The body of the first loop of `parse` for the digit `ds[i]`. */
    static method ScanDigit(nx: array<nat>, ds: seq<nat>, ghost ord: seq<nat>, ghost lo: nat, ghost n: nat,
                            i: nat, first: nat, prev: nat, mn: nat, mx: nat)
      returns (first': nat, prev': nat, mn': nat, mx': nat)
      requires i < |ds| <= |ord| && ord[..|ds|] == ds && IsLabelling(ord, lo, n) && lo <= n
      requires ds[i] < nx.Length && ds[i] < 10
      requires Scanned(nx[..], ds, i, first, prev, mn, mx)
      modifies nx
      ensures Scanned(nx[..], ds, i + 1, first', prev', mn', mx')
    {
      var x := ds[i];
      first', mn', mx' := first, mn, mx;
      if i == 0 {
        first' := x;
        assert Chain(nx[..], ds[..1]);
      } else {
        LinkDigit(nx, ds, ord, lo, n, i, prev);
      }
      prev' := x;
      if x < mn' {
        mn' := x;
      }
      if x > mx' {
        mx' := x;
      }
      assert ds[..i + 1] == ds[..i] + [x];
    }

    /** The first loop of `parse`: link the digits in input order and track
        the first, the last, the smallest and the largest. */
    static method LinkDigits(nx: array<nat>, ds: seq<nat>, ghost ord: seq<nat>, ghost lo: nat, ghost hi: nat,
                             ghost n: nat)
      returns (first: nat, prev: nat, mn: nat, mx: nat)
      requires ds != [] && IsLeast(ds, lo) && IsGreatest(ds, hi) && 1 <= lo && hi <= n < nx.Length
      requires forall i :: 0 <= i < |ds| ==> ds[i] < 10
      requires IsLabelling(ord, lo, n) && |ds| <= |ord| && ord[..|ds|] == ds
      modifies nx
      ensures Chain(nx[..], ds) && first == ds[0] && prev == ds[|ds| - 1]
      ensures mn == lo && mx == hi
    {
      mn, mx := UsizeMax, 0;
      first, prev := 0, 0;
      for i := 0 to |ds|
        invariant Scanned(nx[..], ds, i, first, prev, mn, mx)
      {
        first, prev, mn, mx := ScanDigit(nx, ds, ord, lo, n, i, first, prev, mn, mx);
      }
      assert ds[..|ds|] == ds;
    }

    /** The second loop of `parse`: link the labels above the largest digit
        up to `n` after the last digit. */
    static method LinkAbove(nx: array<nat>, ghost len: nat, ghost ord: seq<nat>, ghost lo: nat, ghost hi: nat,
                            n: nat, prev: nat, mx: nat)
      returns (prev': nat, mx': nat)
      requires 0 < len <= |ord| && lo <= mx == hi <= n && nx.Length == n + 1
      requires Above(ord, len, lo, hi, n)
      requires Chain(nx[..], ord[..len]) && prev == ord[len - 1]
      modifies nx
      ensures Chain(nx[..], ord) && prev' == ord[|ord| - 1] && mx' == n
    {
      prev', mx' := prev, mx;
      ghost var j := len;
      for x := mx + 1 to n + 1
        invariant j == x - hi - 1 + len && 0 < j <= |ord|
        invariant prev' == ord[j - 1] && Chain(nx[..], ord[..j])
        invariant x > hi + 1 ==> mx' == n
        invariant x == hi + 1 ==> mx' == hi
      {
        AboveStep(ord, len, lo, hi, n, j, x);
        Link(nx, ord[..j], prev', x);
        prev' := x;
        mx' := n;
        j := j + 1;
      }
      assert ord[..|ord|] == ord;
    }

    /** `step`: one move. Only three entries change: the destination now
        leads to the first picked-up cup, the last picked-up cup to what
        followed the destination, and the current cup to what followed the
        picked-up cups, which becomes the current cup. */
    method Step()
      requires Valid()
      modifies this, nexts
      ensures Valid()
      ensures order == StepOrder(old(order), min, max)
      ensures var o := old(order); var k := DestIndex(o, min, max);
        nexts[..] == old(nexts[..])[o[4 + k] := o[1]][o[3] := old(nexts[o[4 + k]])][o[0] := o[4]]
    {
      ghost var o := order;
      var next := Move(nexts, current, o, min, max);
      current := next;
      order := StepOrder(o, min, max);
    }

    /** The body of `step` on the array of links, for the circle `o` read
        from the current cup `cur`. */
    static method Move(nexts: array<nat>, cur: nat, ghost o: seq<nat>, lo: nat, hi: nat) returns (next: nat)
      requires IsLabelling(o, lo, hi) && 1 <= lo && hi - lo + 1 >= 5 && nexts.Length == hi + 1
      requires |o| > 0 && o[0] == cur && Links(nexts[..], o)
      modifies nexts
      ensures next == StepOrder(o, lo, hi)[0] && Links(nexts[..], StepOrder(o, lo, hi))
      ensures var k := DestIndex(o, lo, hi);
        nexts[..] == old(nexts[..])[o[4 + k] := o[1]][o[3] := old(nexts[o[4 + k]])][o[0] := o[4]]
    {
      ghost var nx := nexts[..];
      LabellingFacts(o, lo, hi);
      PickupLinks(nx, o);
      var a := nexts[cur];
      var b := nexts[a];
      var c := nexts[b];
      var pickup := [a, b, c];
      assert pickup == o[1..4];
      ghost var k := DestIndex(o, lo, hi);
      var dest := FindDestination(cur, pickup, lo, hi);
      assert dest == o[4 + k];
      var afterPickup := nexts[c];
      var afterDest := nexts[dest];
      nexts[dest] := a;
      nexts[c] := afterDest;
      nexts[cur] := afterPickup;
      next := afterPickup;
      assert nexts[..] == nx[o[4 + k] := o[1]][o[3] := nx[o[4 + k]]][o[0] := o[4]];
      UpdateRewired(nx, o, k);
      StepLinks(nx, nexts[..], o, lo, hi);
    }

    /** `step`'s search: count down from the current cup, wrapping below
        `lo` to `hi`, until a cup that was not picked up. */
    static method FindDestination(cur: nat, pickup: seq<nat>, lo: nat, hi: nat) returns (dest: nat)
      requires 1 <= lo <= cur <= hi && hi - lo + 1 >= 5 && |pickup| == 3
      ensures dest == Destination(cur, pickup, lo, hi)
    {
      BelowBack(cur, 0, lo, hi);
      dest := Below(cur, lo, hi);
      ghost var i := 1;
      while dest in pickup
        invariant 1 <= i <= 4 && dest == Back(cur, i, lo, hi)
        invariant forall j :: 1 <= j < i ==> Back(cur, j, lo, hi) in pickup
        decreases 4 - i
      {
        assert DestDistance(cur, pickup, lo, hi) > i;
        BelowBack(cur, i, lo, hi);
        dest := Below(dest, lo, hi);
        i := i + 1;
      }
      assert i == DestDistance(cur, pickup, lo, hi);
    }

    /** `run_steps`: `moves` moves. */
    method RunSteps(moves: nat)
      requires Valid()
      modifies this, nexts
      ensures Valid()
      ensures order == Iterate(old(order), min, max, moves)
    {
      for k := 0 to moves
        invariant Valid()
        invariant order == Iterate(old(order), min, max, k)
      {
        Step();
      }
    }
  }

  /** `parse`: read the whole input, drop its last character (the newline)
      and parse the rest. */
  method ParseInput(n: nat, input: string) returns (circle: Circle)
    requires |input| >= 2 && AllDigits(input[..|input| - 1]) && Playable(Digits(input[..|input| - 1]), n)
    ensures circle.Valid() && circle.n == n && fresh(circle) && fresh(circle.nexts)
    ensures circle.order == Initial(Digits(input[..|input| - 1]), n)
    ensures circle.current == DigitValue(input[0])
  {
    var s := input[..|input| - 1];
    circle := new Circle.Parse(n, s);
  }

  /** The labels after cup 1, read clockwise from it: what `part_1` prints. */
  function After1(order: seq<nat>, hi: nat): (r: seq<nat>)
    requires IsLabelling(order, 1, hi) && hi >= 1
    ensures |r| == hi - 1
  {
    LabellingFacts(order, 1, hi);
    var j := IndexOf(order, 1);
    order[j + 1..] + order[..j]
  }

  /** The labels after cup 1 are every label but 1, each once. */
  lemma After1Labels(order: seq<nat>, hi: nat)
    requires IsLabelling(order, 1, hi) && hi >= 1
    ensures multiset(After1(order, hi)) + multiset{1} == multiset(order)
    ensures 1 !in After1(order, hi)
  {
    LabellingFacts(order, 1, hi);
    var j := IndexOf(order, 1);
    var r := After1(order, hi);
    assert order == order[..j] + [1] + order[j + 1..];
    forall i | 0 <= i < |r| ensures r[i] != 1 {
      if i < |order| - j - 1 {
        assert r[i] == order[j + 1 + i];
      } else {
        assert r[i] == order[i - (|order| - j - 1)];
      }
    }
  }

  /** The circle read from cup 1 is cup 1 followed by the labels after it. */
  lemma RotateAt1(order: seq<nat>, hi: nat)
    requires IsLabelling(order, 1, hi) && hi >= 1
    ensures 1 in order
    ensures var j := IndexOf(order, 1); order[j..] + order[..j] == [1] + After1(order, hi)
  {
    LabellingFacts(order, 1, hi);
  }

  /** Reading a cycle of links from another cup gives a cycle of links. */
  lemma RotateLinks(nx: seq<nat>, o: seq<nat>, j: nat)
    requires Links(nx, o) && j < |o|
    ensures Links(nx, o[j..] + o[..j])
  {
    if j > 0 {
      ChainSlice(nx, o, j, |o|);
      ChainSlice(nx, o, 0, j);
      assert o[j..][|o| - j - 1] == o[|o| - 1];
      ChainAppend(nx, o[j..], o[..j]);
      assert nx[o[j - 1]] == o[j];
    } else {
      assert o[j..] + o[..j] == o;
    }
  }

  /** The decimal labels, one after another. */
  function ShowLabels(s: seq<nat>): string
  {
    if s == [] then "" else ShowNat(s[0]) + ShowLabels(s[1..])
  }

  /** Writing one more label appends its decimal digits. */
  lemma {:induction false} ShowLabelsSnoc(s: seq<nat>, x: nat)
    ensures ShowLabels(s + [x]) == ShowLabels(s) + ShowNat(x)
  {
    if s != [] {
      assert (s + [x])[1..] == s[1..] + [x];
      ShowLabelsSnoc(s[1..], x);
    }
  }

  /** Labels below ten are written one digit each, and read back by `to_digit`. */
  lemma {:induction false} DigitsShowLabels(s: seq<nat>)
    requires forall i :: 0 <= i < |s| ==> s[i] < 10
    ensures AllDigits(ShowLabels(s)) && Digits(ShowLabels(s)) == s
  {
    if s != [] {
      DigitsShowLabels(s[1..]);
      var t := ShowLabels(s);
      assert t == [DigitChar(s[0])] + ShowLabels(s[1..]);
      assert t[1..] == ShowLabels(s[1..]);
    }
  }

  /** The circle read from cup 1, as links: cup 1 and then the labels after it. */
  lemma From1Links(nx: seq<nat>, order: seq<nat>, hi: nat)
    requires hi >= 1 && CircleOf(nx, order, 1, hi)
    ensures Links(nx, [1] + After1(order, hi))
    ensures forall i :: 0 < i < hi ==> ([1] + After1(order, hi))[i] != 1
  {
    RotateAt1(order, hi);
    After1Labels(order, hi);
    RotateLinks(nx, order, IndexOf(order, 1));
    forall i | 0 < i < hi ensures ([1] + After1(order, hi))[i] != 1 {
      assert ([1] + After1(order, hi))[i] == After1(order, hi)[i - 1];
    }
  }

  /** One link of the read-out: cup 1 comes back exactly after the last label. */
  lemma ReadStep(nx: seq<nat>, rot: seq<nat>, t: nat)
    requires Links(nx, rot) && |rot| > 0 && rot[0] == 1 && t < |rot|
    requires forall i :: 0 < i < |rot| ==> rot[i] != 1
    ensures rot[t] < |nx|
    ensures t + 1 < |rot| ==> nx[rot[t]] == rot[t + 1] != 1
    ensures t + 1 == |rot| ==> nx[rot[t]] == 1 && rot[1..t + 1] == rot[1..]
  {
  }

  /** The read-out loop of `part_1`: follow the links from cup 1 and write
      each label until cup 1 comes round again. `rot` is the circle read
      from cup 1. */
  method ReadLabels(nx: array<nat>, ghost rot: seq<nat>) returns (out: string)
    requires Links(nx[..], rot) && |rot| > 0 && rot[0] == 1
    requires forall i :: 0 < i < |rot| ==> rot[i] != 1
    ensures out == ShowLabels(rot[1..])
  {
    var x := 1;
    out := "";
    ghost var t := 0;
    while true
      invariant 0 <= t < |rot| && x == rot[t] && out == ShowLabels(rot[1..t + 1])
      decreases |rot| - t
    {
      ReadStep(nx[..], rot, t);
      x := nx[x];
      if x == 1 {
        return;
      }
      ShowLabelsSnoc(rot[1..t + 1], x);
      assert rot[1..t + 1] + [x] == rot[1..t + 2];
      out := out + ShowNat(x);
      t := t + 1;
    }
  }

  /** `part_1`: play the moves, then read the labels after cup 1. Cup 1 must
      be in the circle, or the read-out never ends. */
  method Part1(circle: Circle, moves: nat) returns (out: string)
    requires circle.Valid() && circle.n == 9 && circle.min == 1
    modifies circle, circle.nexts
    ensures out == ShowLabels(After1(Iterate(old(circle.order), 1, circle.n, moves), circle.n))
  {
    circle.RunSteps(moves);
    From1Links(circle.nexts[..], circle.order, circle.max);
    ghost var rot := [1] + After1(circle.order, circle.max);
    assert rot[1..] == After1(circle.order, circle.max);
    out := ReadLabels(circle.nexts, rot);
  }

  /** The read-out of `part_2`: the two cups after cup 1 are the first two
      labels after it, and their product is returned. */
  method ProductAfter1(nx: array<nat>, ghost order: seq<nat>, ghost hi: nat) returns (product: nat)
    requires hi >= 3 && CircleOf(nx[..], order, 1, hi)
    ensures var r := After1(order, hi); product == r[0] * r[1]
  {
    RotateAt1(order, hi);
    ghost var j := IndexOf(order, 1);
    RotateLinks(nx[..], order, j);
    ghost var rot := order[j..] + order[..j];
    assert rot[0] == 1 && rot[1] == After1(order, hi)[0] && rot[2] == After1(order, hi)[1];
    var a := nx[1];
    var b := nx[a];
    product := a * b;
  }

  /** `part_2`: ten million moves on a million cups, then the product of the
      two labels after cup 1 (at most 10^12, so the `u64` product is exact). */
  method Part2(circle: Circle) returns (product: nat)
    requires circle.Valid() && circle.n == 1000000 && circle.min == 1
    modifies circle, circle.nexts
    ensures var r := After1(Iterate(old(circle.order), 1, circle.n, 10000000), circle.n);
      product == r[0] * r[1]
  {
    circle.RunSteps(10000000);
    product := ProductAfter1(circle.nexts, circle.order, circle.max);
  }
}
