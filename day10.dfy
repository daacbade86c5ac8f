/** Day 10: a chain of joltage adapters. Sorted, each adapter may follow one
    at most 3 jolts below it; the outlet is 0 and the device sits 3 above the
    largest adapter. Part 1 multiplies the numbers of 1-jolt and 3-jolt gaps;
    part 2 counts the arrangements with a window of the last three counts. */
module Day10 {
  import opened Text
  import opened Seqs

  /** `parse`: one number per line; a bad line makes the source's `unwrap`
      panic, modelled as `None`. */
  function Parse(lines: seq<string>): (r: Option<seq<nat>>)
    ensures r.Some? ==> |r.value| == |lines|
    ensures r.Some? ==> forall i :: 0 <= i < |lines| ==> ParseNat(lines[i]) == Some(r.value[i])
    ensures r.None? <==> exists i :: 0 <= i < |lines| && ParseNat(lines[i]).None?
  {
    ParseEach(lines, ParseNat)
  }

  /** The gap from each element of `s` to the one before it, `prev` before the first. */
  function GapsFrom(prev: int, s: seq<int>): (g: seq<int>)
    ensures |g| == |s|
  {
    seq(|s|, i requires 0 <= i < |s| => s[i] - if i == 0 then prev else s[i - 1])
  }

  /** The fold of `part_1` over the pairs (adapter, the one before it). */
  function GapFold(s: seq<int>, prev: int, c1: nat, c3: nat): (nat, nat)
    decreases |s|
  {
    if s == [] then (c1, c3)
    else
      var d := s[0] - prev;
      GapFold(s[1..], s[0], if d == 1 then c1 + 1 else c1, if d == 3 then c3 + 1 else c3)
  }

  /** The fold adds the numbers of gaps of 1 and of 3 to its counters. */
  lemma {:induction false} GapFoldCounts(s: seq<int>, prev: int, c1: nat, c3: nat)
    ensures GapFold(s, prev, c1, c3) == (c1 + Count(GapsFrom(prev, s), 1), c3 + Count(GapsFrom(prev, s), 3))
  {
    if s != [] {
      var d := s[0] - prev;
      var g := GapsFrom(prev, s);
      assert g[0] == d;
      assert g[1..] == GapsFrom(s[0], s[1..]);
      assert Count(g, 1) == (if d == 1 then 1 else 0) + Count(g[1..], 1);
      assert Count(g, 3) == (if d == 3 then 1 else 0) + Count(g[1..], 3);
      GapFoldCounts(s[1..], s[0], if d == 1 then c1 + 1 else c1, if d == 3 then c3 + 1 else c3);
    }
  }

  /** `part_1`: the 1-jolt gaps times the 3-jolt gaps of the sorted chain from
      the outlet, the device's final 3-jolt gap counted from the start. */
  function Part1(adapters: seq<nat>): (n: nat)
  {
    var p := GapFold(SortAsc(adapters), 0, 0, 1);
    p.0 * p.1
  }

  lemma Part1Counts(adapters: seq<nat>)
    ensures var g := GapsFrom(0, SortAsc(adapters));
      Part1(adapters) == Count(g, 1) * (Count(g, 3) + 1)
  {
    var s := SortAsc(adapters);
    var g := GapsFrom(0, s);
    GapFoldCounts(s, 0, 0, 1);
    var p := GapFold(s, 0, 0, 1);
    assert p.0 == Count(g, 1) && p.1 == Count(g, 3) + 1;
  }

  /** The outlet, the sorted adapters and the device. */
  function Nodes(adapters: seq<nat>): (nodes: seq<int>)
    requires |adapters| > 0
    ensures |nodes| == |adapters| + 2 && nodes[0] == 0
    ensures nodes[|nodes| - 1] == Max(adapters) + 3
    ensures forall i :: 1 <= i < |nodes| - 1 ==> nodes[i] == SortAsc(adapters)[i - 1]
  {
    var s := SortAsc(adapters);
    SortedLast(adapters, s);
    [0] + s + [s[|s| - 1] + 3]
  }

  /** The last of the sorted adapters is the largest one. */
  lemma SortedLast(adapters: seq<nat>, s: seq<int>)
    requires |adapters| > 0 && s == SortAsc(adapters)
    ensures s[|s| - 1] == Max(adapters)
  {
    var m := Max(adapters);
    assert m in multiset(s);
    var last := s[|s| - 1];
    assert last in multiset(adapters);
    var k :| 0 <= k < |adapters| && adapters[k] == last;
  }

  /** The number of chains from the outlet to node `i`, each step rising at
      most 3 jolts: the reference for part 2. */
  function Paths(nodes: seq<int>, i: nat): (n: nat)
    requires i < |nodes|
    decreases i, i + 1
  {
    if i == 0 then 1 else PathSum(nodes, i, i)
  }

  /** The chains into node `i` through one of the nodes before `j`. */
  function PathSum(nodes: seq<int>, i: nat, j: nat): (n: nat)
    requires j <= i < |nodes|
    decreases i, j
  {
    if j == 0 then 0
    else PathSum(nodes, i, j - 1) + if nodes[i] - nodes[j - 1] <= 3 then Paths(nodes, j - 1) else 0
  }

  /** The window of part 2 after node `n - 1`: up to three (count, joltage)
      pairs, the newest first. */
  function Recent(nodes: seq<int>, n: nat): (w: seq<(nat, int)>)
    requires 1 <= n <= |nodes|
    ensures |w| == if n < 3 then n else 3
  {
    seq(if n < 3 then n else 3, t requires 0 <= t < (if n < 3 then n else 3) => (Paths(nodes, n - 1 - t), nodes[n - 1 - t]))
  }

  /** What the inner loop of part 2 adds up over the first `j` entries of the window. */
  function WindowSum(conns: seq<(nat, int)>, x: int, j: nat): nat
    requires j <= |conns|
  {
    if j == 0 then 0
    else WindowSum(conns, x, j - 1) + if x - conns[j - 1].1 <= 3 then conns[j - 1].0 else 0
  }

  /** No node more than three places back is within 3 jolts. */
  lemma {:induction false} PathSumFar(nodes: seq<int>, i: nat, j: nat)
    requires StrictlyIncreasing(nodes) && j <= i < |nodes| && j + 3 <= i
    ensures PathSum(nodes, i, j) == 0
  {
    if j > 0 {
      StrictGap(nodes, j - 1, i);
      PathSumFar(nodes, i, j - 1);
    }
  }

  lemma {:induction false} StrictGap(nodes: seq<int>, k: nat, i: nat)
    requires StrictlyIncreasing(nodes) && k <= i < |nodes|
    ensures nodes[i] - nodes[k] >= i - k
    decreases i - k
  {
    if k < i {
      StrictGap(nodes, k + 1, i);
    }
  }

  /** The last `t` nodes before `i` contribute what the window's first `t` entries do. */
  lemma {:induction false} WindowSumPaths(nodes: seq<int>, i: nat, t: nat)
    requires 1 <= i < |nodes| && t <= (if i < 3 then i else 3)
    ensures PathSum(nodes, i, i) == PathSum(nodes, i, i - t) + WindowSum(Recent(nodes, i), nodes[i], t)
  {
    if t > 0 {
      WindowSumPaths(nodes, i, t - 1);
      var w := Recent(nodes, i);
      assert w[t - 1] == (Paths(nodes, i - t), nodes[i - t]);
    }
  }

  /** On distinct adapters, the window holds everything part 2 needs. */
  lemma WindowPaths(nodes: seq<int>, i: nat)
    requires StrictlyIncreasing(nodes) && 1 <= i < |nodes|
    ensures Paths(nodes, i) == WindowSum(Recent(nodes, i), nodes[i], |Recent(nodes, i)|)
  {
    var t := if i < 3 then i else 3;
    WindowSumPaths(nodes, i, t);
    if i >= 3 {
      PathSumFar(nodes, i, i - 3);
    }
  }

  /** Pushing node `n`'s pair on the window and truncating to three gives the window after it. */
  lemma RecentPush(nodes: seq<int>, n: nat, count: nat)
    requires 1 <= n < |nodes| && count == Paths(nodes, n)
    ensures var w := [(count, nodes[n])] + Recent(nodes, n);
      (if |w| > 3 then w[..3] else w) == Recent(nodes, n + 1)
  {
  }

  /** The joltages of the window: the last up to three nodes, the newest first. */
  predicate Joltages(nodes: seq<int>, n: nat, conns: seq<(nat, int)>)
    requires 1 <= n <= |nodes|
  {
    |conns| == (if n < 3 then n else 3) && forall t :: 0 <= t < |conns| ==> conns[t].1 == nodes[n - 1 - t]
  }

  /** One step of part 2's fold: push node `n`'s count and keep three entries. */
  function Advance(conns: seq<(nat, int)>, count: nat, x: int): (w: seq<(nat, int)>)
  {
    var pushed := [(count, x)] + conns;
    if |pushed| > 3 then pushed[..3] else pushed
  }

  lemma AdvanceStep(nodes: seq<int>, n: nat, conns: seq<(nat, int)>, count: nat)
    requires 1 <= n < |nodes| && Joltages(nodes, n, conns)
    requires StrictlyIncreasing(nodes) ==> conns == Recent(nodes, n)
    requires count == WindowSum(conns, nodes[n], |conns|)
    ensures Joltages(nodes, n + 1, Advance(conns, count, nodes[n]))
    ensures StrictlyIncreasing(nodes) ==> Advance(conns, count, nodes[n]) == Recent(nodes, n + 1)
  {
    if StrictlyIncreasing(nodes) {
      WindowPaths(nodes, n);
      RecentPush(nodes, n, count);
    }
  }

  /** `part_2`: folds the sorted adapters and the device through the window
      `conns`, which starts as the outlet's pair (1, 0). On distinct adapters
      the answer is the number of chains from the outlet to the device. The
      source's `unwrap` of the largest adapter panics on an empty list. */
  method Part2(adapters: seq<nat>) returns (r: nat)
    requires |adapters| > 0
    ensures StrictlyIncreasing(Nodes(adapters)) ==> r == Paths(Nodes(adapters), |adapters| + 1)
  {
    var nodes := Nodes(adapters);
    var s := SortAsc(adapters);
    var device := s[|s| - 1] + 3;
    var xs := s + [device];
    assert forall i :: 0 <= i < |xs| ==> xs[i] == nodes[i + 1];
    var conns: seq<(nat, int)> := [(1, 0)];
    for i := 0 to |xs|
      invariant Joltages(nodes, i + 1, conns)
      invariant StrictlyIncreasing(nodes) ==> conns == Recent(nodes, i + 1)
    {
      var x := xs[i];
      var count := Connections(conns, x);
      AdvanceStep(nodes, i + 1, conns, count);
      conns := [(count, x)] + conns;
      if |conns| > 3 {
        conns := conns[..3];
      }
    }
    r := conns[0].0;
  }

  /** The inner loop of `part_2`: the counts of the window entries within 3
      jolts below `x`. */
  method Connections(conns: seq<(nat, int)>, x: int) returns (count: nat)
    ensures count == WindowSum(conns, x, |conns|)
  {
    count := 0;
    for j := 0 to |conns|
      invariant count == WindowSum(conns, x, j)
    {
      var (conn, adapter) := conns[j];
      if x - adapter <= 3 {
        count := count + conn;
      }
    }
  }
}
