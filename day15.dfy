/** Day 15: the memory game. After the starting numbers, each turn speaks 0
    if the last number was new, and otherwise how many turns ago it was
    spoken before. The simulation keeps, for every number spoken before the
    current turn, the turn it was last spoken, in one of three maps: a
    `HashMap`, a `VecMap` growing on demand, or a fixed-size `SizedMap` that
    folds keys modulo its size. */
module Day15 {
  import opened Text

  /** `parse`: drop the final newline and split on commas. */
  function Parse(input: string): Option<seq<nat>>
  {
    ParseNumbers(Split(Pop(input), ','))
  }

  /** The starting numbers as the input file writes them. */
  function Show(ns: seq<nat>): string
    requires |ns| > 0
  {
    ShowNumbers(ns) + "\n"
  }

  /** A written list of starting numbers reads back. */
  lemma ParseShow(ns: seq<nat>)
    requires |ns| > 0
    ensures Parse(Show(ns)) == Some(ns)
  {
    assert Pop(Show(ns)) == ShowNumbers(ns);
    ParseShowNumbers(ns);
  }

  /** The last turn (index) at which `x` was spoken in `s`, if any. */
  function LastIndex(s: seq<nat>, x: nat): (r: Option<nat>)
    ensures r.Some? ==> r.value < |s|
  {
    if s == [] then None
    else if s[|s| - 1] == x then Some(|s| - 1)
    else LastIndex(s[..|s| - 1], x)
  }

  /** `LastIndex` finds the last occurrence, and none exactly when there is none. */
  lemma {:induction false} LastIndexSpec(s: seq<nat>, x: nat)
    ensures var r := LastIndex(s, x);
      (r.Some? ==> s[r.value] == x && forall j :: r.value < j < |s| ==> s[j] != x) &&
      (r.None? ==> x !in s)
  {
    if s != [] && s[|s| - 1] != x {
      var t := s[..|s| - 1];
      LastIndexSpec(t, x);
      assert s == t + [s[|s| - 1]];
    }
  }

  /** The number spoken after the turns `s`: 0 if the last number is new,
      otherwise the turns since it was spoken before. */
  function Next(s: seq<nat>): (r: nat)
    requires |s| > 0
    ensures r < |s|
  {
    match LastIndex(s[..|s| - 1], s[|s| - 1])
    case None => 0
    case Some(j) => |s| - 1 - j
  }

  /** The first `n` numbers spoken, from the starting numbers on: the
      reference the simulations are proved against. */
  function Game(start: seq<nat>, n: nat): (g: seq<nat>)
    requires |start| > 0
    ensures |g| == n
  {
    if n <= |start| then start[..n]
    else
      var g := Game(start, n - 1);
      g + [Next(g)]
  }

  /** Shorter games are prefixes of longer ones. */
  lemma {:induction false} GamePrefix(start: seq<nat>, n: nat, k: nat)
    requires |start| > 0 && k <= n
    ensures Game(start, n)[..k] == Game(start, k)
    decreases n
  {
    if k < n && n > |start| {
      var g := Game(start, n - 1);
      assert Game(start, n) == g + [Next(g)];
      assert (g + [Next(g)])[..k] == g[..k];
      GamePrefix(start, n - 1, k);
    }
  }

  /** When all starting numbers are below `b` and at most `b` turns are
      played, every spoken number is below `b`: a `SizedMap` of size `b`
      never folds a key. */
  lemma {:induction false} GameBound(start: seq<nat>, n: nat, b: nat)
    requires |start| > 0 && n <= b
    requires forall j :: 0 <= j < |start| ==> start[j] < b
    ensures forall j :: 0 <= j < n ==> Game(start, n)[j] < b
  {
    if n > |start| {
      GameBound(start, n - 1, b);
    }
  }

  /** The value at `k`, as `insert` returns it. */
  function Get(m: map<nat, nat>, k: nat): (r: Option<nat>)
    ensures r.Some? <==> k in m
    ensures r.Some? ==> r.value == m[k]
  {
    if k in m then Some(m[k]) else None
  }

  /** `FromIterator` for `HashMap<usize, usize>`: inserting the pairs in
      order, a later pair overwriting an earlier one with the same key. */
  function Collect(pairs: seq<(nat, nat)>): map<nat, nat>
  {
    if pairs == [] then map[]
    else
      var n := |pairs| - 1;
      Collect(pairs[..n])[pairs[n].0 := pairs[n].1]
  }

  /** `enumerate().map(|(i, x)| (x, i))`. */
  function Turns(s: seq<nat>): (r: seq<(nat, nat)>)
    ensures |r| == |s|
  {
    seq(|s|, i requires 0 <= i < |s| => (s[i], i))
  }

  /** The table `simulate_to` keeps: each number spoken in `s` with its last turn. */
  function LatestTurns(s: seq<nat>): map<nat, nat>
  {
    Collect(Turns(s))
  }

  lemma LatestTurnsSnoc(s: seq<nat>, x: nat)
    ensures LatestTurns(s + [x]) == LatestTurns(s)[x := |s|]
  {
    assert Turns(s + [x])[..|s|] == Turns(s);
  }

  /** The table holds exactly the numbers spoken, each at its last turn. */
  lemma {:induction false} LatestTurnsIndex(s: seq<nat>, x: nat)
    ensures Get(LatestTurns(s), x) == LastIndex(s, x)
  {
    if s != [] {
      var n := |s| - 1;
      assert s == s[..n] + [s[n]];
      LatestTurnsSnoc(s[..n], s[n]);
      LatestTurnsIndex(s[..n], x);
    }
  }

  /** One turn of the loop: the table before the current turn, its old entry
      for the current number, and the updated table give the next turn. */
  lemma TurnStep(start: seq<nat>, i: nat)
    requires |start| > 0 && i + 1 >= |start|
    ensures var g := Game(start, i + 1);
      var g2 := Game(start, i + 2);
      g2[..i + 1] == g &&
      LatestTurns(g) == LatestTurns(g[..i])[g[i] := i] &&
      g2[i + 1] == match Get(LatestTurns(g[..i]), g[i]) case None => 0 case Some(p) => i - p
  {
    var g := Game(start, i + 1);
    GamePrefix(start, i + 2, i + 1);
    assert g == g[..i] + [g[i]];
    LatestTurnsSnoc(g[..i], g[i]);
    LatestTurnsIndex(g[..i], g[i]);
  }

  /** The table and the current number for the starting numbers. */
  lemma StartTurn(start: seq<nat>)
    requires |start| > 0
    ensures var i := |start| - 1;
      var g := Game(start, i + 1);
      g == start && g[..i] == start[..i] && g[i] == start[i]
  {
  }

  /** `simulate_to` with a `HashMap` (part 1): the number spoken at turn
      `nth`. When `nth` is below the number of starting numbers the loop is
      empty and the last starting number comes back. The source's
      `input.len() - 1` and `nth - 1` underflow on an empty input and on
      turn 0. */
  method SimulateTo(nth: nat, input: seq<nat>) returns (r: nat)
    requires |input| > 0 && nth > 0
    ensures nth >= |input| ==> r == Game(input, nth)[nth - 1]
    ensures nth <= |input| ==> r == input[|input| - 1]
  {
    var last := |input| - 1;
    var lastSeen := LatestTurns(input[..last]);
    var current := input[last];
    StartTurn(input);
    var i := last;
    while i < nth - 1
      invariant last <= i && (i <= nth - 1 || i == last)
      invariant lastSeen == LatestTurns(Game(input, i + 1)[..i]) && current == Game(input, i + 1)[i]
      decreases nth - 1 - i
    {
      lastSeen, current := HashTurn(lastSeen, current, i, input);
      i := i + 1;
    }
    r := current;
  }

  /** One pass of the `HashMap` loop: speak 0 or the age of the old entry,
      then record the current turn. */
  method HashTurn(lastSeen: map<nat, nat>, current: nat, i: nat, ghost input: seq<nat>)
    returns (lastSeen': map<nat, nat>, next: nat)
    requires |input| > 0 && i + 1 >= |input|
    requires lastSeen == LatestTurns(Game(input, i + 1)[..i]) && current == Game(input, i + 1)[i]
    ensures lastSeen' == LatestTurns(Game(input, i + 2)[..i + 1]) && next == Game(input, i + 2)[i + 1]
  {
    TurnStep(input, i);
    var prev := Get(lastSeen, current);
    lastSeen' := lastSeen[current := i];
    next := match prev case None => 0 case Some(p) => i - p;
  }

  /** When the turn loop stops, `current` is the number of the last turn. */
  lemma TurnsDone(input: seq<nat>, nth: nat, i: nat, current: nat)
    requires |input| > 0 && nth > 0 && |input| - 1 <= i && nth - 1 <= i
    requires i == nth - 1 || i == |input| - 1
    requires current == Game(input, i + 1)[i]
    ensures nth >= |input| ==> current == Game(input, nth)[nth - 1]
    ensures nth <= |input| ==> current == input[|input| - 1]
  {
  }

  /** The slots of a `VecMap` or `SizedMap` as a map. */
  function SlotMap(slots: seq<Option<nat>>): map<nat, nat>
  {
    map k | 0 <= k < |slots| && slots[k].Some? :: slots[k].value
  }

  /** The slots after `insert`'s loop has pushed `None` until `k` is an index. */
  function Grown(slots: seq<Option<nat>>, k: nat): (r: seq<Option<nat>>)
    ensures |r| > k
  {
    if |slots| > k then slots else slots + seq(k + 1 - |slots|, _ => None)
  }

  /** A `VecMap` insert is a `HashMap` insert: it returns the old value at
      `k` and the slots then hold the old contents with `k` set to `x`. */
  lemma VecInsert(slots: seq<Option<nat>>, k: nat, x: nat)
    ensures SlotMap(Grown(slots, k)[k := Some(x)]) == SlotMap(slots)[k := x]
    ensures Grown(slots, k)[k] == Get(SlotMap(slots), k)
  {
  }

  /** `VecMap`: a vector of optional values indexed by the key. */
  class VecMap {
    var slots: seq<Option<nat>>

    function Contents(): map<nat, nat>
      reads this
    {
      SlotMap(slots)
    }

    /** `FromIterator` for `VecMap`: an empty vector, then every pair inserted in order. */
    constructor FromIter(pairs: seq<(nat, nat)>)
      ensures Contents() == Collect(pairs)
    {
      slots := [];
      new;
      for j := 0 to |pairs|
        invariant Contents() == Collect(pairs[..j])
      {
        assert pairs[..j + 1][..j] == pairs[..j];
        VecInsert(slots, pairs[j].0, pairs[j].1);
        var _ := Insert(pairs[j].0, pairs[j].1);
      }
      assert pairs[..|pairs|] == pairs;
    }

    /** `VecMap::insert`: grow with `None` until `k` is an index, take the old
        value and store the new one. */
    method Insert(k: nat, x: nat) returns (out: Option<nat>)
      modifies this
      ensures slots == Grown(old(slots), k)[k := Some(x)]
      ensures out == Grown(old(slots), k)[k]
    {
      while |slots| <= k
        invariant |old(slots)| <= |slots| <= if |old(slots)| > k then |old(slots)| else k + 1
        invariant slots == old(slots) + seq(|slots| - |old(slots)|, _ => None)
        decreases k + 1 - |slots|
      {
        slots := slots + [None];
      }
      out := slots[k];
      slots := slots[k := Some(x)];
    }
  }

  /** `simulate_to` with a `VecMap` (part 2). */
  method SimulateToVec(nth: nat, input: seq<nat>) returns (r: nat)
    requires |input| > 0 && nth > 0
    ensures nth >= |input| ==> r == Game(input, nth)[nth - 1]
    ensures nth <= |input| ==> r == input[|input| - 1]
  {
    var last := |input| - 1;
    var lastSeen := new VecMap.FromIter(Turns(input[..last]));
    var current := input[last];
    StartTurn(input);
    if last < nth - 1 {
      for i := last to nth - 1
        invariant lastSeen.Contents() == LatestTurns(Game(input, i + 1)[..i]) && current == Game(input, i + 1)[i]
      {
        current := VecTurn(lastSeen, current, i, input);
      }
      TurnsDone(input, nth, nth - 1, current);
    } else {
      TurnsDone(input, nth, last, current);
    }
    r := current;
  }

  /** One pass of the `VecMap` loop: insert the current turn, then speak 0 or
      the age of the old entry, as the reference game does. */
  method VecTurn(lastSeen: VecMap, current: nat, i: nat, ghost input: seq<nat>) returns (next: nat)
    requires |input| > 0 && i + 1 >= |input|
    requires lastSeen.Contents() == LatestTurns(Game(input, i + 1)[..i]) && current == Game(input, i + 1)[i]
    modifies lastSeen
    ensures lastSeen.Contents() == LatestTurns(Game(input, i + 2)[..i + 1]) && next == Game(input, i + 2)[i + 1]
  {
    TurnStep(input, i);
    VecInsert(lastSeen.slots, current, i);
    var prev := lastSeen.Insert(current, i);
    match prev {
      case None => next := 0;
      case Some(p) => next := i - p;
    }
  }

  /** A `SizedMap` insert below its size is a `HashMap` insert. */
  lemma SizedInsert(slots: seq<Option<nat>>, k: nat, x: nat)
    requires k < |slots|
    ensures SlotMap(slots[k % |slots| := Some(x)]) == SlotMap(slots)[k := x]
    ensures slots[k % |slots|] == Get(SlotMap(slots), k)
  {
  }

  /** Keys that differ by the size share a slot: inserting 0 and then 2048
      into a `SizedMap<_, 2048>` loses the entry for 0, which a `HashMap` keeps. */
  lemma SizedCollision(slots: seq<Option<nat>>)
    requires slots == seq(2048, _ => None)
    ensures var s1 := slots[0 % 2048 := Some(1)];
      var s2 := s1[2048 % 2048 := Some(2)];
      SlotMap(s2) == map[0 := 2] && map[0 := 1, 2048 := 2] != map[0 := 2]
  {
    var s2 := slots[0 := Some(1)][0 := Some(2)];
    assert SlotMap(s2).Keys == {0} by {
      forall k | k in SlotMap(s2) ensures k == 0 {
        assert s2[k].Some?;
      }
    }
  }

  /** `SizedMap<_, N>`: a fixed array of optional values indexed by the key
      modulo `N`. */
  class SizedMap {
    const size: nat
    const slots: array<Option<nat>>

    function Contents(): map<nat, nat>
      reads this, slots
    {
      SlotMap(slots[..])
    }

    /** `FromIterator` for `SizedMap`: `[None; N]`, then every pair inserted in
        order. While every key is below `N` the contents are those of the
        pairs. A zero size makes `k % N` panic. */
    constructor FromIter(n: nat, pairs: seq<(nat, nat)>)
      requires n > 0
      ensures size == n && slots.Length == n && fresh(slots)
      ensures (forall j :: 0 <= j < |pairs| ==> pairs[j].0 < n) ==> Contents() == Collect(pairs)
      ensures forall k :: 0 <= k < n && slots[k].Some? ==> exists j :: 0 <= j < |pairs| && slots[k].value == pairs[j].1
    {
      size := n;
      slots := new Option<nat>[n](_ => None);
      new;
      ghost var fits := forall j :: 0 <= j < |pairs| ==> pairs[j].0 < n;
      for j := 0 to |pairs|
        invariant slots.Length == size == n
        invariant fits ==> Contents() == Collect(pairs[..j])
        invariant forall k :: 0 <= k < n && slots[k].Some? ==> exists i :: 0 <= i < j && slots[k].value == pairs[i].1
      {
        assert pairs[..j + 1][..j] == pairs[..j];
        if fits {
          SizedInsert(slots[..], pairs[j].0, pairs[j].1);
        }
        var _ := Insert(pairs[j].0, pairs[j].1);
      }
      assert pairs[..|pairs|] == pairs;
    }

    /** `SizedMap::insert`: the slot `k % N` is taken and overwritten. */
    method Insert(k: nat, x: nat) returns (out: Option<nat>)
      requires slots.Length == size > 0
      modifies slots
      ensures slots[..] == old(slots[..])[k % size := Some(x)]
      ensures out == old(slots[k % size])
    {
      var i := k % size;
      out := slots[i];
      slots[i] := Some(x);
    }
  }

  /** Every stored turn is before `i`. */
  predicate Before(slots: seq<Option<nat>>, i: nat)
  {
    forall k :: 0 <= k < |slots| && slots[k].Some? ==> slots[k].value < i
  }

  lemma BeforeStep(slots: seq<Option<nat>>, k: nat, i: nat)
    requires Before(slots, i) && k < |slots|
    ensures Before(slots[k := Some(i)], i + 1)
  {
  }

  /** No key of the game up to turn `nth` reaches `n`. */
  predicate Fits(n: nat, nth: nat, input: seq<nat>)
  {
    nth <= n && forall j :: 0 <= j < |input| ==> input[j] < n
  }

  /** One pass of the `SizedMap` loop on the slots alone. */
  lemma SizedLoopStep(before: seq<Option<nat>>, input: seq<nat>, nth: nat, i: nat, current: nat)
    requires |input| > 0 && |input| - 1 <= i < nth - 1 && |before| > 0
    requires Before(before, i)
    requires Fits(|before|, nth, input) ==> SlotMap(before) == LatestTurns(Game(input, i + 1)[..i])
    requires Fits(|before|, nth, input) ==> current == Game(input, i + 1)[i]
    ensures Before(before[current % |before| := Some(i)], i + 1)
    ensures Fits(|before|, nth, input) ==>
      SlotMap(before[current % |before| := Some(i)]) == LatestTurns(Game(input, i + 2)[..i + 1])
    ensures Fits(|before|, nth, input) ==>
      Game(input, i + 2)[i + 1] == match before[current % |before|] case None => 0 case Some(p) => i - p
  {
    BeforeStep(before, current % |before|, i);
    if Fits(|before|, nth, input) {
      GameBound(input, nth, |before|);
      GamePrefix(input, nth, i + 1);
      assert current == Game(input, nth)[i] < |before|;
      TurnStep(input, i);
      SizedInsert(before, current, i);
    }
  }

  /** What the `SizedMap` loop keeps before turn `i + 1`: every stored turn
      is earlier, and while the keys fit the slots hold the table of
      `simulate_to` and `current` is the number spoken at turn `i + 1`. */
  predicate SizedInv(slots: seq<Option<nat>>, input: seq<nat>, nth: nat, i: nat, current: nat)
    requires |input| > 0 && |input| - 1 <= i
  {
    Before(slots, i) &&
    (Fits(|slots|, nth, input) ==>
      SlotMap(slots) == LatestTurns(Game(input, i + 1)[..i]) && current == Game(input, i + 1)[i])
  }

  /** `simulate_to` with a `SizedMap` of `n` slots: while the starting numbers
      are below `n` and at most `n` turns are played, no key folds and the
      result is the reference game's, as for the 2048-slot map on turn 2020. */
  method SimulateToSized(n: nat, nth: nat, input: seq<nat>) returns (r: nat)
    requires |input| > 0 && nth > 0 && n > 0
    ensures Fits(n, nth, input) ==> nth >= |input| ==> r == Game(input, nth)[nth - 1]
    ensures Fits(n, nth, input) ==> nth <= |input| ==> r == input[|input| - 1]
  {
    var last := |input| - 1;
    var pairs := Turns(input[..last]);
    var lastSeen := new SizedMap.FromIter(n, pairs);
    SizedStart(lastSeen.slots[..], pairs, input, nth);
    r := SizedTurns(lastSeen, nth, input);
  }

  /** The slots filled with the starting numbers but the last satisfy the loop invariant. */
  lemma SizedStart(slots: seq<Option<nat>>, pairs: seq<(nat, nat)>, input: seq<nat>, nth: nat)
    requires |input| > 0 && pairs == Turns(input[..|input| - 1])
    requires (forall j :: 0 <= j < |pairs| ==> pairs[j].0 < |slots|) ==> SlotMap(slots) == Collect(pairs)
    requires forall k :: 0 <= k < |slots| && slots[k].Some? ==>
      exists j :: 0 <= j < |pairs| && slots[k].value == pairs[j].1
    ensures SizedInv(slots, input, nth, |input| - 1, input[|input| - 1])
  {
    var last := |input| - 1;
    StartTurn(input);
    forall k | 0 <= k < |slots| && slots[k].Some?
      ensures slots[k].value < last
    {
      var j :| 0 <= j < |pairs| && slots[k].value == pairs[j].1;
    }
    if Fits(|slots|, nth, input) {
      assert forall j :: 0 <= j < |pairs| ==> pairs[j].0 == input[j];
    }
  }

  /** The turn loop of `simulate_to` on a `SizedMap` set up with the starting numbers. */
  method SizedTurns(lastSeen: SizedMap, nth: nat, input: seq<nat>) returns (r: nat)
    requires |input| > 0 && nth > 0 && lastSeen.slots.Length == lastSeen.size > 0
    requires SizedInv(lastSeen.slots[..], input, nth, |input| - 1, input[|input| - 1])
    modifies lastSeen.slots
    ensures Fits(lastSeen.size, nth, input) ==> nth >= |input| ==> r == Game(input, nth)[nth - 1]
    ensures Fits(lastSeen.size, nth, input) ==> nth <= |input| ==> r == input[|input| - 1]
  {
    var last := |input| - 1;
    var current: nat := input[last];
    if last < nth - 1 {
      for i := last to nth - 1
        invariant SizedInv(lastSeen.slots[..], input, nth, i, current)
      {
        current := SizedTurn1(lastSeen, current, i, input, nth);
      }
      SizedDone(lastSeen.slots[..], input, nth, nth - 1, current);
    } else {
      SizedDone(lastSeen.slots[..], input, nth, last, current);
    }
    r := current;
  }

  /** When the `SizedMap` loop stops, `current` is the number of the last turn. */
  lemma SizedDone(slots: seq<Option<nat>>, input: seq<nat>, nth: nat, i: nat, current: nat)
    requires |input| > 0 && nth > 0 && |input| - 1 <= i
    requires (i <= nth - 1 || i == |input| - 1) && i >= nth - 1
    requires SizedInv(slots, input, nth, i, current)
    ensures Fits(|slots|, nth, input) ==> nth >= |input| ==> current == Game(input, nth)[nth - 1]
    ensures Fits(|slots|, nth, input) ==> nth <= |input| ==> current == input[|input| - 1]
  {
  }

  /** One pass of the `SizedMap` loop: insert the current turn, then speak 0
      or the age of the old entry. */
  method SizedTurn1(lastSeen: SizedMap, current: nat, i: nat, ghost input: seq<nat>, ghost nth: nat) returns (next: nat)
    requires lastSeen.slots.Length == lastSeen.size > 0
    requires |input| > 0 && |input| - 1 <= i < nth - 1
    requires SizedInv(lastSeen.slots[..], input, nth, i, current)
    modifies lastSeen.slots
    ensures SizedInv(lastSeen.slots[..], input, nth, i + 1, next)
  {
    ghost var before := lastSeen.slots[..];
    SizedLoopStep(before, input, nth, i, current);
    var prev := lastSeen.Insert(current, i);
    assert prev == before[current % lastSeen.size];
    match prev {
      case None => next := 0;
      case Some(p) => next := i - p;
    }
  }

  /** `part_1`: turn 2020 with a `HashMap`. */
  method Part1(input: seq<nat>) returns (r: nat)
    requires |input| > 0
    ensures |input| <= 2020 ==> r == Game(input, 2020)[2019]
  {
    r := SimulateTo(2020, input);
  }

  /** `part_2`: turn 30000000 with a `VecMap`. */
  method Part2(input: seq<nat>) returns (r: nat)
    requires |input| > 0
    ensures |input| <= 30000000 ==> r == Game(input, 30000000)[29999999]
  {
    r := SimulateToVec(30000000, input);
  }

  /** The first ten turns of the game started with 0, 3, 6. */
  lemma {:induction false} GameExample(start: seq<nat>)
    requires start == [0, 3, 6]
    ensures Game(start, 10) == [0, 3, 6, 0, 3, 3, 1, 0, 4, 0]
  {
    assert Game(start, 3) == [0, 3, 6];
    assert Game(start, 4) == [0, 3, 6, 0] by { assert [0, 3, 6][..2] == [0, 3]; assert LastIndex([0, 3], 6) == None; }
    assert Game(start, 5) == [0, 3, 6, 0, 3] by { assert [0, 3, 6, 0][..3] == [0, 3, 6]; assert LastIndex([0, 3, 6], 0) == Some(0); }
    assert Game(start, 6) == [0, 3, 6, 0, 3, 3] by { assert [0, 3, 6, 0, 3][..4] == [0, 3, 6, 0]; assert LastIndex([0, 3, 6, 0], 3) == Some(1); }
    assert Game(start, 7) == [0, 3, 6, 0, 3, 3, 1] by { assert [0, 3, 6, 0, 3, 3][..5] == [0, 3, 6, 0, 3]; assert LastIndex([0, 3, 6, 0, 3], 3) == Some(4); }
    assert Game(start, 8) == [0, 3, 6, 0, 3, 3, 1, 0] by { assert [0, 3, 6, 0, 3, 3, 1][..6] == [0, 3, 6, 0, 3, 3]; assert LastIndex([0, 3, 6, 0, 3, 3], 1) == None; }
    assert Game(start, 9) == [0, 3, 6, 0, 3, 3, 1, 0, 4] by { assert [0, 3, 6, 0, 3, 3, 1, 0][..7] == [0, 3, 6, 0, 3, 3, 1]; assert LastIndex([0, 3, 6, 0, 3, 3, 1], 0) == Some(3); }
    assert Game(start, 10) == [0, 3, 6, 0, 3, 3, 1, 0, 4, 0] by { assert [0, 3, 6, 0, 3, 3, 1, 0, 4][..8] == [0, 3, 6, 0, 3, 3, 1, 0]; assert LastIndex([0, 3, 6, 0, 3, 3, 1, 0], 4) == None; }
  }
}
