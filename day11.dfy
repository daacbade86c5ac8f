/** Day 11: seating. Every cell is an occupied seat, an empty seat or floor;
    all seats change at once by counting their occupied neighbours, until
    nothing changes. Part 1 looks at the 8 adjacent cells with a tolerance of
    4, part 2 at the first seat in each of the 8 directions with a tolerance
    of 5. Rows may differ in length: a cell outside its row is outside the map. */
module Day11 {
  import opened Text

  datatype Cell = Occupied | Empty | Floor

  type Grid = seq<seq<Cell>>

  function CellOf(c: char): Option<Cell>
  {
    if c == '#' then Some(Occupied) else if c == 'L' then Some(Empty) else if c == '.' then Some(Floor) else None
  }

  function CellChar(c: Cell): char
  {
    match c
    case Occupied => '#'
    case Empty => 'L'
    case Floor => '.'
  }

  /** One row of the map; the source panics on any other byte. */
  function ParseRow(line: string): (r: Option<seq<Cell>>)
    ensures r.Some? <==> forall k :: 0 <= k < |line| ==> CellOf(line[k]).Some?
    ensures r.Some? ==> |r.value| == |line| && forall k :: 0 <= k < |line| ==> CellOf(line[k]) == Some(r.value[k])
  {
    if line == [] then Some([])
    else
      match CellOf(line[0])
      case None => None
      case Some(c) =>
        match ParseRow(line[1..])
        case None =>
          assert forall k :: 1 <= k < |line| ==> line[k] == line[1..][k - 1];
          None
        case Some(rest) => Some([c] + rest)
  }

  function ShowRow(row: seq<Cell>): (s: string)
    ensures |s| == |row| && forall k :: 0 <= k < |row| ==> s[k] == CellChar(row[k])
  {
    seq(|row|, k requires 0 <= k < |row| => CellChar(row[k]))
  }

  /** Reading a row back from its display gives the row. */
  lemma ParseShowRow(row: seq<Cell>)
    ensures ParseRow(ShowRow(row)) == Some(row)
  {
    var s := ShowRow(row);
    forall k | 0 <= k < |s| ensures CellOf(s[k]) == Some(row[k]) {
      match row[k]
      case Occupied =>
      case Empty =>
      case Floor =>
    }
    assert ParseRow(s).value == row;
  }

  /** `Map::parse` */
  function Parse(lines: seq<string>): (r: Option<Grid>)
    ensures r.Some? <==> forall y :: 0 <= y < |lines| ==> ParseRow(lines[y]).Some?
    ensures r.Some? ==> |r.value| == |lines| && forall y :: 0 <= y < |lines| ==> ParseRow(lines[y]) == Some(r.value[y])
  {
    if lines == [] then Some([])
    else
      match ParseRow(lines[0])
      case None => None
      case Some(row) =>
        match Parse(lines[1..])
        case None =>
          assert forall y :: 1 <= y < |lines| ==> lines[y] == lines[1..][y - 1];
          None
        case Some(rest) => Some([row] + rest)
  }

  /** `self.0.get(y).and_then(|v| v.get(x))`: a negative coordinate wraps to a
      huge `usize` and misses like any other out-of-range one. */
  function Get(grid: Grid, x: int, y: int): (r: Option<Cell>)
    ensures r.Some? <==> 0 <= y < |grid| && 0 <= x < |grid[y]|
    ensures r.Some? ==> r.value == grid[y][x]
  {
    if 0 <= y < |grid| && 0 <= x < |grid[y]| then Some(grid[y][x]) else None
  }

  predicate Unit(i: int) { -1 <= i <= 1 }

  /** `k` steps of `i`: the source's `dx`/`dy` after `k - 1` extra steps. */
  function Scale(k: nat, i: int): int
    requires Unit(i)
  {
    if i == 1 then k else if i == -1 then -(k as int) else 0
  }

  lemma ScaleNext(k: nat, i: int)
    requires Unit(i)
    ensures Scale(k + 1, i) == Scale(k, i) + i
  {
  }

  function Widest(grid: Grid): (w: nat)
    ensures forall y :: 0 <= y < |grid| ==> |grid[y]| <= w
  {
    if grid == [] then 0
    else
      var rest := Widest(grid[1..]);
      assert forall y :: 1 <= y < |grid| ==> grid[y] == grid[1..][y - 1];
      if |grid[0]| > rest then |grid[0]| else rest
  }

  /** How far a line of sight can stay inside the map. */
  function Reach(grid: Grid, x: nat, y: nat): nat
  {
    |grid| + Widest(grid) + x + y + 1
  }

  lemma InsideBound(grid: Grid, x: nat, y: nat, i: int, j: int, k: nat)
    requires Unit(i) && Unit(j) && (i, j) != (0, 0)
    requires Get(grid, x + Scale(k, i), y + Scale(k, j)).Some?
    ensures k < Reach(grid, x, y)
  {
  }

  /** The number of steps along direction (i, j), from `k` on, to the first
      cell that is not floor or outside the map: where the `while let
      Some(Cell::Floor)` loop of `neighbour_count` stops. */
  function Stop(grid: Grid, x: nat, y: nat, i: int, j: int, k: nat): (e: nat)
    requires Unit(i) && Unit(j) && (i, j) != (0, 0)
    ensures k <= e && Get(grid, x + Scale(e, i), y + Scale(e, j)) != Some(Floor)
    ensures forall m :: k <= m < e ==> Get(grid, x + Scale(m, i), y + Scale(m, j)) == Some(Floor)
    decreases Reach(grid, x, y) - k
  {
    if Get(grid, x + Scale(k, i), y + Scale(k, j)) == Some(Floor) then
      InsideBound(grid, x, y, i, j, k);
      Stop(grid, x, y, i, j, k + 1)
    else k
  }

  /** What is seen in direction (i, j): the adjacent cell, or at distance the
      first cell that is not floor; `None` past the edge. */
  function Seen(grid: Grid, x: nat, y: nat, i: int, j: int, atDistance: bool): (r: Option<Cell>)
    requires Unit(i) && Unit(j) && (i, j) != (0, 0)
    ensures atDistance ==> r != Some(Floor)
  {
    var k := if atDistance then Stop(grid, x, y, i, j, 1) else 1;
    Get(grid, x + Scale(k, i), y + Scale(k, j))
  }

  /** The direction the loops of `neighbour_count` visit `t`-th: `j` outer, `i` inner. */
  function DirJ(t: nat): int { t / 3 - 1 }
  function DirI(t: nat): int { t % 3 - 1 }

  lemma DirOf(j: int, i: int)
    requires Unit(j) && Unit(i)
    ensures DirJ(3 * (j + 1) + (i + 1)) == j && DirI(3 * (j + 1) + (i + 1)) == i
  {
    var t := 3 * (j + 1) + (i + 1);
    assert t == 3 * (j + 1) + (i + 1);
  }

  /** The occupied seats seen in the first `n` of the nine (j, i) pairs, the
      centre skipped. */
  function SeenCount(grid: Grid, x: nat, y: nat, atDistance: bool, n: nat): (c: nat)
    requires n <= 9
    ensures c <= n
    ensures n > 4 ==> c < n
  {
    if n == 0 then 0
    else
      var t := n - 1;
      var seen := t != 4 && Seen(grid, x, y, DirI(t), DirJ(t), atDistance) == Some(Occupied);
      SeenCount(grid, x, y, atDistance, t) + if seen then 1 else 0
  }

  /** One more (j, i) pair of the loops of `neighbour_count`. */
  lemma SeenCountStep(grid: Grid, x: nat, y: nat, atDistance: bool, j: int, i: int)
    requires Unit(j) && Unit(i)
    ensures var t := 3 * (j + 1) + (i + 1);
      SeenCount(grid, x, y, atDistance, t + 1) == SeenCount(grid, x, y, atDistance, t)
        + if (j, i) != (0, 0) && Seen(grid, x, y, i, j, atDistance) == Some(Occupied) then 1 else 0
  {
    DirOf(j, i);
  }

  /** `neighbour_count`: the occupied seats seen in the 8 directions. */
  function Neighbours(grid: Grid, x: nat, y: nat, atDistance: bool): (c: nat)
    ensures c <= 8
  {
    SeenCount(grid, x, y, atDistance, 9)
  }

  /** The cell the inner part of `neighbour_count` inspects in direction
      (i, j): `dx`/`dy` start one step out and, at distance, advance past the floor. */
  method LookAlong(grid: Grid, x: nat, y: nat, i: int, j: int, atDistance: bool) returns (c: Option<Cell>)
    requires Unit(i) && Unit(j) && (i, j) != (0, 0)
    ensures c == Seen(grid, x, y, i, j, atDistance)
  {
    var dy := j;
    var dx := i;
    ghost var k: nat := 1;
    if atDistance {
      ghost var e := Stop(grid, x, y, i, j, 1);
      while Get(grid, x + dx, y + dy) == Some(Floor)
        invariant 1 <= k <= e && dx == Scale(k, i) && dy == Scale(k, j)
        decreases e - k
      {
        ScaleNext(k, i);
        ScaleNext(k, j);
        dy := dy + j;
        dx := dx + i;
        k := k + 1;
      }
      assert k == e;
    }
    c := Get(grid, x + dx, y + dy);
  }

  /** `neighbour_count` with its loops over `j` and `i`. */
  method NeighbourCount(grid: Grid, x: nat, y: nat, atDistance: bool) returns (count: nat)
    ensures count == Neighbours(grid, x, y, atDistance)
  {
    count := 0;
    for j := -1 to 2
      invariant count == SeenCount(grid, x, y, atDistance, 3 * (j + 1))
    {
      for i := -1 to 2
        invariant count == SeenCount(grid, x, y, atDistance, 3 * (j + 1) + (i + 1))
      {
        SeenCountStep(grid, x, y, atDistance, j, i);
        if j == 0 && i == 0 {
          continue;
        }
        var c := LookAlong(grid, x, y, i, j, atDistance);
        if c == Some(Occupied) {
          count := count + 1;
        }
      }
    }
  }

  /** The rule of `step` for one cell with `count` occupied neighbours. */
  function Rule(cell: Cell, count: nat, tolerance: nat): Cell
  {
    match cell
    case Empty => if count == 0 then Occupied else Empty
    case Occupied => if count >= tolerance then Empty else Occupied
    case Floor => Floor
  }

  /** A cell changes exactly when it is an empty seat with no occupied
      neighbour or an occupied one with at least `tolerance`; floor never changes. */
  lemma RuleChanges(cell: Cell, count: nat, tolerance: nat)
    ensures Rule(cell, count, tolerance) != cell <==>
      (cell == Empty && count == 0) || (cell == Occupied && count >= tolerance)
    ensures cell == Floor ==> Rule(cell, count, tolerance) == Floor
  {
  }

  /** The map after one round: every cell rewritten at once. */
  function NextGrid(grid: Grid, tolerance: nat, atDistance: bool): (r: Grid)
    ensures |r| == |grid| && forall y :: 0 <= y < |grid| ==> |r[y]| == |grid[y]|
  {
    seq(|grid|, y requires 0 <= y < |grid| =>
      seq(|grid[y]|, x requires 0 <= x < |grid[y]| => Rule(grid[y][x], Neighbours(grid, x, y, atDistance), tolerance)))
  }

  /** Some cell in the first `y` rows, or in row `y` before `x`, differs. */
  predicate ChangedBefore(a: Grid, b: Grid, y: nat, x: nat)
    requires |a| == |b| && forall r :: 0 <= r < |a| ==> |a[r]| == |b[r]|
    requires y <= |a| && (y < |a| ==> x <= |a[y]|)
  {
    (exists r, c :: 0 <= r < y && 0 <= c < |a[r]| && a[r][c] != b[r][c])
    || (y < |a| && exists c :: 0 <= c < x && a[y][c] != b[y][c])
  }

  /** Two maps of the same shape are different exactly when some cell differs. */
  lemma ChangedAll(a: Grid, b: Grid)
    requires |a| == |b| && forall r :: 0 <= r < |a| ==> |a[r]| == |b[r]|
    ensures ChangedBefore(a, b, |a|, 0) <==> a != b
  {
    if a != b {
      var r :| 0 <= r < |a| && a[r] != b[r];
      var c :| 0 <= c < |a[r]| && a[r][c] != b[r][c];
    }
  }

  /** `step`: the new map and whether any cell changed. */
  method Step(grid: Grid, tolerance: nat, atDistance: bool) returns (next: Grid, change: bool)
    ensures next == NextGrid(grid, tolerance, atDistance)
    ensures change <==> next != grid
  {
    ghost var target := NextGrid(grid, tolerance, atDistance);
    change := false;
    next := [];
    for y := 0 to |grid|
      invariant next == target[..y]
      invariant change <==> ChangedBefore(target, grid, y, 0)
    {
      var row;
      row, change := StepRow(grid, y, tolerance, atDistance, change);
      ChangedRow(target, grid, y);
      next := next + [row];
    }
    assert next == target;
    ChangedAll(target, grid);
  }

  /** The inner loop of `step`: row `y` of the new map, and whether a cell
      changed so far. */
  method StepRow(grid: Grid, y: nat, tolerance: nat, atDistance: bool, changed: bool) returns (row: seq<Cell>, change: bool)
    requires y < |grid|
    ensures row == NextGrid(grid, tolerance, atDistance)[y]
    ensures change <==> changed || row != grid[y]
  {
    ghost var target := NextGrid(grid, tolerance, atDistance)[y];
    change := changed;
    row := [];
    for x := 0 to |grid[y]|
      invariant row == target[..x]
      invariant change <==> changed || row != grid[y][..x]
    {
      var count := NeighbourCount(grid, x, y, atDistance);
      var cell := Rule(grid[y][x], count, tolerance);
      assert cell == target[x];
      if cell != grid[y][x] {
        change := true;
      }
      PrefixSnoc(row, grid[y], cell, x);
      row := row + [cell];
    }
    assert grid[y][..|grid[y]|] == grid[y];
  }

  /** Extending two prefixes keeps them equal exactly when the new cells agree. */
  lemma PrefixSnoc(row: seq<Cell>, full: seq<Cell>, cell: Cell, x: nat)
    requires |row| == x < |full|
    ensures row + [cell] == full[..x + 1] <==> row == full[..x] && cell == full[x]
  {
    if row + [cell] == full[..x + 1] {
      assert (row + [cell])[..x] == row;
      assert full[..x + 1][..x] == full[..x];
    }
  }

  /** A changed cell before the next row is one before this row or in it. */
  lemma ChangedRow(a: Grid, b: Grid, y: nat)
    requires |a| == |b| && forall r :: 0 <= r < |a| ==> |a[r]| == |b[r]|
    requires y < |a|
    ensures ChangedBefore(a, b, y + 1, 0) <==> ChangedBefore(a, b, y, 0) || a[y] != b[y]
  {
    if a[y] != b[y] {
      var c :| 0 <= c < |b[y]| && a[y][c] != b[y][c];
    }
    if ChangedBefore(a, b, y + 1, 0) {
      var r, c :| 0 <= r < y + 1 && 0 <= c < |a[r]| && a[r][c] != b[r][c];
      if r < y {
        assert ChangedBefore(a, b, y, 0);
      }
    }
  }

  /** `count_occupied`: the occupied seats of the map. */
  function CountOccupied(grid: Grid): (n: nat)
    ensures n <= Cells(grid)
  {
    if grid == [] then 0 else CountRow(grid[0]) + CountOccupied(grid[1..])
  }

  function CountRow(row: seq<Cell>): (n: nat)
    ensures n <= |row|
    ensures n == 0 <==> forall x :: 0 <= x < |row| ==> row[x] != Occupied
  {
    if row == [] then 0 else (if row[0] == Occupied then 1 else 0) + CountRow(row[1..])
  }

  function Cells(grid: Grid): nat
  {
    if grid == [] then 0 else |grid[0]| + Cells(grid[1..])
  }

  function Iterate(grid: Grid, tolerance: nat, atDistance: bool, n: nat): (r: Grid)
    decreases n
  {
    if n == 0 then grid else Iterate(NextGrid(grid, tolerance, atDistance), tolerance, atDistance, n - 1)
  }

  lemma {:induction false} IterateNext(grid: Grid, tolerance: nat, atDistance: bool, n: nat)
    ensures Iterate(grid, tolerance, atDistance, n + 1) == NextGrid(Iterate(grid, tolerance, atDistance, n), tolerance, atDistance)
    decreases n
  {
    if n > 0 {
      IterateNext(NextGrid(grid, tolerance, atDistance), tolerance, atDistance, n - 1);
    }
  }

  predicate Stable(grid: Grid, tolerance: nat, atDistance: bool)
  {
    NextGrid(grid, tolerance, atDistance) == grid
  }

  /** Once stable, the map stays as it is. */
  lemma {:induction false} StableStays(grid: Grid, tolerance: nat, atDistance: bool, k: nat, n: nat)
    requires k <= n && Stable(Iterate(grid, tolerance, atDistance, k), tolerance, atDistance)
    ensures Iterate(grid, tolerance, atDistance, n) == Iterate(grid, tolerance, atDistance, k)
    decreases n - k
  {
    if k < n {
      StableStays(grid, tolerance, atDistance, k, n - 1);
      IterateNext(grid, tolerance, atDistance, n - 1);
    }
  }

  /** Round `k` is the first stable one, and `n` occupied seats remain then. */
  predicate SettlesAt(grid: Grid, tolerance: nat, atDistance: bool, k: nat, n: nat)
  {
    Stable(Iterate(grid, tolerance, atDistance, k), tolerance, atDistance)
    && (forall m :: 0 <= m < k ==> !Stable(Iterate(grid, tolerance, atDistance, m), tolerance, atDistance))
    && n == CountOccupied(Iterate(grid, tolerance, atDistance, k))
  }

  /** The loop of `part_1` and `part_2`: step until nothing changes. The
      source loops forever on a map that never settles; the ghost `bound` is
      a round by which it has settled. */
  method Settle(grid: Grid, tolerance: nat, atDistance: bool, ghost bound: nat) returns (n: nat)
    requires Stable(Iterate(grid, tolerance, atDistance, bound), tolerance, atDistance)
    ensures exists k :: 0 <= k <= bound && SettlesAt(grid, tolerance, atDistance, k, n)
  {
    var current := grid;
    ghost var k: nat := 0;
    var next, change := Step(current, tolerance, atDistance);
    while change
      invariant k <= bound && current == Iterate(grid, tolerance, atDistance, k)
      invariant next == NextGrid(current, tolerance, atDistance) && (change <==> next != current)
      invariant forall m :: 0 <= m < k ==> !Stable(Iterate(grid, tolerance, atDistance, m), tolerance, atDistance)
      decreases bound - k
    {
      if k == bound {
        assert false;
      }
      IterateNext(grid, tolerance, atDistance, k);
      current := next;
      k := k + 1;
      next, change := Step(current, tolerance, atDistance);
    }
    n := CountOccupied(current);
    assert SettlesAt(grid, tolerance, atDistance, k, n);
  }

  /** `part_1`: adjacent neighbours, tolerance 4. */
  method Part1(grid: Grid, ghost bound: nat) returns (n: nat)
    requires Stable(Iterate(grid, 4, false, bound), 4, false)
    ensures exists k :: 0 <= k <= bound && SettlesAt(grid, 4, false, k, n)
  {
    n := Settle(grid, 4, false, bound);
  }

  /** `part_2`: the first seat in each direction, tolerance 5. */
  method Part2(grid: Grid, ghost bound: nat) returns (n: nat)
    requires Stable(Iterate(grid, 5, true, bound), 5, true)
    ensures exists k :: 0 <= k <= bound && SettlesAt(grid, 5, true, k, n)
  {
    n := Settle(grid, 5, true, bound);
  }
}
