/** Day 17: Conway cubes. Active cells live in a four-dimensional integer
    space; in each cycle a cell is active next exactly when 3 of its 80
    neighbours are active, or it is active and 2 are. A grid keeps the
    inclusive bounds of its active cells (and of the origin), and a cycle
    examines only the cells within those bounds widened by one. Part 1 runs
    six cycles in three dimensions (only w = 0 is examined), part 2 six
    cycles in four. */
module Day17 {
  import opened Text
  import Arith

  datatype Pos = Pos(x: int, y: int, z: int, w: int)

  /** An inclusive `(min, max)` pair of coordinates. */
  datatype Range = Range(lo: int, hi: int)

  /** The bounds of a grid, one range per axis. */
  datatype Bounds = Bounds(x: Range, y: Range, z: Range, w: Range)

  /** `Grid`: the set of active cells and the bounds. */
  datatype Grid = Grid(cells: set<Pos>, bounds: Bounds)

  predicate InRange(r: Range, v: int)
  {
    r.lo <= v <= r.hi
  }

  predicate InBounds(b: Bounds, p: Pos)
  {
    InRange(b.x, p.x) && InRange(b.y, p.y) && InRange(b.z, p.z) && InRange(b.w, p.w)
  }

  function Shift(p: Pos, dx: int, dy: int, dz: int, dw: int): Pos
  {
    Pos(p.x + dx, p.y + dy, p.z + dz, p.w + dw)
  }

  /** No coordinate of `q` differs from `p`'s by more than one. */
  predicate Near(p: Pos, q: Pos)
  {
    -1 <= q.x - p.x <= 1 && -1 <= q.y - p.y <= 1 && -1 <= q.z - p.z <= 1 && -1 <= q.w - p.w <= 1
  }

  // ---------------------------------------------------------------------------
  // Counting neighbours

  /** The offset the loops of `neighbours_count` visit `t`-th, for
      `0 <= t < 81`: `dw` outermost, `dx` innermost. */
  function DX(t: nat): int { t % 3 - 1 }
  function DY(t: nat): int { (t / 3) % 3 - 1 }
  function DZ(t: nat): int { (t / 9) % 3 - 1 }
  function DW(t: nat): int { t / 27 - 1 }

  predicate Unit(d: int) { -1 <= d <= 1 }

  lemma OffsetOf(dx: int, dy: int, dz: int, dw: int)
    requires Unit(dx) && Unit(dy) && Unit(dz) && Unit(dw)
    ensures var t := 27 * (dw + 1) + 9 * (dz + 1) + 3 * (dy + 1) + (dx + 1);
      DX(t) == dx && DY(t) == dy && DZ(t) == dz && DW(t) == dw
  {
    var t := 27 * (dw + 1) + 9 * (dz + 1) + 3 * (dy + 1) + (dx + 1);
    Arith.ModUnique(t, 3, 9 * (dw + 1) + 3 * (dz + 1) + (dy + 1), dx + 1);
    Arith.ModUnique(t / 3, 3, 3 * (dw + 1) + (dz + 1), dy + 1);
    Arith.ModUnique(t, 9, 3 * (dw + 1) + (dz + 1), 3 * (dy + 1) + (dx + 1));
    Arith.ModUnique(t / 9, 3, dw + 1, dz + 1);
    Arith.ModUnique(t, 27, dw + 1, 9 * (dz + 1) + 3 * (dy + 1) + (dx + 1));
  }

  /** Which `dw` and `dz` the offsets visit, by bands of `t`. */
  lemma OffsetBands(t: nat)
    ensures t < 27 ==> DW(t) == -1
    ensures 27 <= t < 54 ==> DW(t) == 0
    ensures 54 <= t < 81 ==> DW(t) == 1
    ensures 27 <= t < 36 ==> DZ(t) == -1
    ensures 45 <= t < 54 ==> DZ(t) == 1
  {
  }

  /** One if the cell at the `t`-th offset from `p` is active, the zero offset skipped. */
  function Hit(cells: set<Pos>, p: Pos, t: nat): nat
  {
    if (DX(t), DY(t), DZ(t), DW(t)) != (0, 0, 0, 0) && Shift(p, DX(t), DY(t), DZ(t), DW(t)) in cells then 1 else 0
  }

  /** Active cells at the first `n` offsets from `p`. */
  function Count(cells: set<Pos>, p: Pos, n: nat): nat
  {
    if n == 0 then 0 else Count(cells, p, n - 1) + Hit(cells, p, n - 1)
  }

  /** The number of active cells among the 80 neighbours of `p`. */
  function NeighbourCount(cells: set<Pos>, p: Pos): nat
  {
    Count(cells, p, 81)
  }

  /** One more offset of the loops of `neighbours_count`. */
  lemma CountStep(cells: set<Pos>, p: Pos, dx: int, dy: int, dz: int, dw: int)
    requires Unit(dx) && Unit(dy) && Unit(dz) && Unit(dw)
    ensures var t := 27 * (dw + 1) + 9 * (dz + 1) + 3 * (dy + 1) + (dx + 1);
      Count(cells, p, t + 1) == Count(cells, p, t)
        + if (dx, dy, dz, dw) != (0, 0, 0, 0) && Shift(p, dx, dy, dz, dw) in cells then 1 else 0
  {
    OffsetOf(dx, dy, dz, dw);
  }

  /** The innermost loop of `neighbours_count`, over `dx`. */
  method CountRow(g: Grid, p: Pos, dy: int, dz: int, dw: int, count0: nat) returns (count: nat)
    requires Unit(dy) && Unit(dz) && Unit(dw)
    requires count0 == Count(g.cells, p, 27 * (dw + 1) + 9 * (dz + 1) + 3 * (dy + 1))
    ensures count == Count(g.cells, p, 27 * (dw + 1) + 9 * (dz + 1) + 3 * (dy + 1) + 3)
  {
    count := count0;
    for dx := -1 to 2
      invariant count == Count(g.cells, p, 27 * (dw + 1) + 9 * (dz + 1) + 3 * (dy + 1) + (dx + 1))
    {
      CountStep(g.cells, p, dx, dy, dz, dw);
      if (dx, dy, dz, dw) != (0, 0, 0, 0) {
        var active := Shift(p, dx, dy, dz, dw) in g.cells;
        if active {
          count := count + 1;
        }
      }
    }
  }

  /** The loop of `neighbours_count` over `dy`. */
  method CountPlane(g: Grid, p: Pos, dz: int, dw: int, count0: nat) returns (count: nat)
    requires Unit(dz) && Unit(dw)
    requires count0 == Count(g.cells, p, 27 * (dw + 1) + 9 * (dz + 1))
    ensures count == Count(g.cells, p, 27 * (dw + 1) + 9 * (dz + 1) + 9)
  {
    count := count0;
    for dy := -1 to 2
      invariant count == Count(g.cells, p, 27 * (dw + 1) + 9 * (dz + 1) + 3 * (dy + 1))
    {
      count := CountRow(g, p, dy, dz, dw, count);
    }
  }

  /** The loop of `neighbours_count` over `dz`. */
  method CountCube(g: Grid, p: Pos, dw: int, count0: nat) returns (count: nat)
    requires Unit(dw)
    requires count0 == Count(g.cells, p, 27 * (dw + 1))
    ensures count == Count(g.cells, p, 27 * (dw + 1) + 27)
  {
    count := count0;
    for dz := -1 to 2
      invariant count == Count(g.cells, p, 27 * (dw + 1) + 9 * (dz + 1))
    {
      count := CountPlane(g, p, dz, dw, count);
    }
  }

  /** `Grid::neighbours_count`: four nested loops over the offsets -1..=1,
      skipping the zero offset. */
  method NeighboursCount(g: Grid, p: Pos) returns (count: nat)
    ensures count == NeighbourCount(g.cells, p)
  {
    count := 0;
    for dw := -1 to 2
      invariant count == Count(g.cells, p, 27 * (dw + 1))
    {
      count := CountCube(g, p, dw, count);
    }
  }

  /** Each offset counts at most once, and the 41st (`t` = 40) is the zero offset. */
  lemma {:induction false} CountAtMost(cells: set<Pos>, p: Pos, n: nat)
    ensures Count(cells, p, n) <= if n > 40 then n - 1 else n
  {
    if n > 0 {
      CountAtMost(cells, p, n - 1);
      if n - 1 == 40 {
        assert (DX(40), DY(40), DZ(40), DW(40)) == (0, 0, 0, 0);
      }
    }
  }

  /** A cell has at most 80 active neighbours. */
  lemma CountAtMost80(cells: set<Pos>, p: Pos)
    ensures NeighbourCount(cells, p) <= 80
  {
    CountAtMost(cells, p, 81);
  }

  /** The offsets with `dw` = 0 among the first `n`, the zero offset left out. */
  function FlatOffsets(n: nat): nat
  {
    if n <= 27 then 0 else if n <= 40 then n - 27 else if n <= 54 then n - 28 else 26
  }

  lemma {:induction false} FlatCountAtMost(cells: set<Pos>, p: Pos, n: nat)
    requires n <= 81
    requires forall q :: q in cells ==> q.w == 0
    requires p.w == 0
    ensures Count(cells, p, n) <= FlatOffsets(n)
  {
    if n > 0 {
      FlatCountAtMost(cells, p, n - 1);
      FlatHit(cells, p, n - 1);
    }
  }

  lemma FlatHit(cells: set<Pos>, p: Pos, t: nat)
    requires t < 81
    requires forall q :: q in cells ==> q.w == 0
    requires p.w == 0
    ensures Hit(cells, p, t) <= if 27 <= t < 54 && t != 40 then 1 else 0
  {
    if t == 40 {
      assert (DX(40), DY(40), DZ(40), DW(40)) == (0, 0, 0, 0);
    } else if t < 27 || t >= 54 {
      OffsetBands(t);
      assert Shift(p, DX(t), DY(t), DZ(t), DW(t)).w != 0;
    }
  }

  /** In three dimensions (every active cell at w = 0) a cell at w = 0 has at
      most 26 active neighbours: the offsets with `dw` = -1 or 1 find nothing. */
  lemma FlatCountAtMost26(cells: set<Pos>, p: Pos)
    requires forall q :: q in cells ==> q.w == 0
    requires p.w == 0
    ensures NeighbourCount(cells, p) <= 26
  {
    FlatCountAtMost(cells, p, 81);
  }

  /** `a` and `b` agree everywhere except perhaps at `p`. */
  ghost predicate AgreeOff(a: set<Pos>, b: set<Pos>, p: Pos)
  {
    forall q :: q != p ==> (q in a <==> q in b)
  }

  lemma {:induction false} CountAgree(a: set<Pos>, b: set<Pos>, p: Pos, n: nat)
    requires AgreeOff(a, b, p)
    ensures Count(a, p, n) == Count(b, p, n)
  {
    if n > 0 {
      var t := n - 1;
      CountAgree(a, b, p, t);
      var q := Shift(p, DX(t), DY(t), DZ(t), DW(t));
      assert (DX(t), DY(t), DZ(t), DW(t)) != (0, 0, 0, 0) ==> q != p && (q in a <==> q in b);
    }
  }

  /** The zero offset is skipped: whether `p` itself is active does not
      change its count. */
  lemma CountIgnoresSelf(cells: set<Pos>, p: Pos)
    ensures NeighbourCount(cells + {p}, p) == NeighbourCount(cells - {p}, p)
  {
    CountAgree(cells + {p}, cells - {p}, p, 81);
  }

  /** A positive count comes from an active cell near `p`. */
  lemma {:induction false} CountWitness(cells: set<Pos>, p: Pos, n: nat)
    requires n <= 81
    requires Count(cells, p, n) > 0
    ensures exists q :: q in cells && Near(p, q)
  {
    var t := n - 1;
    if Count(cells, p, t) > 0 {
      CountWitness(cells, p, t);
    } else {
      assert Near(p, Shift(p, DX(t), DY(t), DZ(t), DW(t)));
    }
  }

  // ---------------------------------------------------------------------------
  // One cycle

  /** The rule of a cycle. */
  predicate NextActive(cells: set<Pos>, p: Pos)
  {
    var count := NeighbourCount(cells, p);
    count == 3 || (p in cells && count == 2)
  }

  /** A cell that will be active is near an active cell (perhaps itself). */
  lemma NextActiveNear(cells: set<Pos>, p: Pos)
    requires NextActive(cells, p)
    ensures exists q :: q in cells && Near(p, q)
  {
    if p in cells {
      assert Near(p, p);
    } else {
      CountWitness(cells, p, 81);
    }
  }

  /** The cells at `lo <= x < hi` of one row that will be active. */
  function RowCells(cells: set<Pos>, lo: int, hi: int, y: int, z: int, w: int): set<Pos>
    decreases hi - lo
  {
    if hi <= lo then {}
    else
      var p := Pos(hi - 1, y, z, w);
      RowCells(cells, lo, hi - 1, y, z, w) + (if NextActive(cells, p) then {p} else {})
  }

  /** The cells at `lo <= y < hi` of one plane that will be active. */
  function PlaneCells(cells: set<Pos>, xr: Range, lo: int, hi: int, z: int, w: int): set<Pos>
    decreases hi - lo
  {
    if hi <= lo then {} else PlaneCells(cells, xr, lo, hi - 1, z, w) + RowCells(cells, xr.lo, xr.hi + 1, hi - 1, z, w)
  }

  /** The cells at `lo <= z < hi` of one cube that will be active. */
  function CubeCells(cells: set<Pos>, xr: Range, yr: Range, lo: int, hi: int, w: int): set<Pos>
    decreases hi - lo
  {
    if hi <= lo then {} else CubeCells(cells, xr, yr, lo, hi - 1, w) + PlaneCells(cells, xr, yr.lo, yr.hi + 1, hi - 1, w)
  }

  /** The cells at `lo <= w < hi` that will be active. */
  function HyperCells(cells: set<Pos>, xr: Range, yr: Range, zr: Range, lo: int, hi: int): set<Pos>
    decreases hi - lo
  {
    if hi <= lo then {} else HyperCells(cells, xr, yr, zr, lo, hi - 1) + CubeCells(cells, xr, yr, zr.lo, zr.hi + 1, hi - 1)
  }

  /** The cells of a region that will be active. */
  function NextCells(cells: set<Pos>, region: Bounds): set<Pos>
  {
    HyperCells(cells, region.x, region.y, region.z, region.w.lo, region.w.hi + 1)
  }

  lemma {:induction false} RowCellsMember(cells: set<Pos>, lo: int, hi: int, y: int, z: int, w: int, p: Pos)
    ensures p in RowCells(cells, lo, hi, y, z, w)
        <==> p.y == y && p.z == z && p.w == w && lo <= p.x < hi && NextActive(cells, p)
    decreases hi - lo
  {
    if hi > lo {
      RowCellsMember(cells, lo, hi - 1, y, z, w, p);
    }
  }

  lemma {:induction false} PlaneCellsMember(cells: set<Pos>, xr: Range, lo: int, hi: int, z: int, w: int, p: Pos)
    ensures p in PlaneCells(cells, xr, lo, hi, z, w)
        <==> p.z == z && p.w == w && lo <= p.y < hi && InRange(xr, p.x) && NextActive(cells, p)
    decreases hi - lo
  {
    if hi > lo {
      PlaneCellsMember(cells, xr, lo, hi - 1, z, w, p);
      RowCellsMember(cells, xr.lo, xr.hi + 1, hi - 1, z, w, p);
    }
  }

  lemma {:induction false} CubeCellsMember(cells: set<Pos>, xr: Range, yr: Range, lo: int, hi: int, w: int, p: Pos)
    ensures p in CubeCells(cells, xr, yr, lo, hi, w)
        <==> p.w == w && lo <= p.z < hi && InRange(yr, p.y) && InRange(xr, p.x) && NextActive(cells, p)
    decreases hi - lo
  {
    if hi > lo {
      CubeCellsMember(cells, xr, yr, lo, hi - 1, w, p);
      PlaneCellsMember(cells, xr, yr.lo, yr.hi + 1, hi - 1, w, p);
    }
  }

  lemma {:induction false} HyperCellsMember(cells: set<Pos>, xr: Range, yr: Range, zr: Range, lo: int, hi: int, p: Pos)
    ensures p in HyperCells(cells, xr, yr, zr, lo, hi)
        <==> lo <= p.w < hi && InRange(zr, p.z) && InRange(yr, p.y) && InRange(xr, p.x) && NextActive(cells, p)
    decreases hi - lo
  {
    if hi > lo {
      HyperCellsMember(cells, xr, yr, zr, lo, hi - 1, p);
      CubeCellsMember(cells, xr, yr, zr.lo, zr.hi + 1, hi - 1, p);
    }
  }

  /** The cells of a region that will be active are exactly the cells of the
      region that satisfy the rule. */
  lemma NextCellsMember(cells: set<Pos>, region: Bounds, p: Pos)
    ensures p in NextCells(cells, region) <==> InBounds(region, p) && NextActive(cells, p)
  {
    HyperCellsMember(cells, region.x, region.y, region.z, region.w.lo, region.w.hi + 1, p);
  }

  function Widen(r: Range): Range
  {
    Range(r.lo - 1, r.hi + 1)
  }

  /** The cells a cycle examines: every bound widened by one, and only w = 0
      in three dimensions. */
  function Region(b: Bounds, dims4: bool): Bounds
  {
    Bounds(Widen(b.x), Widen(b.y), Widen(b.z), if dims4 then Widen(b.w) else Range(0, 0))
  }

  /** Every active cell lies within the bounds. */
  predicate Encloses(b: Bounds, cells: set<Pos>)
  {
    forall p :: p in cells ==> InBounds(b, p)
  }

  /** Each bound is 0 or the coordinate of an active cell. */
  predicate Tight(b: Bounds, cells: set<Pos>)
  {
    (b.x.lo == 0 || exists p :: p in cells && p.x == b.x.lo) && (b.x.hi == 0 || exists p :: p in cells && p.x == b.x.hi) &&
    (b.y.lo == 0 || exists p :: p in cells && p.y == b.y.lo) && (b.y.hi == 0 || exists p :: p in cells && p.y == b.y.hi) &&
    (b.z.lo == 0 || exists p :: p in cells && p.z == b.z.lo) && (b.z.hi == 0 || exists p :: p in cells && p.z == b.z.hi) &&
    (b.w.lo == 0 || exists p :: p in cells && p.w == b.w.lo) && (b.w.hi == 0 || exists p :: p in cells && p.w == b.w.hi)
  }

  /** The bounds are the least and greatest coordinates of the active cells
      and the origin, axis by axis. */
  predicate Spans(b: Bounds, cells: set<Pos>)
  {
    Encloses(b, cells) && InBounds(b, Pos(0, 0, 0, 0)) && Tight(b, cells)
  }

  const Origin := Bounds(Range(0, 0), Range(0, 0), Range(0, 0), Range(0, 0))

  function Include(r: Range, v: int): Range
  {
    Range(if v < r.lo then v else r.lo, if v > r.hi then v else r.hi)
  }

  /** The min/max updates after a cell becomes active. */
  function Grow(b: Bounds, p: Pos): Bounds
  {
    Bounds(Include(b.x, p.x), Include(b.y, p.y), Include(b.z, p.z), Include(b.w, p.w))
  }

  lemma SpansGrow(b: Bounds, cells: set<Pos>, p: Pos)
    requires Spans(b, cells)
    ensures Spans(Grow(b, p), cells + {p})
  {
    var g, c := Grow(b, p), cells + {p};
    assert Tight(g, c) by {
      assert p in c;
      assert forall q :: q in cells ==> q in c;
    }
  }

  /** The bounds of a set of cells are determined by the cells. */
  lemma SpansUnique(b1: Bounds, b2: Bounds, cells: set<Pos>)
    requires Spans(b1, cells) && Spans(b2, cells)
    ensures b1 == b2
  {
  }

  /** Some bounds of every set of cells. */
  ghost function SpanOf(cells: set<Pos>): (b: Bounds)
    ensures Spans(b, cells)
    decreases |cells|
  {
    if cells == {} then Origin
    else
      var p :| p in cells;
      var b := SpanOf(cells - {p});
      SpansGrow(b, cells - {p}, p);
      assert cells - {p} + {p} == cells;
      Grow(b, p)
  }

  /** Row by row, as the innermost loop of `Grid::step`. */
  method StepRow(g: Grid, region: Bounds, y: int, z: int, w: int, cells: set<Pos>, b: Bounds)
    returns (cells': set<Pos>, b': Bounds)
    requires Spans(b, cells)
    ensures cells' == cells + RowCells(g.cells, region.x.lo, region.x.hi + 1, y, z, w)
    ensures Spans(b', cells')
  {
    cells', b' := cells, b;
    var x := region.x.lo;
    while x <= region.x.hi
      invariant region.x.lo <= x && (x == region.x.lo || x <= region.x.hi + 1)
      invariant cells' == cells + RowCells(g.cells, region.x.lo, x, y, z, w)
      invariant Spans(b', cells')
      decreases region.x.hi - x
    {
      cells', b' := StepCell(g, Pos(x, y, z, w), cells', b');
      x := x + 1;
    }
  }

  /** The body of the loops of `Grid::step` for one cell. */
  method StepCell(g: Grid, cell: Pos, cells: set<Pos>, b: Bounds) returns (cells': set<Pos>, b': Bounds)
    requires Spans(b, cells)
    ensures cells' == cells + (if NextActive(g.cells, cell) then {cell} else {})
    ensures Spans(b', cells')
  {
    cells', b' := cells, b;
    var active := cell in g.cells;
    var count := NeighboursCount(g, cell);
    var newActive := count == 3 || (active && count == 2);
    if newActive {
      SpansGrow(b', cells', cell);
      cells' := cells' + {cell};
      b' := Grow(b', cell);
    }
  }

  method StepPlane(g: Grid, region: Bounds, z: int, w: int, cells: set<Pos>, b: Bounds)
    returns (cells': set<Pos>, b': Bounds)
    requires Spans(b, cells)
    ensures cells' == cells + PlaneCells(g.cells, region.x, region.y.lo, region.y.hi + 1, z, w)
    ensures Spans(b', cells')
  {
    cells', b' := cells, b;
    var y := region.y.lo;
    while y <= region.y.hi
      invariant region.y.lo <= y && (y == region.y.lo || y <= region.y.hi + 1)
      invariant cells' == cells + PlaneCells(g.cells, region.x, region.y.lo, y, z, w)
      invariant Spans(b', cells')
      decreases region.y.hi - y
    {
      cells', b' := StepRow(g, region, y, z, w, cells', b');
      y := y + 1;
    }
  }

  method StepCube(g: Grid, region: Bounds, w: int, cells: set<Pos>, b: Bounds)
    returns (cells': set<Pos>, b': Bounds)
    requires Spans(b, cells)
    ensures cells' == cells + CubeCells(g.cells, region.x, region.y, region.z.lo, region.z.hi + 1, w)
    ensures Spans(b', cells')
  {
    cells', b' := cells, b;
    var z := region.z.lo;
    while z <= region.z.hi
      invariant region.z.lo <= z && (z == region.z.lo || z <= region.z.hi + 1)
      invariant cells' == cells + CubeCells(g.cells, region.x, region.y, region.z.lo, z, w)
      invariant Spans(b', cells')
      decreases region.z.hi - z
    {
      cells', b' := StepPlane(g, region, z, w, cells', b');
      z := z + 1;
    }
  }

  /** `Grid::step`: the active cells of the next cycle within the examined
      region, and their bounds. */
  method Step(g: Grid, dims4: bool) returns (r: Grid)
    ensures r.cells == NextCells(g.cells, Region(g.bounds, dims4))
    ensures Spans(r.bounds, r.cells)
  {
    var region := Region(g.bounds, dims4);
    var cells: set<Pos> := {};
    var b := Origin;
    var w := region.w.lo;
    while w <= region.w.hi
      invariant region.w.lo <= w && (w == region.w.lo || w <= region.w.hi + 1)
      invariant cells == HyperCells(g.cells, region.x, region.y, region.z, region.w.lo, w)
      invariant Spans(b, cells)
      decreases region.w.hi - w
    {
      cells, b := StepCube(g, region, w, cells, b);
      w := w + 1;
    }
    r := Grid(cells, b);
  }

  /** In three dimensions every cell active after a cycle has w = 0. */
  lemma StepFlat(cells: set<Pos>, b: Bounds, p: Pos)
    requires p in NextCells(cells, Region(b, false))
    ensures p.w == 0
  {
    NextCellsMember(cells, Region(b, false), p);
  }

  /** Examining the bounds widened by one is enough: any bounds that enclose
      the active cells give the same next cells. */
  lemma RegionIrrelevant(cells: set<Pos>, b1: Bounds, b2: Bounds, dims4: bool)
    requires Encloses(b1, cells) && Encloses(b2, cells)
    ensures NextCells(cells, Region(b1, dims4)) == NextCells(cells, Region(b2, dims4))
  {
    forall p ensures p in NextCells(cells, Region(b1, dims4)) <==> p in NextCells(cells, Region(b2, dims4)) {
      NextCellsMember(cells, Region(b1, dims4), p);
      NextCellsMember(cells, Region(b2, dims4), p);
      if NextActive(cells, p) {
        NextActiveNear(cells, p);
        var q :| q in cells && Near(p, q);
        assert InBounds(b1, q) && InBounds(b2, q);
      }
    }
  }

  /** The next cycle of Conway's rule over the whole space. */
  ghost function Life(cells: set<Pos>, dims4: bool): set<Pos>
  {
    NextCells(cells, Region(SpanOf(cells), dims4))
  }

  ghost function LifeN(cells: set<Pos>, n: nat, dims4: bool): set<Pos>
    decreases n
  {
    if n == 0 then cells else LifeN(Life(cells, dims4), n - 1, dims4)
  }

  /** The grid after one cycle. */
  ghost function Next(g: Grid, dims4: bool): Grid
  {
    var cells := NextCells(g.cells, Region(g.bounds, dims4));
    Grid(cells, SpanOf(cells))
  }

  ghost function Run(g: Grid, n: nat, dims4: bool): Grid
    decreases n
  {
    if n == 0 then g else Run(Next(g, dims4), n - 1, dims4)
  }

  /** `Grid::run_steps`: `steps` cycles, each replacing the grid. */
  method RunSteps(g: Grid, steps: nat, dims4: bool) returns (r: Grid)
    ensures r == Run(g, steps, dims4)
  {
    r := g;
    for i := 0 to steps
      invariant Run(r, steps - i, dims4) == Run(g, steps, dims4)
    {
      var s := Step(r, dims4);
      SpansUnique(s.bounds, SpanOf(s.cells), s.cells);
      r := s;
    }
  }

  /** From bounds that enclose the active cells, the cycles run Conway's rule. */
  lemma {:induction false} RunLife(g: Grid, n: nat, dims4: bool)
    requires Encloses(g.bounds, g.cells)
    decreases n
    ensures Run(g, n, dims4).cells == LifeN(g.cells, n, dims4)
  {
    if n > 0 {
      NextIsLife(g, dims4);
      RunLife(Next(g, dims4), n - 1, dims4);
    }
  }

  /** One cycle from enclosing bounds is a cycle of Conway's rule, and the new
      bounds enclose the new cells. */
  lemma NextIsLife(g: Grid, dims4: bool)
    requires Encloses(g.bounds, g.cells)
    ensures Next(g, dims4).cells == Life(g.cells, dims4)
    ensures Encloses(Next(g, dims4).bounds, Next(g, dims4).cells)
  {
    RegionIrrelevant(g.cells, g.bounds, SpanOf(g.cells), dims4);
  }

  /** `part_1`: active cells after six cycles in three dimensions. */
  method Part1(g: Grid) returns (n: nat)
    ensures n == |Run(g, 6, false).cells|
  {
    var r := RunSteps(g, 6, false);
    n := |r.cells|;
  }

  /** `part_2`: active cells after six cycles in four dimensions. */
  method Part2(g: Grid) returns (n: nat)
    ensures n == |Run(g, 6, true).cells|
  {
    var r := RunSteps(g, 6, true);
    n := |r.cells|;
  }

  // ---------------------------------------------------------------------------
  // Parsing

  /** The `#` cells of line `y`, in reading order. */
  function LineActives(line: string, y: int): seq<Pos>
    decreases |line|
  {
    if line == [] then []
    else LineActives(line[..|line| - 1], y) + (if line[|line| - 1] == '#' then [Pos(|line| - 1, y, 0, 0)] else [])
  }

  /** `raw_grid`: the `#` cells of all lines, in reading order. */
  function Actives(lines: seq<string>): seq<Pos>
    decreases |lines|
  {
    if lines == [] then [] else Actives(lines[..|lines| - 1]) + LineActives(lines[|lines| - 1], |lines| - 1)
  }

  /** The character at `p` in the input is `#` and `p` lies in the plane z = w = 0. */
  predicate IsActive(lines: seq<string>, p: Pos)
  {
    p.z == 0 && p.w == 0 && 0 <= p.y < |lines| && 0 <= p.x < |lines[p.y]| && lines[p.y][p.x] == '#'
  }

  lemma {:induction false} LineActivesMember(line: string, y: int, p: Pos)
    ensures p in LineActives(line, y) <==> p.y == y && p.z == 0 && p.w == 0 && 0 <= p.x < |line| && line[p.x] == '#'
    decreases |line|
  {
    if line != [] {
      var init := line[..|line| - 1];
      LineActivesMember(init, y, p);
      if 0 <= p.x < |init| {
        assert init[p.x] == line[p.x];
      }
    }
  }

  lemma {:induction false} ActivesMember(lines: seq<string>, p: Pos)
    ensures p in Actives(lines) <==> IsActive(lines, p)
    decreases |lines|
  {
    if lines != [] {
      var init := lines[..|lines| - 1];
      ActivesMember(init, p);
      LineActivesMember(lines[|lines| - 1], |lines| - 1, p);
      if 0 <= p.y < |init| {
        assert init[p.y] == lines[p.y];
      }
    }
  }

  /** Lines are read in order, so the last `#` read has the greatest y. */
  lemma {:induction false} LastHasMaxY(lines: seq<string>, q: Pos)
    requires Actives(lines) != [] && q in Actives(lines)
    ensures q.y <= Actives(lines)[|Actives(lines)| - 1].y
    decreases |lines|
  {
    var init, last := lines[..|lines| - 1], lines[|lines| - 1];
    var row := LineActives(last, |lines| - 1);
    if row == [] {
      assert Actives(lines) == Actives(init);
      LastHasMaxY(init, q);
    } else {
      LineActivesMember(last, |lines| - 1, row[|row| - 1]);
      ActivesMember(lines, q);
    }
  }

  /** The greatest x of a non-empty sequence of cells. */
  function MaxX(s: seq<Pos>): (m: int)
    requires s != []
    ensures forall i :: 0 <= i < |s| ==> s[i].x <= m
    ensures exists i :: 0 <= i < |s| && s[i].x == m
  {
    if |s| == 1 then s[0].x
    else
      var m := MaxX(s[..|s| - 1]);
      assert forall i :: 0 <= i < |s| - 1 ==> s[..|s| - 1][i] == s[i];
      if s[|s| - 1].x > m then s[|s| - 1].x else m
  }

  /** The grid read from the lines of the input, with the x bound taken as
      the greatest x of any `#`; with no `#` the source panics. */
  function ParseLines(lines: seq<string>): Option<Grid>
  {
    var a := Actives(lines);
    if a == [] then None
    else Some(Grid((set p | p in a), Bounds(Range(0, MaxX(a)), Range(0, a[|a| - 1].y), Range(0, 0), Range(0, 0))))
  }

  /** `parse` as written: both bounds come from the last `#` read. */
  function ParseLinesAsWritten(lines: seq<string>): Option<Grid>
  {
    var a := Actives(lines);
    if a == [] then None
    else Some(Grid((set p | p in a), Bounds(Range(0, a[|a| - 1].x), Range(0, a[|a| - 1].y), Range(0, 0), Range(0, 0))))
  }

  function Parse(input: string): Option<Grid>
  {
    ParseLines(Lines(input))
  }

  /** The input fails to parse exactly when it has no `#`. */
  lemma ParseNone(lines: seq<string>)
    ensures ParseLines(lines).None? <==> forall y, x :: 0 <= y < |lines| && 0 <= x < |lines[y]| ==> lines[y][x] != '#'
  {
    var a := Actives(lines);
    if a != [] {
      ActivesMember(lines, a[0]);
    } else {
      forall y, x | 0 <= y < |lines| && 0 <= x < |lines[y]| ensures lines[y][x] != '#' {
        ActivesMember(lines, Pos(x, y, 0, 0));
      }
    }
  }

  /** The active cells read are the `#` characters, at z = w = 0. */
  lemma ParseCells(lines: seq<string>, p: Pos)
    requires ParseLines(lines).Some?
    ensures p in ParseLines(lines).value.cells <==> IsActive(lines, p)
  {
    ActivesMember(lines, p);
  }

  /** The bounds read are the least and greatest coordinates of the cells and the origin. */
  lemma ParseSpans(lines: seq<string>)
    requires ParseLines(lines).Some?
    ensures Spans(ParseLines(lines).value.bounds, ParseLines(lines).value.cells)
  {
    var a := Actives(lines);
    var g := ParseLines(lines).value;
    forall p | p in g.cells ensures InBounds(g.bounds, p) {
      ActivesMember(lines, p);
      LastHasMaxY(lines, p);
      var i :| 0 <= i < |a| && a[i] == p;
    }
    var i :| 0 <= i < |a| && a[i].x == MaxX(a);
    assert a[i] in g.cells;
    assert a[|a| - 1] in g.cells;
  }

  /** As written, the x bound can miss an active cell, and then a cycle
      loses a cell that stays active: in the two-by-two block of `..##`,
      `..##` followed by `#`, the last `#` is at x = 0. */
  lemma AsWrittenLosesCell(lines: seq<string>)
    requires lines == ["..##", "..##", "#"]
    ensures ParseLinesAsWritten(lines).Some? && ParseLines(lines).Some?
    ensures !Encloses(ParseLinesAsWritten(lines).value.bounds, ParseLinesAsWritten(lines).value.cells)
    ensures Pos(2, 0, 0, 0) !in Step1AsWritten(lines)
    ensures Pos(2, 0, 0, 0) in Life(ParseLines(lines).value.cells, false)
  {
    BlockParse(lines);
    var g := ParseLinesAsWritten(lines).value;
    var p := Pos(2, 0, 0, 0);
    assert Pos(3, 0, 0, 0) in g.cells && !InBounds(g.bounds, Pos(3, 0, 0, 0));
    NextCellsMember(g.cells, Region(g.bounds, false), p);
    assert forall q :: q in g.cells <==>
      q in {p, Shift(p, 1, 0, 0, 0), Shift(p, 0, 1, 0, 0), Shift(p, 1, 1, 0, 0), Shift(p, -2, 2, 0, 0)};
    BlockSurvives(g.cells, p);
    LifeMember(g.cells, p);
  }

  /** A cell that satisfies the rule is active after a three-dimensional
      cycle exactly when it lies at w = 0. */
  lemma LifeMember(cells: set<Pos>, p: Pos)
    requires NextActive(cells, p)
    ensures p in Life(cells, false) <==> p.w == 0
  {
    NextActiveNear(cells, p);
    var q :| q in cells && Near(p, q);
    assert InBounds(SpanOf(cells), q);
    NextCellsMember(cells, Region(SpanOf(cells), false), p);
  }

  /** The cells after one cycle of the grid `parse` returns as written, in three dimensions. */
  function Step1AsWritten(lines: seq<string>): set<Pos>
    requires ParseLinesAsWritten(lines).Some?
  {
    var g := ParseLinesAsWritten(lines).value;
    NextCells(g.cells, Region(g.bounds, false))
  }

  /** The grid of the block input, both ways. */
  lemma BlockParse(lines: seq<string>)
    requires lines == ["..##", "..##", "#"]
    ensures ParseLinesAsWritten(lines).Some? && ParseLines(lines).Some?
    ensures ParseLines(lines).value.cells == ParseLinesAsWritten(lines).value.cells
    ensures ParseLinesAsWritten(lines).value.bounds.x == Range(0, 0)
    ensures forall q :: q in ParseLinesAsWritten(lines).value.cells <==>
      q in {Pos(2, 0, 0, 0), Pos(3, 0, 0, 0), Pos(2, 1, 0, 0), Pos(3, 1, 0, 0), Pos(0, 2, 0, 0)}
  {
    var a := Actives(lines);
    ActivesMember(lines, Pos(0, 2, 0, 0));
    assert a[|a| - 1] == Pos(0, 2, 0, 0) by {
      assert a == Actives(lines[..2]) + LineActives("#", 2);
    }
    forall q ensures q in a <==> q in {Pos(2, 0, 0, 0), Pos(3, 0, 0, 0), Pos(2, 1, 0, 0), Pos(3, 1, 0, 0), Pos(0, 2, 0, 0)} {
      ActivesMember(lines, q);
    }
  }

  /** Offsets that find nothing add nothing. */
  lemma {:induction false} CountQuiet(cells: set<Pos>, p: Pos, lo: nat, hi: nat)
    requires lo <= hi
    requires forall t :: lo <= t < hi ==> Hit(cells, p, t) == 0
    ensures Count(cells, p, hi) == Count(cells, p, lo)
    decreases hi - lo
  {
    if hi > lo {
      CountQuiet(cells, p, lo, hi - 1);
    }
  }

  /** `Count` from `lo` to `hi` adds the hits in between, for a short run spelled out. */
  lemma CountRun(cells: set<Pos>, p: Pos, lo: nat, hi: nat)
    requires hi == lo + 9
    ensures Count(cells, p, hi) == Count(cells, p, lo) + Hit(cells, p, lo) + Hit(cells, p, lo + 1) + Hit(cells, p, lo + 2)
      + Hit(cells, p, lo + 3) + Hit(cells, p, lo + 4) + Hit(cells, p, lo + 5) + Hit(cells, p, lo + 6) + Hit(cells, p, lo + 7)
      + Hit(cells, p, lo + 8)
  {
    CountNext(cells, p, lo);
    CountNext(cells, p, lo + 1);
    CountNext(cells, p, lo + 2);
    CountNext(cells, p, lo + 3);
    CountNext(cells, p, lo + 4);
    CountNext(cells, p, lo + 5);
    CountNext(cells, p, lo + 6);
    CountNext(cells, p, lo + 7);
    CountNext(cells, p, lo + 8);
  }

  lemma CountNext(cells: set<Pos>, p: Pos, t: nat)
    ensures Count(cells, p, t + 1) == Count(cells, p, t) + Hit(cells, p, t)
  {
  }

  /** A cell of a two-by-two block, with one more active cell away from it,
      has three active neighbours, so it stays active. */
  lemma BlockSurvives(cells: set<Pos>, p: Pos)
    requires forall q :: q in cells <==>
      q in {p, Shift(p, 1, 0, 0, 0), Shift(p, 0, 1, 0, 0), Shift(p, 1, 1, 0, 0), Shift(p, -2, 2, 0, 0)}
    ensures NextActive(cells, p)
  {
    assert forall q :: q in cells ==> q.z == p.z && q.w == p.w;
    forall t | 0 <= t < 27 ensures Hit(cells, p, t) == 0 {
      OffsetBands(t);
    }
    CountQuiet(cells, p, 0, 27);
    forall t | 27 <= t < 36 ensures Hit(cells, p, t) == 0 {
      OffsetBands(t);
    }
    CountQuiet(cells, p, 27, 36);
    assert Count(cells, p, 45) == Count(cells, p, 36) + 3 by {
      assert Hit(cells, p, 36) == 0 && Hit(cells, p, 37) == 0 && Hit(cells, p, 38) == 0;
      assert Hit(cells, p, 39) == 0 && Hit(cells, p, 40) == 0 && Hit(cells, p, 41) == 1;
      assert Hit(cells, p, 42) == 0 && Hit(cells, p, 43) == 1 && Hit(cells, p, 44) == 1;
      CountRun(cells, p, 36, 45);
    }
    forall t | 45 <= t < 54 ensures Hit(cells, p, t) == 0 {
      OffsetBands(t);
    }
    CountQuiet(cells, p, 45, 54);
    forall t | 54 <= t < 81 ensures Hit(cells, p, t) == 0 {
      OffsetBands(t);
    }
    CountQuiet(cells, p, 54, 81);
  }
}
