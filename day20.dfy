/** Day 20: square tiles of pixels, their rotations and flips, the edges by
    which neighbouring tiles are matched, the corner tiles (those with two
    edges shared with no other tile), and the search for a pattern in the
    assembled picture. */
module Day20 {
  import opened Text
  import opened Seqs
  import opened Folds

  /** A tile's pixels, row by row; `true` is a set pixel `#`. */
  type Grid = seq<seq<bool>>

  /** Every row is as long as the grid is tall. */
  predicate Square(g: Grid)
  {
    forall y :: 0 <= y < |g| ==> |g[y]| == |g|
  }

  /** Every row has at least as many pixels as the grid has rows. */
  predicate Wide(g: Grid)
  {
    forall y :: 0 <= y < |g| ==> |g[y]| >= |g|
  }

  function Reversed<T>(s: seq<T>): (r: seq<T>)
    ensures |r| == |s|
  {
    seq(|s|, i requires 0 <= i < |s| => s[|s| - 1 - i])
  }

  lemma ReversedTwice<T>(s: seq<T>)
    ensures Reversed(Reversed(s)) == s
  {
  }

  /** Column `j`, top to bottom. */
  function Column(g: Grid, j: nat): (c: seq<bool>)
    requires forall y :: 0 <= y < |g| ==> j < |g[y]|
    ensures |c| == |g|
  {
    seq(|g|, y requires 0 <= y < |g| => g[y][j])
  }

  // Rotation and flips

  /** The tile turned 90 degrees anti-clockwise. */
  function Rotated(g: Grid): (r: Grid)
    requires Wide(g)
    ensures Square(r) && |r| == |g|
  {
    seq(|g|, i requires 0 <= i < |g| => Column(g, |g| - 1 - i))
  }

  /** Row `i` of the turned tile is column `n - 1 - i` of the tile. */
  lemma RotatedPixels(g: Grid)
    requires Wide(g)
    ensures forall i, k :: 0 <= i < |g| && 0 <= k < |g| ==> Rotated(g)[i][k] == g[k][|g| - 1 - i]
  {
    forall i, k | 0 <= i < |g| && 0 <= k < |g| ensures Rotated(g)[i][k] == g[k][|g| - 1 - i] {
      assert Rotated(g)[i] == Column(g, |g| - 1 - i);
    }
  }

  /** `rotate`: row `i` of the result is column `n - 1 - i`, pushed one row
      at a time. */
  method Rotate(g: Grid) returns (r: Grid)
    requires Wide(g)
    ensures r == Rotated(g)
  {
    var n := |g|;
    r := [];
    while |r| < n
      invariant |r| <= n && r == Rotated(g)[..|r|]
    {
      var j := n - 1 - |r|;
      r := r + [Column(g, j)];
    }
  }

  /** `flip_h`: every row reversed. */
  function Flipped(g: Grid): (r: Grid)
    ensures |r| == |g|
  {
    seq(|g|, y requires 0 <= y < |g| => Reversed(g[y]))
  }

  /** Flipping twice gives back the tile. */
  lemma FlipTwice(g: Grid)
    ensures Flipped(Flipped(g)) == g
  {
    forall y | 0 <= y < |g| ensures Flipped(Flipped(g))[y] == g[y] {
      ReversedTwice(g[y]);
    }
  }

  lemma FlipSquare(g: Grid)
    requires Square(g)
    ensures Square(Flipped(g))
  {
  }

  /** Turning a square tile twice is a half turn. */
  lemma RotateTwice(g: Grid)
    requires Square(g)
    ensures forall i, k :: 0 <= i < |g| && 0 <= k < |g| ==>
      Rotated(Rotated(g))[i][k] == g[|g| - 1 - i][|g| - 1 - k]
  {
    var n := |g|;
    var h := Rotated(g);
    forall i, k | 0 <= i < n && 0 <= k < n ensures Rotated(h)[i][k] == g[n - 1 - i][n - 1 - k] {
      assert Rotated(h)[i][k] == h[k][n - 1 - i];
    }
  }

  /** Four turns give back a square tile. */
  lemma RotateFour(g: Grid)
    requires Square(g)
    ensures Rotated(Rotated(Rotated(Rotated(g)))) == g
  {
    var h := Rotated(Rotated(g));
    RotateTwice(g);
    RotateTwice(h);
    var r := Rotated(Rotated(h));
    forall y | 0 <= y < |g| ensures r[y] == g[y] {
      forall x | 0 <= x < |g| ensures r[y][x] == g[y][x] {
        assert r[y][x] == h[|g| - 1 - y][|g| - 1 - x];
      }
    }
  }

  /** The tile turned `k` times. */
  function Turned(g: Grid, k: nat): (r: Grid)
    requires Wide(g)
    ensures Wide(r) && |r| == |g|
    ensures k > 0 ==> Square(r)
  {
    if k == 0 then g else Rotated(Turned(g, k - 1))
  }

  // Counting set pixels

  /** `count_set_pixels`: the set pixels of every row, summed. */
  function Count(g: Grid): nat
  {
    if g == [] then 0 else Count(g[..|g| - 1]) + CountTrue(g[|g| - 1])
  }

  /** The positions of the set pixels. */
  ghost function Cells(g: Grid): set<(int, int)>
  {
    set y, x | 0 <= y < |g| && 0 <= x < |g[y]| && g[y][x] :: (y, x)
  }

  function AtRow(m: int): int -> (int, int)
  {
    x => (m, x)
  }

  /** Where a turn of an `n` by `n` tile takes a position. */
  function Turn(n: int): ((int, int)) -> (int, int)
  {
    (c: (int, int)) => (n - 1 - c.1, c.0)
  }

  function Mirror(n: int): int -> int
  {
    k => n - 1 - k
  }

  /** The set positions of row `m`. */
  ghost function RowCells(g: Grid, m: nat): set<(int, int)>
    requires m < |g|
  {
    set x | 0 <= x < |g[m]| && g[m][x] :: (m, x)
  }

  lemma RowCellsSize(g: Grid, m: nat)
    requires m < |g|
    ensures |RowCells(g, m)| == CountTrue(g[m])
  {
    var row := g[m];
    var xs := set x | 0 <= x < |row| && row[x];
    CountTrueIndices(row);
    forall c | c in RowCells(g, m) ensures exists x :: x in xs && AtRow(m)(x) == c {
      assert c.1 in xs && AtRow(m)(c.1) == c;
    }
    ImageSize(xs, AtRow(m), RowCells(g, m));
  }

  /** The set positions of a grid are those above its last row and those in it. */
  lemma CellsSnoc(g: Grid)
    requires g != []
    ensures Cells(g) == Cells(g[..|g| - 1]) + RowCells(g, |g| - 1)
    ensures Cells(g[..|g| - 1]) !! RowCells(g, |g| - 1)
  {
    var m := |g| - 1;
    var init := g[..m];
    forall c | c in Cells(g) ensures c in Cells(init) + RowCells(g, m) {
      if c.0 < m {
        assert init[c.0] == g[c.0];
      }
    }
    forall c | c in Cells(init) ensures c in Cells(g) {
      assert init[c.0] == g[c.0];
    }
  }

  /** The count is the number of set positions. */
  lemma {:induction false} CountCells(g: Grid)
    ensures Count(g) == |Cells(g)|
  {
    if g != [] {
      var m := |g| - 1;
      CountCells(g[..m]);
      CellsSnoc(g);
      RowCellsSize(g, m);
    }
  }

  lemma CountTrueReversed(s: seq<bool>)
    ensures CountTrue(Reversed(s)) == CountTrue(s)
  {
    var r := Reversed(s);
    CountTrueIndices(s);
    CountTrueIndices(r);
    var ks := set k | 0 <= k < |s| && s[k];
    var image := set k | k in ks :: Mirror(|s|)(k);
    ImageSize(ks, Mirror(|s|), image);
    forall k | 0 <= k < |r| && r[k] ensures k in image {
      assert |s| - 1 - k in ks;
      assert Mirror(|s|)(|s| - 1 - k) == k;
    }
    forall k | k in image ensures 0 <= k < |r| && r[k] {
      var j :| j in ks && Mirror(|s|)(j) == k;
      assert r[k] == s[j];
    }
    assert (set k | 0 <= k < |r| && r[k]) == image;
  }

  /** Flipping keeps the number of set pixels. */
  lemma {:induction false} FlipCount(g: Grid)
    ensures Count(Flipped(g)) == Count(g)
  {
    if g != [] {
      var m := |g| - 1;
      assert Flipped(g)[..m] == Flipped(g[..m]);
      FlipCount(g[..m]);
      CountTrueReversed(g[m]);
    }
  }

  /** The set positions of a turned square tile are those of the tile, turned. */
  lemma RotateCells(g: Grid)
    requires Square(g)
    ensures forall c :: c in Cells(g) ==> Turn(|g|)(c) in Cells(Rotated(g))
    ensures forall c :: c in Cells(Rotated(g)) ==> exists d :: d in Cells(g) && Turn(|g|)(d) == c
  {
    var n := |g|;
    var r := Rotated(g);
    RotatedPixels(g);
    forall c | c in Cells(r) ensures exists d :: d in Cells(g) && Turn(n)(d) == c {
      var d := (c.1, n - 1 - c.0);
      assert d in Cells(g);
      assert Turn(n)(d) == c;
    }
    forall d | d in Cells(g) ensures Turn(n)(d) in Cells(r) {
      var c := Turn(n)(d);
      assert r[c.0][c.1] == g[d.0][d.1];
    }
  }

  /** Turning a square tile keeps the number of set pixels. */
  lemma RotateCount(g: Grid)
    requires Square(g)
    ensures Count(Rotated(g)) == Count(g)
  {
    RotateCells(g);
    CountCells(g);
    CountCells(Rotated(g));
    ImageSize(Cells(g), Turn(|g|), Cells(Rotated(g)));
  }

  // Edges

  /** The top row, right to left. */
  function North(g: Grid): seq<bool>
    requires |g| > 0
  {
    Reversed(g[0])
  }

  /** The left column, top to bottom. */
  function West(g: Grid): seq<bool>
    requires forall y :: 0 <= y < |g| ==> 0 < |g[y]|
  {
    Column(g, 0)
  }

  /** The bottom row, left to right. */
  function South(g: Grid): seq<bool>
    requires |g| > 0
  {
    g[|g| - 1]
  }

  /** The right column, bottom to top. */
  function East(g: Grid): seq<bool>
    requires |g| > 0 && Wide(g)
  {
    Reversed(Column(g, |g| - 1))
  }

  /** `edges`: N, W, S and E. Read around the tile anti-clockwise, each
      edge runs on from the one before. `None` where the squareness
      assertions or the indexing of the source fail. */
  function Edges(g: Grid): (r: Option<seq<seq<bool>>>)
    ensures r.Some? <==> |g| > 0 && |g[0]| == |g| && |g[|g| - 1]| == |g| && Wide(g)
    ensures r.Some? ==> |r.value| == 4 && forall i :: 0 <= i < 4 ==> |r.value[i]| == |g|
  {
    var n := |g|;
    if n > 0 && |g[0]| == n && |g[n - 1]| == n && Wide(g) then
      Some([North(g), West(g), South(g), East(g)])
    else
      None
  }

  /** A square tile has its four edges. */
  lemma SquareEdges(g: Grid)
    requires Square(g) && |g| > 0
    ensures Edges(g) == Some([North(g), West(g), South(g), East(g)])
  {
  }

  /** What a turn does to each edge: N and S take the old E and W. */
  lemma WestRotated(g: Grid)
    requires Square(g) && |g| > 0
    ensures West(Rotated(g)) == North(g)
  {
    var n := |g|;
    var r := Rotated(g);
    forall i | 0 <= i < n ensures West(r)[i] == North(g)[i] {
      assert r[i][0] == g[0][n - 1 - i];
    }
  }

  lemma EastRotated(g: Grid)
    requires Square(g) && |g| > 0
    ensures East(Rotated(g)) == South(g)
  {
    var n := |g|;
    var r := Rotated(g);
    forall i | 0 <= i < n ensures East(r)[i] == South(g)[i] {
      assert East(r)[i] == r[n - 1 - i][n - 1];
      assert r[n - 1 - i] == Column(g, i);
    }
  }

  /** A turn moves every edge one place on, anti-clockwise: the edge at
      index `i` comes to index `i + 1`, modulo 4. */
  lemma EdgesRotated(g: Grid)
    requires Square(g) && |g| > 0
    ensures Edges(Rotated(g)) == Some([East(g), North(g), West(g), South(g)])
  {
    SquareEdges(Rotated(g));
    WestRotated(g);
    EastRotated(g);
  }

  /** What a flip does to each edge. */
  lemma NorthFlipped(g: Grid)
    requires Square(g) && |g| > 0
    ensures North(Flipped(g)) == Reversed(North(g))
  {
    ReversedTwice(g[0]);
  }

  lemma WestFlipped(g: Grid)
    requires Square(g) && |g| > 0
    ensures West(Flipped(g)) == Reversed(East(g))
  {
    var n := |g|;
    var f := Flipped(g);
    forall y | 0 <= y < n ensures West(f)[y] == Reversed(East(g))[y] {
      assert West(f)[y] == f[y][0] == g[y][n - 1];
      assert Reversed(East(g))[y] == East(g)[n - 1 - y] == Column(g, n - 1)[y];
    }
  }

  lemma EastFlipped(g: Grid)
    requires Square(g) && |g| > 0
    ensures Square(Flipped(g)) && East(Flipped(g)) == Reversed(West(g))
  {
    FlipSquare(g);
    assert Column(Flipped(g), |g| - 1) == Column(g, 0);
  }

  /** A flip reverses every edge and swaps W with E. */
  lemma EdgesFlipped(g: Grid)
    requires Square(g) && |g| > 0
    ensures Edges(Flipped(g)).Some? && Edges(g).Some?
    ensures Edges(Flipped(g)).value == [Reversed(Edges(g).value[0]), Reversed(Edges(g).value[3]),
                                        Reversed(Edges(g).value[2]), Reversed(Edges(g).value[1])]
  {
    NorthFlipped(g);
    WestFlipped(g);
    EastFlipped(g);
    SquareEdges(g);
    SquareEdges(Flipped(g));
  }

  /** The four edges after `k` turns, each turn moving every edge one
      place on. */
  function TurnEdges(e: seq<seq<bool>>, k: nat): (r: seq<seq<bool>>)
    requires |e| == 4
    ensures |r| == 4
  {
    if k == 0 then e else var f := TurnEdges(e, k - 1); [f[3], f[0], f[1], f[2]]
  }

  lemma {:induction false} EdgesTurned(g: Grid, k: nat)
    requires Square(g) && |g| > 0
    ensures Edges(g).Some? && Edges(Turned(g, k)).Some?
    ensures Edges(Turned(g, k)).value == TurnEdges(Edges(g).value, k)
  {
    if k == 0 {
      SquareEdges(g);
    } else {
      var t := Turned(g, k - 1);
      assert Square(t) by {
        if k == 1 {
          assert t == g;
        }
      }
      EdgesTurned(g, k - 1);
      var f := TurnEdges(Edges(g).value, k - 1);
      SquareEdges(t);
      assert [North(t), West(t), South(t), East(t)] == f;
      EdgesRotated(t);
      assert Turned(g, k) == Rotated(t);
      assert Edges(Rotated(t)).value == [f[3], f[0], f[1], f[2]];
    }
  }

  /** The tile turned until the edge at index `top` is on top, then flipped
      if asked. */
  function Oriented(g: Grid, top: nat, reversed: bool): (r: Grid)
    requires Wide(g)
  {
    var t := Turned(g, (4 - top % 4) % 4);
    if reversed then Flipped(t) else t
  }

  /** Turning `(4 - i) % 4` times brings the edge at index `i` on top. */
  lemma TurnEdgesTop(e: seq<seq<bool>>, i: nat)
    requires |e| == 4 && i < 4
    ensures TurnEdges(e, (4 - i) % 4)[0] == e[i]
  {
    if i == 1 {
      assert TurnEdges(e, 3)[0] == TurnEdges(e, 2)[3] == TurnEdges(e, 1)[2] == e[1];
    } else if i == 2 {
      assert TurnEdges(e, 2)[0] == TurnEdges(e, 1)[3] == e[2];
    } else if i == 3 {
      assert TurnEdges(e, 1)[0] == e[3];
    }
  }

  /** Orienting puts the edge at index `top` on top, reversed if asked. */
  lemma OrientedTop(g: Grid, top: nat, reversed: bool)
    requires Square(g) && |g| > 0
    ensures Edges(g).Some? && Edges(Oriented(g, top, reversed)).Some?
    ensures Edges(Oriented(g, top, reversed)).value[0] ==
      if reversed then Reversed(Edges(g).value[top % 4]) else Edges(g).value[top % 4]
  {
    var k := (4 - top % 4) % 4;
    var t := Turned(g, k);
    var e := Edges(g).value;
    EdgesTurned(g, k);
    TurnEdgesTop(e, top % 4);
    assert Edges(t).value[0] == e[top % 4];
    assert Square(t) by {
      if k == 0 {
        assert t == g;
      }
    }
    if reversed {
      assert Oriented(g, top, reversed) == Flipped(t);
      EdgesFlipped(t);
    } else {
      assert Oriented(g, top, reversed) == t;
    }
  }

  /** A grid `remove_edges` can work on: two rows at least, and two pixels
      at least in each row between the first and the last. */
  predicate Trimmable(g: Grid)
  {
    |g| >= 2 && forall y :: 1 <= y < |g| - 1 ==> |g[y]| >= 2
  }

  /** The grid without its border. */
  function Trimmed(g: Grid): (r: Grid)
    requires Trimmable(g)
    ensures |r| == |g| - 2
    ensures forall y :: 0 <= y < |r| ==> |r[y]| == |g[y + 1]| - 2
    ensures forall y, x :: 0 <= y < |r| && 0 <= x < |r[y]| ==> r[y][x] == g[y + 1][x + 1]
  {
    seq(|g| - 2, y requires 0 <= y < |g| - 2 => g[y + 1][1..|g[y + 1]| - 1])
  }

  /** Trimming an `n` by `n` tile leaves an `n - 2` by `n - 2` tile. */
  lemma TrimmedSquare(g: Grid)
    requires Square(g) && |g| >= 2
    ensures Trimmable(g) && Square(Trimmed(g))
  {
  }

  /** A tile whose pixels `remove_edges` and `orient` change in place. */
  class Tile {
    var rows: Grid

    constructor (rows: Grid)
      ensures this.rows == rows
    {
      this.rows := rows;
    }

    /** `orient`: turns until `top` reaches a multiple of four, then flips
        if asked. */
    method Orient(top: nat, reversed: bool)
      requires Wide(rows)
      modifies this
      ensures rows == Oriented(old(rows), top, reversed)
    {
      ghost var g := rows;
      var t := top;
      while t % 4 != 0
        invariant top <= t
        invariant rows == Turned(g, t - top)
        invariant (t - top) + (4 - t % 4) % 4 == (4 - top % 4) % 4
        decreases (4 - t % 4) % 4
      {
        rows := Rotate(rows);
        t := t + 1;
      }
      if reversed {
        rows := Flipped(rows);
      }
    }

    /** `remove_edges`: the last and the first row go, then the last and the
        first pixel of every remaining row. */
    method RemoveEdges()
      requires Trimmable(rows)
      modifies this
      ensures rows == Trimmed(old(rows))
    {
      ghost var g := rows;
      rows := rows[..|rows| - 1];
      rows := rows[1..];
      for i := 0 to |rows|
        invariant |rows| == |g| - 2
        invariant forall y :: 0 <= y < i ==> rows[y] == Trimmed(g)[y]
        invariant forall y :: i <= y < |rows| ==> rows[y] == g[y + 1]
      {
        var row := rows[i];
        row := row[..|row| - 1];
        row := row[1..];
        rows := rows[i := row];
      }
    }
  }

  // Matching edges between tiles

  /** Which edge of which tile, read forwards or reversed. */
  datatype EdgeId = EdgeId(tile: nat, index: nat, reversed: bool)

  /** An edge filed under a key. */
  type Filing = (seq<bool>, EdgeId)

  /** An edge read forwards, or reversed. */
  function EdgeKey(e: seq<bool>, reversed: bool): seq<bool>
  {
    if reversed then Reversed(e) else e
  }

  /** The eight filings of one tile in `edge_map`: each of its four edges,
      forwards and reversed, under distinct edge ids. */
  function TileFilings(id: nat, edges: seq<seq<bool>>): (r: seq<Filing>)
    requires |edges| == 4
    ensures |r| == 8
    ensures forall k :: 0 <= k < |r| ==>
      r[k].1.tile == id && r[k].1.index < 4 && r[k].0 == EdgeKey(edges[r[k].1.index], r[k].1.reversed)
    ensures forall j, k :: 0 <= j < k < |r| ==> r[j].1 != r[k].1
  {
    [(edges[0], EdgeId(id, 0, false)), (Reversed(edges[0]), EdgeId(id, 0, true)),
     (edges[1], EdgeId(id, 1, false)), (Reversed(edges[1]), EdgeId(id, 1, true)),
     (edges[2], EdgeId(id, 2, false)), (Reversed(edges[2]), EdgeId(id, 2, true)),
     (edges[3], EdgeId(id, 3, false)), (Reversed(edges[3]), EdgeId(id, 3, true))]
  }

  /** Every tile listed is there and has its four edges. */
  predicate Tiled(tiles: map<nat, Grid>, order: seq<nat>)
  {
    forall id :: id in order ==> id in tiles && Edges(tiles[id]).Some?
  }

  /** The filings of the tiles in the order they are visited. */
  function Filings(tiles: map<nat, Grid>, order: seq<nat>): (r: seq<Filing>)
    requires Tiled(tiles, order)
    ensures |r| == 8 * |order|
    ensures forall k :: 0 <= k < |r| ==>
      r[k].1.tile in order && r[k].1.index < 4 &&
      r[k].0 == EdgeKey(Edges(tiles[r[k].1.tile]).value[r[k].1.index], r[k].1.reversed)
  {
    if order == [] then []
    else
      var n := |order| - 1;
      var id := order[n];
      var init := Filings(tiles, order[..n]);
      var last := TileFilings(id, Edges(tiles[id]).value);
      assert forall k :: 0 <= k < |init| ==> init[k].1.tile in order by {
        forall k | 0 <= k < |init| ensures init[k].1.tile in order {
          var j :| 0 <= j < n && order[..n][j] == init[k].1.tile;
          assert order[j] == init[k].1.tile;
        }
      }
      init + last
  }

  /** The edge ids filed under `e`, in filing order: an entry of the edge map. */
  function Under(fs: seq<Filing>, e: seq<bool>): (r: seq<EdgeId>)
    ensures forall x :: x in r <==> (e, x) in fs
  {
    if fs == [] then []
    else
      var n := |fs| - 1;
      var init := Under(fs[..n], e);
      assert fs == fs[..n] + [fs[n]];
      if fs[n].0 == e then init + [fs[n].1] else init
  }

  /** The edge map holds, under every key filed, exactly the ids filed under it. */
  ghost predicate Files(edges: map<seq<bool>, seq<EdgeId>>, fs: seq<Filing>)
  {
    forall e :: (e in edges <==> Under(fs, e) != []) && (e in edges ==> edges[e] == Under(fs, e))
  }

  /** `entry(edge).or_insert_with(Vec::new).push(id)`. */
  function Push(edges: map<seq<bool>, seq<EdgeId>>, f: Filing): map<seq<bool>, seq<EdgeId>>
  {
    edges[f.0 := (if f.0 in edges then edges[f.0] else []) + [f.1]]
  }

  /** Pushing a filing onto the map files it. */
  lemma FilesPush(edges: map<seq<bool>, seq<EdgeId>>, fs: seq<Filing>, f: Filing)
    requires Files(edges, fs)
    ensures Files(Push(edges, f), fs + [f])
  {
    var fs' := fs + [f];
    assert fs'[..|fs|] == fs;
    forall e ensures Under(fs', e) == Under(fs, e) + (if f.0 == e then [f.1] else []) {
    }
  }

  /** The filings of one more tile follow those before. */
  lemma FilingsSnoc(tiles: map<nat, Grid>, order: seq<nat>, j: nat)
    requires Tiled(tiles, order) && j < |order|
    ensures Tiled(tiles, order[..j]) && Tiled(tiles, order[..j + 1])
    ensures Filings(tiles, order[..j + 1]) ==
      Filings(tiles, order[..j]) + TileFilings(order[j], Edges(tiles[order[j]]).value)
  {
    assert order[..j + 1][..j] == order[..j];
  }

  /** The inner loop of `edge_map`: one tile's filings pushed in turn. */
  method FileAll(edges: map<seq<bool>, seq<EdgeId>>, ghost before: seq<Filing>, fs: seq<Filing>)
    returns (edges': map<seq<bool>, seq<EdgeId>>)
    requires Files(edges, before)
    ensures Files(edges', before + fs)
  {
    edges' := edges;
    assert before + fs[..0] == before;
    for k := 0 to |fs|
      invariant Files(edges', before + fs[..k])
    {
      FilesPush(edges', before + fs[..k], fs[k]);
      assert before + fs[..k] + [fs[k]] == before + fs[..k + 1];
      edges' := Push(edges', fs[k]);
    }
    assert fs[..|fs|] == fs;
  }

  /** `edge_map`: every tile, visited in `order`, filed under its eight keys. */
  method EdgeMap(tiles: map<nat, Grid>, order: seq<nat>) returns (edges: map<seq<bool>, seq<EdgeId>>)
    requires Tiled(tiles, order)
    ensures Files(edges, Filings(tiles, order))
  {
    edges := map[];
    assert order[..0] == [];
    for j := 0 to |order|
      invariant Files(edges, Filings(tiles, order[..j]))
    {
      var id := order[j];
      var fs := TileFilings(id, Edges(tiles[id]).value);
      FilingsSnoc(tiles, order, j);
      edges := FileAll(edges, Filings(tiles, order[..j]), fs);
    }
    assert order[..|order|] == order;
  }

  /** An edge id that is the only one filed under its key: an edge no other
      tile shares. */
  ghost predicate Lonely(edges: map<seq<bool>, seq<EdgeId>>, x: EdgeId)
  {
    exists e :: e in edges && edges[e] == [x]
  }

  /** Lonely under one of the keys `keys`. */
  ghost predicate LonelyAmong(edges: map<seq<bool>, seq<EdgeId>>, keys: seq<seq<bool>>, x: EdgeId)
  {
    exists k :: 0 <= k < |keys| && keys[k] in edges && edges[keys[k]] == [x]
  }

  /** `unique` maps each tile with a lonely edge to the indices of its lonely
      edges, each with the direction of one of its lonely readings. */
  ghost predicate Unique(unique: map<nat, map<nat, bool>>, edges: map<seq<bool>, seq<EdgeId>>, keys: seq<seq<bool>>)
  {
    (forall t :: t in unique ==> exists i: nat, rv :: LonelyAmong(edges, keys, EdgeId(t, i, rv))) &&
    (forall t, i :: t in unique && i in unique[t] ==> LonelyAmong(edges, keys, EdgeId(t, i, unique[t][i]))) &&
    (forall x :: LonelyAmong(edges, keys, x) ==> x.tile in unique && x.index in unique[x.tile])
  }

  /** `entry(tile).or_insert_with(HashMap::new).insert(index, reversed)`. */
  function Note(unique: map<nat, map<nat, bool>>, x: EdgeId): map<nat, map<nat, bool>>
  {
    unique[x.tile := (if x.tile in unique then unique[x.tile] else map[])[x.index := x.reversed]]
  }

  /** One more key considered: the lonely ids are those before and the id
      alone under the new key. */
  lemma LonelyAmongSnoc(edges: map<seq<bool>, seq<EdgeId>>, keys: seq<seq<bool>>, e: seq<bool>)
    requires e in edges
    ensures forall x :: LonelyAmong(edges, keys + [e], x) <==> LonelyAmong(edges, keys, x) || edges[e] == [x]
  {
    var keys' := keys + [e];
    forall x | LonelyAmong(edges, keys, x) ensures LonelyAmong(edges, keys', x) {
      var k :| 0 <= k < |keys| && keys[k] in edges && edges[keys[k]] == [x];
      assert keys'[k] == keys[k];
    }
    forall x | edges[e] == [x] ensures LonelyAmong(edges, keys', x) {
      assert keys'[|keys|] == e;
    }
    forall x | LonelyAmong(edges, keys', x) ensures LonelyAmong(edges, keys, x) || edges[e] == [x] {
      var k :| 0 <= k < |keys'| && keys'[k] in edges && edges[keys'[k]] == [x];
      if k < |keys| {
        assert keys[k] == keys'[k];
      }
    }
  }

  /** A key whose entry is not alone changes nothing. */
  lemma UniqueSame(unique: map<nat, map<nat, bool>>, edges: map<seq<bool>, seq<EdgeId>>, keys: seq<seq<bool>>, keys': seq<seq<bool>>)
    requires Unique(unique, edges, keys)
    requires forall x :: LonelyAmong(edges, keys', x) <==> LonelyAmong(edges, keys, x)
    ensures Unique(unique, edges, keys')
  {
  }

  /** A key with one id notes it. */
  lemma UniqueNote(unique: map<nat, map<nat, bool>>, edges: map<seq<bool>, seq<EdgeId>>, keys: seq<seq<bool>>, keys': seq<seq<bool>>, y: EdgeId)
    requires Unique(unique, edges, keys)
    requires forall x :: LonelyAmong(edges, keys', x) <==> LonelyAmong(edges, keys, x) || x == y
    ensures Unique(Note(unique, y), edges, keys')
  {
    var u := Note(unique, y);
    assert LonelyAmong(edges, keys', y);
    forall t | t in u ensures exists i: nat, rv :: LonelyAmong(edges, keys', EdgeId(t, i, rv)) {
      if t == y.tile {
        assert y == EdgeId(t, y.index, y.reversed);
      } else {
        var i: nat, rv :| LonelyAmong(edges, keys, EdgeId(t, i, rv));
        assert LonelyAmong(edges, keys', EdgeId(t, i, rv));
      }
    }
    forall t, i | t in u && i in u[t] ensures LonelyAmong(edges, keys', EdgeId(t, i, u[t][i])) {
      if t == y.tile && i == y.index {
        assert EdgeId(t, i, u[t][i]) == y;
      } else {
        assert t in unique && i in unique[t] && u[t][i] == unique[t][i];
        assert LonelyAmong(edges, keys, EdgeId(t, i, unique[t][i]));
      }
    }
    forall x | LonelyAmong(edges, keys', x) ensures x.tile in u && x.index in u[x.tile] {
      if x != y {
        assert LonelyAmong(edges, keys, x);
      }
    }
  }

  /** `unique_edges`: the lonely edges of every tile, by index. Where an
      edge is lonely both forwards and reversed, the direction kept is the
      one visited last. */
  method UniqueEdges(edges: map<seq<bool>, seq<EdgeId>>) returns (unique: map<nat, map<nat, bool>>)
    ensures UniqueOf(unique, edges)
  {
    var keys := Elements(edges.Keys);
    unique := map[];
    for j := 0 to |keys|
      invariant Unique(unique, edges, keys[..j])
    {
      var e := keys[j];
      LonelyAmongSnoc(edges, keys[..j], e);
      assert keys[..j] + [e] == keys[..j + 1];
      var ids := edges[e];
      if |ids| == 1 {
        var x := ids[0];
        assert ids == [x];
        UniqueNote(unique, edges, keys[..j], keys[..j + 1], x);
        var entry := if x.tile in unique then unique[x.tile] else map[];
        unique := unique[x.tile := entry[x.index := x.reversed]];
      } else {
        UniqueSame(unique, edges, keys[..j], keys[..j + 1]);
      }
    }
    assert keys[..|keys|] == keys;
    LonelyAmongAll(edges, keys);
  }

  /** Among all the keys, lonely is lonely. */
  lemma LonelyAmongAll(edges: map<seq<bool>, seq<EdgeId>>, keys: seq<seq<bool>>)
    requires forall e :: e in keys <==> e in edges
    ensures forall x :: LonelyAmong(edges, keys, x) <==> Lonely(edges, x)
  {
    forall x | Lonely(edges, x) ensures LonelyAmong(edges, keys, x) {
      var e :| e in edges && edges[e] == [x];
      var k :| 0 <= k < |keys| && keys[k] == e;
    }
  }

  /** `tiles_with_free_edges`: the tiles with `free` lonely edges. */
  function WithFreeEdges(unique: map<nat, map<nat, bool>>, free: nat): set<nat>
  {
    set t | t in unique && |unique[t]| == free
  }

  /** Filed alone under some key. */
  ghost predicate LonelyFiled(fs: seq<Filing>, x: EdgeId)
  {
    exists e :: Under(fs, e) == [x]
  }

  /** The indices of the edges of tile `t` that no other tile shares, read
      either way. */
  ghost function FreeIndices(fs: seq<Filing>, t: nat): set<nat>
  {
    set i: nat | i < 4 && (LonelyFiled(fs, EdgeId(t, i, false)) || LonelyFiled(fs, EdgeId(t, i, true)))
  }

  /** The corner tiles: those filed with exactly two free edges. */
  ghost function Corners(fs: seq<Filing>): set<nat>
  {
    set k | 0 <= k < |fs| && |FreeIndices(fs, fs[k].1.tile)| == 2 :: fs[k].1.tile
  }

  /** In a map that files `fs`, lonely means filed alone. */
  lemma LonelyFiles(edges: map<seq<bool>, seq<EdgeId>>, fs: seq<Filing>, x: EdgeId)
    requires Files(edges, fs)
    ensures Lonely(edges, x) <==> LonelyFiled(fs, x)
  {
    if LonelyFiled(fs, x) {
      var e :| Under(fs, e) == [x];
      assert e in edges && edges[e] == [x];
    }
  }

  /** What `unique_edges` promises of its result. */
  ghost predicate UniqueOf(unique: map<nat, map<nat, bool>>, edges: map<seq<bool>, seq<EdgeId>>)
  {
    (forall t :: t in unique ==> exists i: nat, rv :: Lonely(edges, EdgeId(t, i, rv))) &&
    (forall t, i :: t in unique && i in unique[t] ==> Lonely(edges, EdgeId(t, i, unique[t][i]))) &&
    (forall x :: Lonely(edges, x) ==> x.tile in unique && x.index in unique[x.tile])
  }

  /** A tile's entry in `unique` holds its free edge indices. */
  lemma FreeIndicesOfUnique(edges: map<seq<bool>, seq<EdgeId>>, fs: seq<Filing>, unique: map<nat, map<nat, bool>>, t: nat)
    requires Files(edges, fs)
    requires forall k :: 0 <= k < |fs| ==> fs[k].1.index < 4
    requires UniqueOf(unique, edges) && t in unique
    ensures unique[t].Keys == FreeIndices(fs, t)
  {
    forall i | i in unique[t] ensures i in FreeIndices(fs, t) {
      var x := EdgeId(t, i, unique[t][i]);
      LonelyFiles(edges, fs, x);
      var e :| Under(fs, e) == [x];
      assert (e, x) in fs;
    }
    forall i | i in FreeIndices(fs, t) ensures i in unique[t] {
      var rv :| LonelyFiled(fs, EdgeId(t, i, rv));
      LonelyFiles(edges, fs, EdgeId(t, i, rv));
    }
  }

  /** A tile with a lonely edge is filed. */
  lemma UniqueFiled(edges: map<seq<bool>, seq<EdgeId>>, fs: seq<Filing>, unique: map<nat, map<nat, bool>>, t: nat)
    requires Files(edges, fs)
    requires UniqueOf(unique, edges) && t in unique
    ensures exists k :: 0 <= k < |fs| && fs[k].1.tile == t
  {
    var i: nat, rv :| Lonely(edges, EdgeId(t, i, rv));
    var x := EdgeId(t, i, rv);
    LonelyFiles(edges, fs, x);
    var e :| Under(fs, e) == [x];
    var k :| 0 <= k < |fs| && fs[k] == (e, x);
  }

  /** The tiles `unique_edges` gives two entries are the corners. */
  lemma CornersOfUnique(edges: map<seq<bool>, seq<EdgeId>>, fs: seq<Filing>, unique: map<nat, map<nat, bool>>)
    requires Files(edges, fs)
    requires forall k :: 0 <= k < |fs| ==> fs[k].1.index < 4
    requires UniqueOf(unique, edges)
    ensures WithFreeEdges(unique, 2) == Corners(fs)
  {
    forall t | t in WithFreeEdges(unique, 2) ensures t in Corners(fs) {
      FreeIndicesOfUnique(edges, fs, unique, t);
      UniqueFiled(edges, fs, unique, t);
      var k :| 0 <= k < |fs| && fs[k].1.tile == t;
    }
    forall t | t in Corners(fs) ensures t in WithFreeEdges(unique, 2) {
      assert FreeIndices(fs, t) != {};
      var i :| i in FreeIndices(fs, t);
      var rv :| LonelyFiled(fs, EdgeId(t, i, rv));
      LonelyFiles(edges, fs, EdgeId(t, i, rv));
      FreeIndicesOfUnique(edges, fs, unique, t);
    }
  }

  /** The tiles with `free` lonely edges among some keys. */
  ghost function FreeAmong(unique: map<nat, map<nat, bool>>, free: nat, keys: seq<nat>): set<nat>
  {
    set t | t in keys && t in unique && |unique[t]| == free
  }

  lemma FreeAmongSnoc(unique: map<nat, map<nat, bool>>, free: nat, keys: seq<nat>, j: nat)
    requires j < |keys| && keys[j] in unique
    requires forall a, b :: 0 <= a < b < |keys| ==> keys[a] != keys[b]
    ensures keys[j] !in FreeAmong(unique, free, keys[..j])
    ensures FreeAmong(unique, free, keys[..j + 1]) ==
      FreeAmong(unique, free, keys[..j]) + (if |unique[keys[j]]| == free then {keys[j]} else {})
  {
    assert keys[..j + 1] == keys[..j] + [keys[j]];
    forall k | 0 <= k < j ensures keys[..j][k] != keys[j] {
      assert keys[..j][k] == keys[k];
    }
  }

  /** A tile's number as a factor of the product `part_1` takes. */
  function TileNumber(t: nat): int
  {
    t
  }

  /** The product of the tile numbers with `free` lonely edges. */
  method FreeProduct(unique: map<nat, map<nat, bool>>, free: nat) returns (p: int)
    ensures p == SetProduct(WithFreeEdges(unique, free), TileNumber)
  {
    var keys := Elements(unique.Keys);
    p := 1;
    assert keys[..0] == [];
    for j := 0 to |keys|
      invariant p == SetProduct(FreeAmong(unique, free, keys[..j]), TileNumber)
    {
      var t := keys[j];
      FreeAmongSnoc(unique, free, keys, j);
      ghost var before := FreeAmong(unique, free, keys[..j]);
      if |unique[t]| == free {
        SetProductAdd<nat>(before, TileNumber, t);
        assert FreeAmong(unique, free, keys[..j + 1]) == before + {t};
        assert p * t == TileNumber(t) * SetProduct(before, TileNumber);
        p := p * t;
      } else {
        assert FreeAmong(unique, free, keys[..j + 1]) == before;
      }
    }
    assert keys[..|keys|] == keys;
    assert FreeAmong(unique, free, keys) == WithFreeEdges(unique, free);
  }

  /** The tiles in `order` each once, every tile listed: what a `HashMap`'s
      iteration gives. */
  predicate Visits(tiles: map<nat, Grid>, order: seq<nat>)
  {
    (forall id :: id in tiles ==> id in order) &&
    (forall id :: id in order ==> id in tiles) &&
    (forall i, j :: 0 <= i < j < |order| ==> order[i] != order[j])
  }

  /** `part_1`: the product of the corner tiles' numbers. */
  method Part1(tiles: map<nat, Grid>, order: seq<nat>) returns (r: int)
    requires Visits(tiles, order) && Tiled(tiles, order)
    ensures r == SetProduct(Corners(Filings(tiles, order)), TileNumber)
  {
    var edges := EdgeMap(tiles, order);
    var unique := UniqueEdges(edges);
    CornersOfUnique(edges, Filings(tiles, order), unique);
    r := FreeProduct(unique, 2);
  }

  // The pattern search

  /** Every row is as long as the first. */
  predicate Rectangular(g: Grid)
  {
    |g| > 0 && forall y :: 0 <= y < |g| ==> |g[y]| == |g[0]|
  }

  /** The pattern `p` is no taller and no wider than the picture `g`. */
  predicate Fits(g: Grid, p: Grid)
  {
    Rectangular(g) && Rectangular(p) && |p| <= |g| && |p[0]| <= |g[0]|
  }

  /** Every set pixel of the pattern, placed at offset (y, x), falls on a set
      pixel of the picture. */
  predicate MatchesAt(g: Grid, p: Grid, y: nat, x: nat)
    requires Fits(g, p) && y + |p| <= |g| && x + |p[0]| <= |g[0]|
  {
    forall py, px :: 0 <= py < |p| && 0 <= px < |p[0]| && p[py][px] ==> g[y + py][x + px]
  }

  /** The offsets (y, x) with x < xs at which the pattern matches. */
  function RowHits(g: Grid, p: Grid, y: nat, xs: nat): nat
    requires Fits(g, p) && y + |p| <= |g| && xs + |p[0]| <= |g[0]| + 1
  {
    if xs == 0 then 0 else RowHits(g, p, y, xs - 1) + (if MatchesAt(g, p, y, xs - 1) then 1 else 0)
  }

  /** The offsets (y, x) with y < ys and x < xs at which the pattern matches. */
  function Hits(g: Grid, p: Grid, ys: nat, xs: nat): nat
    requires Fits(g, p) && ys + |p| <= |g| + 1 && xs + |p[0]| <= |g[0]| + 1
  {
    if ys == 0 then 0 else Hits(g, p, ys - 1, xs) + RowHits(g, p, ys - 1, xs)
  }

  /** The offsets at which the whole pattern lies inside the picture. */
  function Offsets(g: Grid, p: Grid): (nat, nat)
    requires Fits(g, p)
  {
    (|g| - |p| + 1, |g[0]| - |p[0]| + 1)
  }

  /** A pattern with no set pixel matches at every offset. */
  lemma {:induction false} RowHitsBlank(g: Grid, p: Grid, y: nat, xs: nat)
    requires Fits(g, p) && y + |p| <= |g| && xs + |p[0]| <= |g[0]| + 1
    requires forall py, px :: 0 <= py < |p| && 0 <= px < |p[0]| ==> !p[py][px]
    ensures RowHits(g, p, y, xs) == xs
  {
    if xs > 0 {
      RowHitsBlank(g, p, y, xs - 1);
    }
  }

  lemma {:induction false} HitsBlank(g: Grid, p: Grid, ys: nat, xs: nat)
    requires Fits(g, p) && ys + |p| <= |g| + 1 && xs + |p[0]| <= |g[0]| + 1
    requires forall py, px :: 0 <= py < |p| && 0 <= px < |p[0]| ==> !p[py][px]
    ensures Hits(g, p, ys, xs) == ys * xs
  {
    if ys > 0 {
      HitsBlank(g, p, ys - 1, xs);
      RowHitsBlank(g, p, ys - 1, xs);
    }
  }

  /** There are no more hits than offsets. */
  lemma {:induction false} RowHitsBound(g: Grid, p: Grid, y: nat, xs: nat)
    requires Fits(g, p) && y + |p| <= |g| && xs + |p[0]| <= |g[0]| + 1
    ensures RowHits(g, p, y, xs) <= xs
  {
    if xs > 0 {
      RowHitsBound(g, p, y, xs - 1);
    }
  }

  lemma {:induction false} HitsBound(g: Grid, p: Grid, ys: nat, xs: nat)
    requires Fits(g, p) && ys + |p| <= |g| + 1 && xs + |p[0]| <= |g[0]| + 1
    ensures Hits(g, p, ys, xs) <= ys * xs
  {
    if ys > 0 {
      HitsBound(g, p, ys - 1, xs);
      RowHitsBound(g, p, ys - 1, xs);
      assert (ys - 1) * xs + xs == ys * xs;
    }
  }

  /** Counting over more columns of offsets counts no fewer hits. */
  lemma {:induction false} RowHitsMonotone(g: Grid, p: Grid, y: nat, xs: nat, xs': nat)
    requires Fits(g, p) && y + |p| <= |g| && xs <= xs' && xs' + |p[0]| <= |g[0]| + 1
    ensures RowHits(g, p, y, xs) <= RowHits(g, p, y, xs')
    decreases xs'
  {
    if xs < xs' {
      RowHitsMonotone(g, p, y, xs, xs' - 1);
    }
  }

  /** A further row and column of offsets add at least the hits of that row. */
  lemma {:induction false} HitsGrow(g: Grid, p: Grid, ys: nat, xs: nat)
    requires Fits(g, p) && ys + 1 + |p| <= |g| + 1 && xs + 1 + |p[0]| <= |g[0]| + 1
    ensures Hits(g, p, ys + 1, xs + 1) >= Hits(g, p, ys, xs) + RowHits(g, p, ys, xs + 1)
    decreases ys
  {
    if ys > 0 {
      HitsGrow(g, p, ys - 1, xs);
      RowHitsMonotone(g, p, ys - 1, xs, xs + 1);
    }
  }

  /** The inner loop over `x_off` for one `y_off`. */
  method CountRow(g: Grid, p: Grid, y: nat, xs: nat) returns (count: nat)
    requires Fits(g, p) && y + |p| <= |g| && xs + |p[0]| <= |g[0]| + 1
    ensures count == RowHits(g, p, y, xs)
  {
    count := 0;
    for x := 0 to xs
      invariant count == RowHits(g, p, y, x)
    {
      if MatchesAt(g, p, y, x) {
        count := count + 1;
      }
    }
  }

  /** The nested loops of `find_pattern` over the offsets y < ys and x < xs. */
  method CountHits(g: Grid, p: Grid, ys: nat, xs: nat) returns (count: nat)
    requires Fits(g, p) && ys + |p| <= |g| + 1 && xs + |p[0]| <= |g[0]| + 1
    ensures count == Hits(g, p, ys, xs)
  {
    count := 0;
    for y := 0 to ys
      invariant count == Hits(g, p, y, xs)
    {
      var c := CountRow(g, p, y, xs);
      count := count + c;
    }
  }

  /** `find_pattern` as written: the ranges `0..H - h` and `0..W - w`
      leave out the last row and the last column of offsets. */
  method FindPatternAsWritten(g: Grid, p: Grid) returns (count: nat)
    requires Fits(g, p)
    ensures count == Hits(g, p, |g| - |p|, |g[0]| - |p[0]|)
  {
    count := CountHits(g, p, |g| - |p|, |g[0]| - |p[0]|);
  }

  /** As written, a picture that is the pattern itself holds it nowhere,
      though it matches at offset (0, 0). */
  lemma SelfMatchMissed(p: Grid)
    requires Rectangular(p)
    ensures Fits(p, p) && MatchesAt(p, p, 0, 0)
    ensures Hits(p, p, |p| - |p|, |p[0]| - |p[0]|) == 0
  {
  }

  /** `find_pattern` counting every offset at which the pattern fits. */
  method FindPattern(g: Grid, p: Grid) returns (count: nat)
    requires Fits(g, p)
    ensures count == Hits(g, p, Offsets(g, p).0, Offsets(g, p).1)
  {
    count := CountHits(g, p, |g| - |p| + 1, |g[0]| - |p[0]| + 1);
  }

  /** Counting every fitting offset never finds fewer than the loops as
      written: it adds the last row of offsets, and more. */
  lemma FindPatternCorrected(g: Grid, p: Grid)
    requires Fits(g, p)
    ensures Hits(g, p, Offsets(g, p).0, Offsets(g, p).1) >=
      Hits(g, p, |g| - |p|, |g[0]| - |p[0]|) + RowHits(g, p, |g| - |p|, |g[0]| - |p[0]| + 1)
  {
    var ys, xs := |g| - |p|, |g[0]| - |p[0]|;
    HitsGrow(g, p, ys, xs);
    assert Offsets(g, p) == (ys + 1, xs + 1);
  }

  /** Counting every fitting offset finds a pattern once in a picture that
      is the pattern. */
  lemma SelfMatchFound(p: Grid)
    requires Rectangular(p)
    ensures Fits(p, p) && Offsets(p, p) == (1, 1) && Hits(p, p, 1, 1) == 1
  {
    assert MatchesAt(p, p, 0, 0);
    assert RowHits(p, p, 0, 1) == 1;
  }

  // Sea monsters

  /** A row of pixels from its text: `#` is set. */
  function PixelRow(line: string): (r: seq<bool>)
    ensures |r| == |line| && forall i :: 0 <= i < |line| ==> (r[i] <==> line[i] == '#')
  {
    seq(|line|, i requires 0 <= i < |line| => line[i] == '#')
  }

  /** The sea monster, three rows of twenty pixels. */
  function SeaMonster(): (m: Grid)
    ensures Rectangular(m) && |m| == 3 && |m[0]| == 20
  {
    [PixelRow("                  # "),
     PixelRow("#    ##    ##    ###"),
     PixelRow(" #  #  #  #  #  #   ")]
  }

  /** The picture turned `k` times, then flipped if asked. */
  function Arrangement(g: Grid, k: nat, flip: bool): (r: Grid)
    requires Square(g)
    ensures Square(r) && |r| == |g|
  {
    var t := Turned(g, k);
    assert Square(t) by {
      if k == 0 {
        assert t == g;
      }
    }
    if flip then Flipped(t) else t
  }

  /** The sea monsters found in a picture; none where it is too small to
      hold one. */
  function Monsters(g: Grid): nat
  {
    var m := SeaMonster();
    if Fits(g, m) then Hits(g, m, Offsets(g, m).0, Offsets(g, m).1) else 0
  }

  /** The sea monsters `find_pattern` finds as written, leaving out the last
      row and column of offsets. */
  function MonstersAsWritten(g: Grid): nat
  {
    var m := SeaMonster();
    if Fits(g, m) then Hits(g, m, |g| - |m|, |g[0]| - |m[0]|) else 0
  }

  /** The sea monster count of the corrected search, or of the search as
      written. */
  function Finder(asWritten: bool): Grid -> nat
  {
    if asWritten then MonstersAsWritten else Monsters
  }

  /** The search as written never finds more sea monsters. */
  lemma MonstersAsWrittenFewer(g: Grid)
    ensures MonstersAsWritten(g) <= Monsters(g)
  {
    if Fits(g, SeaMonster()) {
      FindPatternCorrected(g, SeaMonster());
    }
  }

  /** The sea monsters `count` finds in each of the eight arrangements, in
      the order `part_2` visits them: each turn unflipped, then flipped. */
  function Tally(g: Grid, count: Grid -> nat): (r: seq<nat>)
    requires Square(g)
    ensures |r| == 8
  {
    seq(8, i requires 0 <= i < 8 => count(Arrangement(g, i / 2, i % 2 == 1)))
  }

  /** The largest of the counts, or 0 for none. */
  function Most(counts: seq<nat>): (m: nat)
    ensures forall i :: 0 <= i < |counts| ==> counts[i] <= m
    ensures counts != [] ==> m in counts
    ensures counts == [] ==> m == 0
  {
    if counts == [] then 0
    else
      var rest := Most(counts[..|counts| - 1]);
      var last := counts[|counts| - 1];
      if last > rest then last else rest
  }

  /** The most of one more count. */
  lemma MostSnoc(counts: seq<nat>, k: nat)
    requires k < |counts|
    ensures Most(counts[..k + 1]) == Larger(Most(counts[..k]), counts[k])
  {
    assert counts[..k + 1][..k] == counts[..k];
  }

  function Larger(a: nat, b: nat): (m: nat)
    ensures m >= a && m >= b && (m == a || m == b)
  {
    if b > a then b else a
  }

  /** Searching turn `t` unflipped and flipped takes the most two counts on. */
  lemma MostTurn(g: Grid, t: nat, count: Grid -> nat)
    requires Square(g) && t < 4
    ensures Most(Tally(g, count)[..2 * t + 2]) ==
      Larger(Larger(Most(Tally(g, count)[..2 * t]), count(Turned(g, t))), count(Flipped(Turned(g, t))))
  {
    TallyTurn(g, t, count);
    MostSnoc(Tally(g, count), 2 * t);
    MostSnoc(Tally(g, count), 2 * t + 1);
  }

  /** Turn `t` is counted unflipped at index `2 t` and flipped just after. */
  lemma TallyTurn(g: Grid, t: nat, count: Grid -> nat)
    requires Square(g) && t < 4
    ensures Tally(g, count)[2 * t] == count(Turned(g, t))
    ensures Tally(g, count)[2 * t + 1] == count(Flipped(Turned(g, t)))
  {
    assert (2 * t) / 2 == t && (2 * t) % 2 == 0;
    assert (2 * t + 1) / 2 == t && (2 * t + 1) % 2 == 1;
  }

  /** Four turns give back the picture. */
  lemma TurnFour(g: Grid)
    requires Square(g)
    ensures Turned(g, 4) == g
  {
    RotateFour(g);
    assert Turned(g, 1) == Rotated(g);
    assert Turned(g, 2) == Rotated(Turned(g, 1));
    assert Turned(g, 3) == Rotated(Turned(g, 2));
    assert Turned(g, 4) == Rotated(Turned(g, 3));
  }

  /** After the four turns the picture is back, and every arrangement has
      been searched. */
  lemma SearchDone(picture: Grid, pic: Grid, most: nat, count: Grid -> nat)
    requires Square(picture)
    requires pic == Turned(picture, 4) && most == Most(Tally(picture, count)[..8])
    ensures pic == picture && most == Most(Tally(picture, count))
  {
    TurnFour(picture);
    assert Tally(picture, count)[..8] == Tally(picture, count);
  }

  /** The inner loop of `part_2`: the sea monsters in the picture and in its
      flip, which a second flip undoes; `find_pattern` corrected, or as
      written. */
  method SearchFlips(pic: Grid, most: nat, asWritten: bool) returns (pic': Grid, most': nat)
    requires Square(pic) && |pic| >= 20
    ensures pic' == pic
    ensures most' == Larger(Larger(most, Finder(asWritten)(pic)), Finder(asWritten)(Flipped(pic)))
  {
    var monster := SeaMonster();
    ghost var count := Finder(asWritten);
    pic', most' := pic, most;
    for f := 0 to 2
      invariant f != 1 ==> pic' == pic
      invariant f == 1 ==> pic' == Flipped(pic)
      invariant most' == if f == 0 then most
                         else if f == 1 then Larger(most, count(pic))
                         else Larger(Larger(most, count(pic)), count(Flipped(pic)))
    {
      var c;
      if asWritten {
        c := FindPatternAsWritten(pic', monster);
        assert c == MonstersAsWritten(pic');
      } else {
        c := FindPattern(pic', monster);
        assert c == Monsters(pic');
      }
      most' := Larger(most', c);
      pic' := Flipped(pic');
      if f == 1 {
        FlipTwice(pic);
      }
    }
  }

  /** The loops of `part_2` from the assembled picture: its set pixels less
      those of the most sea monsters found in any of its eight arrangements.
      The picture comes back to itself after four turns of two flips each. */
  method Search(picture: Grid, asWritten: bool) returns (r: int)
    requires Square(picture) && |picture| >= 20
    ensures r == Count(picture) - Most(Tally(picture, Finder(asWritten))) * Count(SeaMonster())
  {
    ghost var count := Finder(asWritten);
    var pic := picture;
    var most: nat := 0;
    for t := 0 to 4
      invariant pic == Turned(picture, t)
      invariant most == Most(Tally(picture, count)[..2 * t])
    {
      MostTurn(picture, t, count);
      pic, most := SearchFlips(pic, most, asWritten);
      pic := Rotate(pic);
    }
    SearchDone(picture, pic, most, count);
    r := Count(pic) - most * Count(SeaMonster());
  }

  /** `part_2` with `find_pattern` counting every offset where the monster
      fits. */
  method Roughness(picture: Grid) returns (r: int)
    requires Square(picture) && |picture| >= 20
    ensures r == Count(picture) - Most(Tally(picture, Monsters)) * Count(SeaMonster())
  {
    r := Search(picture, false);
  }

  /** `part_2` as written, on the narrower `find_pattern`: it subtracts no
      more than the corrected search does. */
  method RoughnessAsWritten(picture: Grid) returns (r: int)
    requires Square(picture) && |picture| >= 20
    ensures r == Count(picture) - Most(Tally(picture, MonstersAsWritten)) * Count(SeaMonster())
    ensures r >= Count(picture) - Most(Tally(picture, Monsters)) * Count(SeaMonster())
  {
    r := Search(picture, true);
    TallyFewer(picture);
    SubtractFewer(Count(picture), Most(Tally(picture, MonstersAsWritten)), Most(Tally(picture, Monsters)),
                  Count(SeaMonster()));
  }

  lemma SubtractFewer(x: int, a: nat, b: nat, c: nat)
    requires a <= b
    ensures x - a * c >= x - b * c
  {
  }

  /** The search as written finds no more sea monsters in any arrangement. */
  lemma TallyFewer(g: Grid)
    requires Square(g)
    ensures Most(Tally(g, MonstersAsWritten)) <= Most(Tally(g, Monsters))
  {
    var a, b := Tally(g, MonstersAsWritten), Tally(g, Monsters);
    forall i | 0 <= i < 8 ensures a[i] <= b[i] {
      MonstersAsWrittenFewer(Arrangement(g, i / 2, i % 2 == 1));
    }
    MostBelow(a, b);
  }

  /** Counts each no larger have no larger most. */
  lemma {:induction false} MostBelow(a: seq<nat>, b: seq<nat>)
    requires |a| == |b| && forall i :: 0 <= i < |a| ==> a[i] <= b[i]
    ensures Most(a) <= Most(b)
  {
    if a != [] {
      var n := |a| - 1;
      MostBelow(a[..n], b[..n]);
    }
  }
}
