/** Day 24: hexagonal tiles, addressed in cube coordinates (x + y + z == 0).
    Each input line is a walk from the reference tile; the tile it ends on is
    flipped. Then each day a black tile with zero or more than two black
    neighbours turns white, and a white tile with exactly two turns black. */
module Day24 {
  import opened Text
  import opened Folds

  datatype Dir = East | SouthEast | SouthWest | West | NorthWest | NorthEast

  /** The six directions in the order `step` visits them. */
  const AllDirs: seq<Dir> := [East, SouthEast, SouthWest, West, NorthWest, NorthEast]

  /** How a direction is written in the input. */
  function ShowDir(d: Dir): (s: string)
    ensures 1 <= |s| <= 2 && (s[0] in "ew" <==> |s| == 1)
    ensures |s| == 2 ==> s[0] in "sn" && s[1] in "ew"
  {
    match d
    case East => "e"
    case SouthEast => "se"
    case SouthWest => "sw"
    case West => "w"
    case NorthWest => "nw"
    case NorthEast => "ne"
  }

  function Prepend(d: Dir, r: Option<seq<Dir>>): Option<seq<Dir>>
  {
    match r
    case None => None
    case Some(ds) => Some([d] + ds)
  }

  /** One line of `parse`: 'e' and 'w' alone, 's' or 'n' followed by 'e' or
      'w'; anything else is one of the source's panics, here `None`. */
  function ParseLine(line: string): (r: Option<seq<Dir>>)
    decreases |line|
  {
    if line == [] then Some([])
    else if line[0] == 'e' then Prepend(East, ParseLine(line[1..]))
    else if line[0] == 'w' then Prepend(West, ParseLine(line[1..]))
    else if line[0] == 's' && |line| >= 2 && line[1] == 'e' then Prepend(SouthEast, ParseLine(line[2..]))
    else if line[0] == 's' && |line| >= 2 && line[1] == 'w' then Prepend(SouthWest, ParseLine(line[2..]))
    else if line[0] == 'n' && |line| >= 2 && line[1] == 'e' then Prepend(NorthEast, ParseLine(line[2..]))
    else if line[0] == 'n' && |line| >= 2 && line[1] == 'w' then Prepend(NorthWest, ParseLine(line[2..]))
    else None
  }

  function ShowLine(dirs: seq<Dir>): (s: string)
    ensures forall i :: 0 <= i < |s| ==> s[i] in "nsew"
    ensures |s| >= |dirs|
  {
    if dirs == [] then [] else ShowDir(dirs[0]) + ShowLine(dirs[1..])
  }

  /** Parsing a written direction and then the rest. */
  lemma ParseCons(d: Dir, rest: string)
    ensures ParseLine(ShowDir(d) + rest) == Prepend(d, ParseLine(rest))
  {
    var s := ShowDir(d) + rest;
    assert s[|ShowDir(d)|..] == rest;
    match d
    case East => assert s[0] == 'e';
    case West => assert s[0] == 'w';
    case SouthEast => assert s[0] == 's' && s[1] == 'e';
    case SouthWest => assert s[0] == 's' && s[1] == 'w';
    case NorthEast => assert s[0] == 'n' && s[1] == 'e';
    case NorthWest => assert s[0] == 'n' && s[1] == 'w';
  }

  /** A written walk reads back. */
  lemma {:induction false} ParseShowLine(dirs: seq<Dir>)
    ensures ParseLine(ShowLine(dirs)) == Some(dirs)
  {
    if dirs != [] {
      assert ShowLine(dirs) == ShowDir(dirs[0]) + ShowLine(dirs[1..]);
      ParseCons(dirs[0], ShowLine(dirs[1..]));
      ParseShowLine(dirs[1..]);
      assert dirs == [dirs[0]] + dirs[1..];
    }
  }

  /** A line that parses is exactly the rendering of what it parses to. */
  lemma {:induction false} ShowParseLine(line: string)
    requires ParseLine(line).Some?
    ensures ShowLine(ParseLine(line).value) == line
    decreases |line|
  {
    if line != [] {
      var k := if line[0] == 'e' || line[0] == 'w' then 1 else 2;
      var ds := ParseLine(line[k..]).value;
      ShowParseLine(line[k..]);
      var d := ParseLine(line).value[0];
      assert ParseLine(line).value == [d] + ds;
      assert ShowDir(d) == line[..k];
      assert line == line[..k] + line[k..];
    }
  }

  /** `parse`: one walk per line. */
  function Parse(input: string): Option<seq<seq<Dir>>>
  {
    ParseEach(Lines(input), ParseLine)
  }

  function Show(input: seq<seq<Dir>>): string
    requires |input| > 0
  {
    Join(seq(|input|, i requires 0 <= i < |input| => ShowLine(input[i])), '\n')
  }

  /** Written walks read back when the last one is not empty. */
  lemma ParseShow(input: seq<seq<Dir>>)
    requires |input| > 0 && input[|input| - 1] != []
    ensures Parse(Show(input)) == Some(input)
  {
    var lines := seq(|input|, i requires 0 <= i < |input| => ShowLine(input[i]));
    forall i | 0 <= i < |lines| ensures '\n' !in lines[i] {
      assert forall j :: 0 <= j < |lines[i]| ==> lines[i][j] in "nsew";
    }
    LinesJoin(lines);
    forall i | 0 <= i < |lines| ensures ParseLine(lines[i]) == Some(input[i]) {
      ParseShowLine(input[i]);
    }
    ParseEachAll(lines, ParseLine, input);
  }

  datatype TileIndex = TileIndex(x: int, y: int, z: int)

  const Origin: TileIndex := TileIndex(0, 0, 0)

  /** `TileIndex::move_dir`: each step changes two coordinates by one in
      opposite senses, so the coordinate sum is unchanged. */
  function Move(t: TileIndex, d: Dir): (r: TileIndex)
    ensures r.x + r.y + r.z == t.x + t.y + t.z
    ensures r != t
  {
    match d
    case East => TileIndex(t.x + 1, t.y - 1, t.z)
    case West => TileIndex(t.x - 1, t.y + 1, t.z)
    case NorthEast => TileIndex(t.x + 1, t.y, t.z - 1)
    case SouthWest => TileIndex(t.x - 1, t.y, t.z + 1)
    case NorthWest => TileIndex(t.x, t.y + 1, t.z - 1)
    case SouthEast => TileIndex(t.x, t.y - 1, t.z + 1)
  }

  /** The opposite direction: moving there undoes a move. */
  function Opposite(d: Dir): (o: Dir)
    ensures o != d
    ensures forall t :: Move(Move(t, d), o) == t
  {
    match d
    case East => West
    case West => East
    case NorthEast => SouthWest
    case SouthWest => NorthEast
    case NorthWest => SouthEast
    case SouthEast => NorthWest
  }

  /** The tile a walk from the reference tile ends on. */
  function Walk(dirs: seq<Dir>): (t: TileIndex)
    ensures t.x + t.y + t.z == 0
  {
    if dirs == [] then Origin else Move(Walk(dirs[..|dirs| - 1]), dirs[|dirs| - 1])
  }

  /** A step and its opposite cancel anywhere in a walk. */
  lemma WalkCancel(dirs: seq<Dir>, d: Dir)
    ensures Walk(dirs + [d, Opposite(d)]) == Walk(dirs)
  {
    var s := dirs + [d, Opposite(d)];
    assert s[..|s| - 1] == dirs + [d];
    assert (dirs + [d])[..|dirs|] == dirs;
  }

  /** The inner loop of `from_dirs`: follow one walk. */
  method Locate(instr: seq<Dir>) returns (idx: TileIndex)
    ensures idx == Walk(instr)
  {
    idx := Origin;
    for j := 0 to |instr|
      invariant idx == Walk(instr[..j])
    {
      assert instr[..j + 1][..j] == instr[..j];
      idx := Move(idx, instr[j]);
    }
    assert instr[..|instr|] == instr;
  }

  /** Flip one tile: remove it if black, insert it otherwise. */
  function Toggle(black: set<TileIndex>, t: TileIndex): (r: set<TileIndex>)
    ensures t in r <==> t !in black
    ensures forall u :: u != t ==> (u in r <==> u in black)
  {
    if t in black then black - {t} else black + {t}
  }

  /** The black tiles after flipping the tiles `ends` in turn. */
  function Toggled(ends: seq<TileIndex>): set<TileIndex>
  {
    if ends == [] then {} else Toggle(Toggled(ends[..|ends| - 1]), ends[|ends| - 1])
  }

  /** A tile is black iff it was flipped an odd number of times. */
  lemma {:induction false} ToggledParity(ends: seq<TileIndex>, t: TileIndex)
    ensures t in Toggled(ends) <==> multiset(ends)[t] % 2 == 1
  {
    if ends != [] {
      var init := ends[..|ends| - 1];
      ToggledParity(init, t);
      assert ends == init + [ends[|ends| - 1]];
    }
  }

  /** The tile each line ends on. */
  function Ends(input: seq<seq<Dir>>): seq<TileIndex>
  {
    seq(|input|, i requires 0 <= i < |input| => Walk(input[i]))
  }

  /** The black tiles `from_dirs` leaves. */
  function Flipped(input: seq<seq<Dir>>): set<TileIndex>
  {
    Toggled(Ends(input))
  }

  /** The six neighbours of a tile, in `step`'s order; all distinct. */
  function Neighbours(t: TileIndex): (ns: seq<TileIndex>)
    ensures |ns| == 6 && forall i, j :: 0 <= i < j < 6 ==> ns[i] != ns[j]
    ensures forall i :: 0 <= i < 6 ==> ns[i] == Move(t, AllDirs[i])
  {
    [Move(t, East), Move(t, SouthEast), Move(t, SouthWest), Move(t, West), Move(t, NorthWest), Move(t, NorthEast)]
  }

  /** The neighbour in direction `i` has `t` in the opposite direction. */
  lemma NeighbourBack(t: TileIndex, i: nat)
    requires i < 6
    ensures Move(Neighbours(t)[i], AllDirs[(i + 3) % 6]) == t
  {
  }

  /** Neighbourhood is symmetric. */
  lemma NeighbourSymmetric(a: TileIndex, b: TileIndex)
    ensures b in Neighbours(a) <==> a in Neighbours(b)
  {
  }

  /** Number of black neighbours of `t`. */
  function NeighbourCount(black: set<TileIndex>, t: TileIndex): (n: nat)
    ensures n <= 6
  {
    var ns := Neighbours(t);
    (if ns[0] in black then 1 else 0) + (if ns[1] in black then 1 else 0) +
    (if ns[2] in black then 1 else 0) + (if ns[3] in black then 1 else 0) +
    (if ns[4] in black then 1 else 0) + (if ns[5] in black then 1 else 0)
  }

  /** Adding one tile that was not black adds one to the count of each of its neighbours. */
  lemma NeighbourCountAdd(black: set<TileIndex>, x: TileIndex, t: TileIndex)
    requires x !in black
    ensures NeighbourCount(black + {x}, t) == NeighbourCount(black, t) + (if x in Neighbours(t) then 1 else 0)
  {
  }

  /** The line of the source's filter: black next iff two black neighbours,
      or black now with one. */
  predicate Survives(black: set<TileIndex>, t: TileIndex)
  {
    NeighbourCount(black, t) == 2 || (t in black && NeighbourCount(black, t) == 1)
  }

  /** Black tiles and their neighbours: the keys of `step`'s map. */
  function Candidates(black: set<TileIndex>): set<TileIndex>
  {
    black + set b, i | b in black && 0 <= i < 6 :: Move(b, AllDirs[i])
  }

  /** The black tiles one day later. */
  function Next(black: set<TileIndex>): set<TileIndex>
  {
    set t | t in Candidates(black) && Survives(black, t)
  }

  /** The day's rule holds of every tile, not only of the examined ones: no
      tile far from every black tile turns black. */
  lemma NextRule(black: set<TileIndex>, t: TileIndex)
    ensures t in Next(black) <==> Survives(black, t)
    ensures t in Next(black) ==> t in black || NeighbourCount(black, t) > 0
  {
    if Survives(black, t) && t !in black {
      var ns := Neighbours(t);
      var i :| 0 <= i < 6 && ns[i] in black;
      NeighbourBack(t, i);
    }
  }

  /** The days of `run_steps`. */
  function Iterate(black: set<TileIndex>, n: nat): set<TileIndex>
  {
    if n == 0 then black else Next(Iterate(black, n - 1))
  }

  /** How many of the tiles `done` have `t` among their neighbours. */
  function CountAdjacent(done: seq<TileIndex>, t: TileIndex): (n: nat)
    ensures n <= |done|
  {
    if done == [] then 0
    else CountAdjacent(done[..|done| - 1], t) + (if t in Neighbours(done[|done| - 1]) then 1 else 0)
  }

  /** Over distinct tiles, the adjacency count is the neighbour count of their set. */
  lemma {:induction false} CountAdjacentDistinct(done: seq<TileIndex>, s: set<TileIndex>, t: TileIndex)
    requires forall i, j :: 0 <= i < j < |done| ==> done[i] != done[j]
    requires forall x :: x in done <==> x in s
    ensures CountAdjacent(done, t) == NeighbourCount(s, t)
  {
    if done == [] {
      assert s == {};
    } else {
      var x := done[|done| - 1];
      var init := done[..|done| - 1];
      assert x !in init by {
        forall k | 0 <= k < |init| ensures init[k] != x {
          assert done[k] == init[k];
        }
      }
      CountAdjacentDistinct(init, s - {x}, t);
      assert s == (s - {x}) + {x};
      NeighbourCountAdd(s - {x}, x, t);
      NeighbourSymmetric(t, x);
    }
  }

  /** `step`'s map after the tiles `done`: their own entries flagged black,
      and every entry counting the tiles of `done` next to it. */
  ghost predicate Tally(entries: map<TileIndex, (bool, nat)>, done: seq<TileIndex>)
  {
    (forall t :: t in entries <==> t in done || CountAdjacent(done, t) > 0) &&
    (forall t :: t in entries ==> entries[t] == (t in done, CountAdjacent(done, t)))
  }

  /** `step`'s map part-way through the tile `idx`: its own entry flagged
      black and the neighbours `seen` bumped. */
  ghost predicate Partial(r: map<TileIndex, (bool, nat)>, done: seq<TileIndex>, idx: TileIndex, seen: seq<TileIndex>)
  {
    (forall t :: t in r <==> t in done || t == idx || CountAdjacent(done, t) > 0 || t in seen) &&
    (forall t :: t in r ==> r[t] == (t in done || t == idx, CountAdjacent(done, t) + if t in seen then 1 else 0))
  }

  /** `entry(idx).or_insert((false, 0)).1 += 1` for one neighbour. */
  method Bump(r: map<TileIndex, (bool, nat)>, ghost done: seq<TileIndex>, ghost idx: TileIndex,
              ghost seen: seq<TileIndex>, n: TileIndex)
    returns (r': map<TileIndex, (bool, nat)>)
    requires Partial(r, done, idx, seen) && n !in seen
    ensures Partial(r', done, idx, seen + [n])
  {
    var e := if n in r then r[n] else (false, 0);
    r' := r[n := (e.0, e.1 + 1)];
  }

  /** `entry(idx).or_insert((false, 0)).0 = true` for the black tile itself. */
  method Flag(entries: map<TileIndex, (bool, nat)>, ghost done: seq<TileIndex>, idx: TileIndex)
    returns (r: map<TileIndex, (bool, nat)>)
    requires Tally(entries, done)
    ensures Partial(r, done, idx, [])
  {
    var e := if idx in entries then entries[idx] else (false, 0);
    r := entries[idx := (true, e.1)];
  }

  /** One black tile of `step`'s loop: flag its own entry, then bump the
      entry of each of its six neighbours, creating entries as needed. */
  method AddTile(entries: map<TileIndex, (bool, nat)>, ghost done: seq<TileIndex>, idx: TileIndex)
    returns (r: map<TileIndex, (bool, nat)>)
    requires Tally(entries, done)
    ensures Tally(r, done + [idx])
  {
    r := Flag(entries, done, idx);
    var ns := Neighbours(idx);
    assert ns[..0] == [];
    for j := 0 to 6
      invariant Partial(r, done, idx, ns[..j])
    {
      var n := Move(idx, AllDirs[j]);
      assert n == ns[j] && n !in ns[..j];
      r := Bump(r, done, idx, ns[..j], n);
      assert ns[..j + 1] == ns[..j] + [n];
    }
    assert ns[..6] == ns;
    PartialDone(r, done, idx);
  }

  /** Once all six neighbours are bumped, the map tallies `done + [idx]`. */
  lemma PartialDone(r: map<TileIndex, (bool, nat)>, done: seq<TileIndex>, idx: TileIndex)
    requires Partial(r, done, idx, Neighbours(idx))
    ensures Tally(r, done + [idx])
  {
    var d := done + [idx];
    assert d[..|d| - 1] == done;
    forall t ensures CountAdjacent(d, t) == CountAdjacent(done, t) + if t in Neighbours(idx) then 1 else 0 {
    }
  }

  /** The floor: its black tiles. */
  class Grid {
    var black: set<TileIndex>

    constructor (tiles: set<TileIndex>)
      ensures black == tiles
    {
      black := tiles;
    }

    /** `from_dirs`: flip the end tile of every walk in turn. A tile ends
        black iff an odd number of walks end on it. */
    constructor FromDirs(input: seq<seq<Dir>>)
      ensures black == Flipped(input)
      ensures forall t :: t in black <==> multiset(Ends(input))[t] % 2 == 1
    {
      var tiles: set<TileIndex> := {};
      for i := 0 to |input|
        invariant tiles == Toggled(Ends(input)[..i])
      {
        var idx := Locate(input[i]);
        assert Ends(input)[..i + 1][..i] == Ends(input)[..i];
        if idx in tiles {
          tiles := tiles - {idx};
        } else {
          tiles := tiles + {idx};
        }
      }
      assert Ends(input)[..|input|] == Ends(input);
      forall t ensures t in tiles <==> multiset(Ends(input))[t] % 2 == 1 {
        ToggledParity(Ends(input), t);
      }
      black := tiles;
    }

    /** `step`: tally the black neighbours of every black tile and its
        neighbours in a map, then keep the entries the day's rule makes black. */
    method Step() returns (next: Grid)
      ensures fresh(next) && next.black == Next(black)
    {
      var q := Elements(black);
      var entries: map<TileIndex, (bool, nat)> := map[];
      for i := 0 to |q|
        invariant Tally(entries, q[..i])
      {
        entries := AddTile(entries, q[..i], q[i]);
        assert q[..i + 1] == q[..i] + [q[i]];
      }
      assert q[..|q|] == q;
      var tiles := set t | t in entries && (entries[t].1 == 2 || (entries[t].0 && entries[t].1 == 1));
      forall t ensures t in tiles <==> t in Next(black) {
        CountAdjacentDistinct(q, black, t);
        NextRule(black, t);
      }
      next := new Grid(tiles);
    }

    /** `run_steps`: replace the grid by its next day `n` times. */
    method RunSteps(n: nat)
      modifies this
      ensures black == Iterate(old(black), n)
    {
      for k := 0 to n
        invariant black == Iterate(old(black), k)
      {
        var g := Step();
        black := g.black;
      }
    }
  }

  /** `part_1`: the number of black tiles after the flips. */
  method Part1(input: seq<seq<Dir>>) returns (n: nat)
    ensures n == |Flipped(input)|
  {
    var grid := new Grid.FromDirs(input);
    n := |grid.black|;
  }

  /** `part_2`: the number of black tiles after a hundred days. */
  method Part2(input: seq<seq<Dir>>) returns (n: nat)
    ensures n == |Iterate(Flipped(input), 100)|
  {
    var grid := new Grid.FromDirs(input);
    grid.RunSteps(100);
    n := |grid.black|;
  }
}
