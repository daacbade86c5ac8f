/** Day 3: counting the trees met on a toboggan slope through a forest that
    repeats to the right. */
module Day03 {
  import opened Seqs

  type Forest = seq<seq<bool>>

  /** One line of the map: '#' is a tree, every other byte open ground. */
  function ParseRow(line: string): (row: seq<bool>)
    ensures |row| == |line|
  {
    if line == [] then [] else [line[0] == '#'] + ParseRow(line[1..])
  }

  function Parse(lines: seq<string>): (forest: Forest)
    ensures |forest| == |lines|
    ensures forall i :: 0 <= i < |lines| ==> forest[i] == ParseRow(lines[i])
  {
    if lines == [] then [] else [ParseRow(lines[0])] + Parse(lines[1..])
  }

  /** The map line a row of trees is drawn as. */
  function ShowRow(row: seq<bool>): (line: string)
    ensures |line| == |row|
  {
    if row == [] then [] else [if row[0] then '#' else '.'] + ShowRow(row[1..])
  }

  lemma {:induction false} ParseShowRow(row: seq<bool>)
    ensures ParseRow(ShowRow(row)) == row
  {
    if row != [] {
      assert ShowRow(row)[1..] == ShowRow(row[1..]);
      ParseShowRow(row[1..]);
    }
  }

  /** Every byte is read, '#' exactly as a tree. */
  lemma {:induction false} ParseRowCells(line: string)
    ensures forall i :: 0 <= i < |line| ==> (ParseRow(line)[i] <==> line[i] == '#')
  {
    if line != [] {
      ParseRowCells(line[1..]);
      assert forall i :: 1 <= i < |line| ==> ParseRow(line)[i] == ParseRow(line[1..])[i - 1];
    }
  }

  /** `step_by(dy)`: the first row, then every `dy`-th one. */
  function StepBy(rows: Forest, dy: nat): (r: Forest)
    requires dy >= 1
    ensures |r| <= |rows|
    ensures |rows| > 0 ==> |r| > 0 && r[0] == rows[0]
  {
    if rows == [] then []
    else if |rows| <= dy then [rows[0]]
    else [rows[0]] + StepBy(rows[dy..], dy)
  }

  /** `step_by` visits row k·dy for every k with k·dy inside the forest, that
      is ⌈rows / dy⌉ rows. */
  lemma {:induction false} StepByLength(rows: Forest, dy: nat, k: nat)
    requires dy >= 1
    ensures k < |StepBy(rows, dy)| <==> k * dy < |rows|
    decreases k
  {
    if k > 0 && |rows| > dy {
      StepByLength(rows[dy..], dy, k - 1);
      assert (k - 1) * dy + dy == k * dy;
    } else if k > 0 {
      assert k * dy >= dy by {
        assert k * dy == (k - 1) * dy + dy;
      }
    }
  }

  /** The `k`-th row `step_by` visits is row k·dy. */
  lemma {:induction false} StepByAt(rows: Forest, dy: nat, k: nat)
    requires dy >= 1 && k < |StepBy(rows, dy)|
    ensures k * dy < |rows| && StepBy(rows, dy)[k] == rows[k * dy]
    decreases k
  {
    if k > 0 {
      StepByAt(rows[dy..], dy, k - 1);
      assert (k - 1) * dy + dy == k * dy;
    }
  }

  /** Whether the `k`-th visited row has a tree where the slope crosses it. */
  function Hits(rows: Forest, dx: nat, k: nat): (h: seq<bool>)
    requires k <= |rows|
    requires forall i :: 0 <= i < |rows| ==> |rows[i]| > 0
    decreases |rows| - k
    ensures |h| == |rows| - k
    ensures forall i :: k <= i < |rows| ==> h[i - k] == rows[i][(i * dx) % |rows[i]|]
  {
    if k == |rows| then [] else [rows[k][(k * dx) % |rows[k]|]] + Hits(rows, dx, k + 1)
  }

  /** The rows `step_by(dy)` visits must not be empty: the source takes the
      column modulo the row's length. */
  predicate VisitedRowsNonEmpty(forest: Forest, dy: nat)
    requires dy >= 1
  {
    forall row :: row in StepBy(forest, dy) ==> |row| > 0
  }

  /** `trees_in_slope`. */
  function TreesInSlope(forest: Forest, dx: nat, dy: nat): nat
    requires dy >= 1 && VisitedRowsNonEmpty(forest, dy)
  {
    var visited := StepBy(forest, dy);
    CountTrue(Hits(visited, dx, 0))
  }

  /** `trees_in_slope` counts the visited rows (row k·dy is the `k`-th, by
      `StepByAt`; there are ⌈rows / dy⌉ of them, by `StepByLength`) whose `k`-th
      member has a tree at column k·dx modulo its width, so at most one per
      visited row. */
  lemma TreesInSlopeCounts(forest: Forest, dx: nat, dy: nat)
    requires dy >= 1 && VisitedRowsNonEmpty(forest, dy)
    ensures var visited := StepBy(forest, dy);
      TreesInSlope(forest, dx, dy) == |set k | 0 <= k < |visited| && visited[k][(k * dx) % |visited[k]|]|
      && TreesInSlope(forest, dx, dy) <= |visited|
  {
    var visited := StepBy(forest, dy);
    var h := Hits(visited, dx, 0);
    CountTrueIndices(h);
    assert (set k | 0 <= k < |h| && h[k]) ==
      (set k | 0 <= k < |visited| && visited[k][(k * dx) % |visited[k]|]);
  }

  function Part1(forest: Forest): nat
    requires VisitedRowsNonEmpty(forest, 1)
  {
    TreesInSlope(forest, 3, 1)
  }

  function Part2(forest: Forest): int
    requires VisitedRowsNonEmpty(forest, 1) && VisitedRowsNonEmpty(forest, 2)
  {
    TreesInSlope(forest, 1, 1) * TreesInSlope(forest, 3, 1) * TreesInSlope(forest, 5, 1)
      * TreesInSlope(forest, 7, 1) * TreesInSlope(forest, 1, 2)
  }

  /** The trees the slope right `dx`, down `dy` meets: the `k`-th visited
      row (row k·dy) counts when its column k·dx, wrapping, holds a tree. */
  ghost function SlopeTrees(forest: Forest, dx: nat, dy: nat): nat
    requires dy >= 1 && VisitedRowsNonEmpty(forest, dy)
  {
    var visited := StepBy(forest, dy);
    |set k | 0 <= k < |visited| && visited[k][(k * dx) % |visited[k]|]|
  }

  /** Part 1 counts the trees of the slope right 3, down 1; part 2 multiplies
      those of the slopes (1, 1), (3, 1), (5, 1), (7, 1) and (1, 2). */
  lemma PartsCountSlopes(forest: Forest)
    requires VisitedRowsNonEmpty(forest, 1) && VisitedRowsNonEmpty(forest, 2)
    ensures Part1(forest) == SlopeTrees(forest, 3, 1)
    ensures Part2(forest) == SlopeTrees(forest, 1, 1) * SlopeTrees(forest, 3, 1) * SlopeTrees(forest, 5, 1)
      * SlopeTrees(forest, 7, 1) * SlopeTrees(forest, 1, 2)
  {
    TreesInSlopeCounts(forest, 1, 1);
    TreesInSlopeCounts(forest, 3, 1);
    TreesInSlopeCounts(forest, 5, 1);
    TreesInSlopeCounts(forest, 7, 1);
    TreesInSlopeCounts(forest, 1, 2);
  }

  /** Part 2 is the product of the five slopes, the first part's slope among
      them, so it vanishes whenever the part-1 slope meets no tree; a forest
      without trees gives 0 on every slope. */
  lemma Part2HasPart1Factor(forest: Forest)
    requires VisitedRowsNonEmpty(forest, 1) && VisitedRowsNonEmpty(forest, 2)
    ensures Part1(forest) == 0 ==> Part2(forest) == 0
    ensures (forall i, j :: 0 <= i < |forest| && 0 <= j < |forest[i]| ==> !forest[i][j]) ==> Part2(forest) == 0
  {
    if forall i, j :: 0 <= i < |forest| && 0 <= j < |forest[i]| ==> !forest[i][j] {
      NoTreesNoHits(forest, 1);
    }
    var a := TreesInSlope(forest, 1, 1);
    var b := TreesInSlope(forest, 3, 1);
    if a == 0 || b == 0 {
      ProductZero(a, b, TreesInSlope(forest, 5, 1), TreesInSlope(forest, 7, 1), TreesInSlope(forest, 1, 2));
    }
  }

  lemma ProductZero(a: nat, b: nat, c: nat, d: nat, e: nat)
    requires a == 0 || b == 0
    ensures a * b * c * d * e == 0
  {
  }

  /** Without trees the slope right `dx`, down one meets none. */
  lemma NoTreesNoHits(forest: Forest, dx: nat)
    requires VisitedRowsNonEmpty(forest, 1)
    requires forall i, j :: 0 <= i < |forest| && 0 <= j < |forest[i]| ==> !forest[i][j]
    ensures TreesInSlope(forest, dx, 1) == 0
  {
    var visited := StepBy(forest, 1);
    var h := Hits(visited, dx, 0);
    forall k | 0 <= k < |h| ensures !h[k] {
      StepByAt(forest, 1, k);
    }
  }
}
