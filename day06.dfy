/** Day 6: customs answers. Each line is one person's answers, a group is a
    run of lines between empty lines; part 1 sums the sizes of the groups'
    unions, part 2 those of their intersections. */
module Day06 {
  import opened Text

  /** `BTreeSet<char>`: the questions one person answered. */
  type Answers = set<char>

  type Group = seq<Answers>

  /** `line.chars().collect()` */
  function AnswersOf(line: string): (a: Answers)
    ensures forall c :: c in a <==> c in line
  {
    set c | c in line
  }

  /** Each record's lines as answer sets. */
  function GroupsOf(records: seq<seq<string>>): (r: seq<Group>)
    ensures |r| == |records|
    ensures forall k :: 0 <= k < |records| ==> |r[k]| == |records[k]|
    ensures forall k, i :: 0 <= k < |records| && 0 <= i < |records[k]| ==> r[k][i] == AnswersOf(records[k][i])
  {
    if records == [] then [] else GroupsOf(records[..|records| - 1]) + [GroupOf(records[|records| - 1])]
  }

  function GroupOf(lines: seq<string>): (g: Group)
    ensures |g| == |lines|
    ensures forall i :: 0 <= i < |lines| ==> g[i] == AnswersOf(lines[i])
  {
    if lines == [] then [] else GroupOf(lines[..|lines| - 1]) + [AnswersOf(lines[|lines| - 1])]
  }

  /** The state of the loop of `parse` after `i` lines: the groups closed so
      far and the open one. */
  predicate ParseState(lines: seq<string>, i: nat, groups: seq<Group>, group: Group)
    requires i <= |lines|
  {
    var p := Paragraphs(lines[..i]);
    groups == GroupsOf(p[..|p| - 1]) && group == GroupOf(p[|p| - 1])
  }

  lemma ParseStepEmpty(lines: seq<string>, i: nat, groups: seq<Group>, group: Group)
    requires i < |lines| && lines[i] == [] && ParseState(lines, i, groups, group)
    ensures ParseState(lines, i + 1, groups + [group], [])
  {
    assert lines[..i + 1][..i] == lines[..i];
    var p := Paragraphs(lines[..i]);
    var p' := Paragraphs(lines[..i + 1]);
    assert p' == p + [[]];
    assert p'[..|p'| - 1] == p;
    assert p[..|p| - 1] == p'[..|p'| - 1][..|p| - 1];
  }

  lemma ParseStepLine(lines: seq<string>, i: nat, groups: seq<Group>, group: Group)
    requires i < |lines| && lines[i] != [] && ParseState(lines, i, groups, group)
    ensures ParseState(lines, i + 1, groups, group + [AnswersOf(lines[i])])
  {
    assert lines[..i + 1][..i] == lines[..i];
    var p := Paragraphs(lines[..i]);
    var p' := Paragraphs(lines[..i + 1]);
    assert p' == p[..|p| - 1] + [p[|p| - 1] + [lines[i]]];
    assert (p[|p| - 1] + [lines[i]])[..|p[|p| - 1]|] == p[|p| - 1];
    assert p'[..|p'| - 1] == p[..|p| - 1];
  }

  lemma ParseEnd(lines: seq<string>, groups: seq<Group>, group: Group)
    requires ParseState(lines, |lines|, groups, group)
    ensures groups + [group] == GroupsOf(Paragraphs(lines))
  {
    assert lines[..|lines|] == lines;
    var p := Paragraphs(lines);
    assert p == p[..|p| - 1] + [p[|p| - 1]];
  }

  /** `parse`: pushes a group at every empty line and the last one at the end;
      the groups are the records between empty lines, each line read as the
      set of its characters. */
  method Parse(lines: seq<string>) returns (groups: seq<Group>)
    ensures groups == GroupsOf(Paragraphs(lines))
  {
    groups := [];
    var group: Group := [];
    for i := 0 to |lines|
      invariant ParseState(lines, i, groups, group)
    {
      var line := lines[i];
      if line == [] {
        ParseStepEmpty(lines, i, groups, group);
        groups := groups + [group];
        group := [];
      } else {
        ParseStepLine(lines, i, groups, group);
        group := group + [AnswersOf(line)];
      }
    }
    ParseEnd(lines, groups, group);
    groups := groups + [group];
  }

  /** `fold_first`: the left fold of a non-empty group with `f`; the source's
      `unwrap` panics on an empty group. */
  function FoldFirst(g: Group, f: (Answers, Answers) -> Answers): Answers
    requires |g| > 0
  {
    if |g| == 1 then g[0] else f(FoldFirst(g[..|g| - 1], f), g[|g| - 1])
  }

  predicate NonEmptyGroups(groups: seq<Group>)
  {
    forall k :: 0 <= k < |groups| ==> |groups[k]| > 0
  }

  /** `get_group_answers`: the sum over the groups of the size of their fold. */
  function GroupAnswers(groups: seq<Group>, f: (Answers, Answers) -> Answers): (n: nat)
    requires NonEmptyGroups(groups)
  {
    if groups == [] then 0 else |FoldFirst(groups[0], f)| + GroupAnswers(groups[1..], f)
  }

  function Union(a: Answers, b: Answers): Answers { a + b }

  function Intersection(a: Answers, b: Answers): Answers { a * b }

  /** Folding with union collects the questions anyone in the group answered. */
  lemma {:induction false} FoldUnion(g: Group)
    requires |g| > 0
    ensures forall c :: c in FoldFirst(g, Union) <==> exists i :: 0 <= i < |g| && c in g[i]
  {
    if |g| > 1 {
      var init := g[..|g| - 1];
      FoldUnion(init);
      assert forall i :: 0 <= i < |init| ==> init[i] == g[i];
    }
  }

  /** Folding with intersection keeps the questions everyone in the group answered. */
  lemma {:induction false} FoldIntersection(g: Group)
    requires |g| > 0
    ensures forall c :: c in FoldFirst(g, Intersection) <==> forall i :: 0 <= i < |g| ==> c in g[i]
  {
    if |g| > 1 {
      var init := g[..|g| - 1];
      FoldIntersection(init);
      assert forall i :: 0 <= i < |init| ==> init[i] == g[i];
    }
  }

  lemma {:induction false} SubsetCard(a: Answers, b: Answers)
    requires a <= b
    ensures |a| <= |b|
    decreases |b|
  {
    if a != {} {
      var x :| x in a;
      SubsetCard(a - {x}, b - {x});
    }
  }

  /** `part_1` */
  function Part1(groups: seq<Group>): nat
    requires NonEmptyGroups(groups)
  {
    GroupAnswers(groups, Union)
  }

  /** `part_2` */
  function Part2(groups: seq<Group>): nat
    requires NonEmptyGroups(groups)
  {
    GroupAnswers(groups, Intersection)
  }

  /** A question everyone in a group answered was answered by someone in it,
      so part 2 never exceeds part 1. */
  lemma {:induction false} Part2AtMostPart1(groups: seq<Group>)
    requires NonEmptyGroups(groups)
    ensures Part2(groups) <= Part1(groups)
  {
    if groups != [] {
      var g := groups[0];
      FoldUnion(g);
      FoldIntersection(g);
      assert FoldFirst(g, Intersection) <= FoldFirst(g, Union) by {
        forall c | c in FoldFirst(g, Intersection) ensures c in FoldFirst(g, Union) {
          assert c in g[0];
        }
      }
      SubsetCard(FoldFirst(g, Intersection), FoldFirst(g, Union));
      assert NonEmptyGroups(groups[1..]) by {
        forall k | 0 <= k < |groups[1..]| ensures |groups[1..][k]| > 0 {
          assert groups[1..][k] == groups[k + 1];
        }
      }
      Part2AtMostPart1(groups[1..]);
    }
  }
}
