/** Day 21: each food lists its ingredients and some of the allergens it
    contains. An allergen's candidates are the ingredients common to every
    food that lists it; the allergens are then settled one by one, each
    taking the last candidate left once the ingredients already taken are
    struck out. */
module Day21 {
  import opened Text
  import opened Folds
  import opened Matching

  /** A food: the set of its ingredients and the allergens it lists. */
  datatype Food = Food(ingredients: set<string>, allergens: seq<string>)

  // Parsing

  const Contains: string := " (contains "

  /** `str::strip_suffix(')')`. */
  function StripParen(s: string): (r: Option<string>)
    ensures r.Some? <==> |s| > 0 && s[|s| - 1] == ')'
    ensures r.Some? ==> s == r.value + ")"
  {
    if |s| > 0 && s[|s| - 1] == ')' then Some(s[..|s| - 1]) else None
  }

  /** The distinct pieces, as `collect` into a `HashSet`. */
  function Elems(pieces: seq<string>): (r: set<string>)
    ensures forall w :: w in r <==> w in pieces
  {
    set w | w in pieces
  }

  /** One line of the input; `None` where an `unwrap` panics. */
  function ParseFood(line: string): Option<Food>
  {
    match SplitOnce(line, Contains)
    case None => None
    case Some((ingredients, allergens)) =>
      match StripParen(allergens)
      case None => None
      case Some(list) => Some(Food(Elems(Split(ingredients, ' ')), SplitOn(list, ", ")))
  }

  /** `parse`: one food per line. */
  function Parse(input: string): Option<seq<Food>>
  {
    ParseEach(Lines(input), ParseFood)
  }

  /** The pieces with `sep` between them. */
  function JoinOn(pieces: seq<string>, sep: string): string
    requires |pieces| > 0
  {
    if |pieces| == 1 then pieces[0] else pieces[0] + sep + JoinOn(pieces[1..], sep)
  }

  /** A line of the input for a food with these ingredients and allergens. */
  function ShowFood(ingredients: seq<string>, allergens: seq<string>): string
    requires Writable(ingredients, allergens)
  {
    Join(ingredients, ' ') + Contains + JoinOn(allergens, ", ") + ")"
  }

  /** A name the input can hold: a word without parentheses or commas. */
  predicate IsName(w: string)
  {
    IsWord(w) && '(' !in w && ',' !in w
  }

  /** A food as written: its ingredients in some order and its allergens. */
  predicate Writable(ingredients: seq<string>, allergens: seq<string>)
  {
    |ingredients| > 0 && |allergens| > 0 &&
    (forall i :: 0 <= i < |ingredients| ==> IsName(ingredients[i])) &&
    (forall i :: 0 <= i < |allergens| ==> IsName(allergens[i]))
  }

  lemma {:induction false} NotInJoin(pieces: seq<string>, sep: char, c: char)
    requires |pieces| > 0 && c != sep
    requires forall i :: 0 <= i < |pieces| ==> c !in pieces[i]
    ensures c !in Join(pieces, sep)
  {
    if |pieces| > 1 {
      NotInJoin(pieces[1..], sep, c);
      assert c !in pieces[0];
    }
  }

  lemma {:induction false} NotInJoinOn(pieces: seq<string>, sep: string, c: char)
    requires |pieces| > 0 && c !in sep
    requires forall i :: 0 <= i < |pieces| ==> c !in pieces[i]
    ensures c !in JoinOn(pieces, sep)
  {
    if |pieces| > 1 {
      NotInJoinOn(pieces[1..], sep, c);
      assert c !in pieces[0];
    }
  }

  /** Splitting on `sep` undoes joining with it when no piece holds its
      first character. */
  lemma {:induction false} SplitOnJoinOn(pieces: seq<string>, sep: string)
    requires |pieces| > 0 && |sep| > 0
    requires forall i :: 0 <= i < |pieces| ==> sep[0] !in pieces[i]
    ensures SplitOn(JoinOn(pieces, sep), sep) == pieces
  {
    var a := pieces[0];
    if |pieces| == 1 {
      forall j | 0 <= j < |a| ensures !OccursAt(a, sep, j) {
        assert sep[0] != a[j];
      }
      SplitOnWhole(a, sep);
    } else {
      var b := JoinOn(pieces[1..], sep);
      forall j | 0 <= j < |a| ensures !OccursAt(a + sep + b, sep, j) {
        assert (a + sep + b)[j] == a[j] != sep[0];
      }
      SplitOnCons(a, sep, b);
      SplitOnJoinOn(pieces[1..], sep);
    }
  }

  /** No search for the separator stops inside the ingredient list. */
  lemma ContainsAfter(a: string, b: string)
    requires '(' !in a
    ensures forall j :: j < |a| ==> !OccursAt(a + Contains + b, Contains, j)
  {
    var s := a + Contains + b;
    forall j | 0 <= j < |a| ensures !OccursAt(s, Contains, j) {
      assert s[j + 1] == if j + 1 < |a| then a[j + 1] else ' ';
    }
  }

  /** A written food line reads back. */
  lemma ParseShowFood(ingredients: seq<string>, allergens: seq<string>)
    requires Writable(ingredients, allergens)
    ensures ParseFood(ShowFood(ingredients, allergens)) == Some(Food(Elems(ingredients), allergens))
  {
    var a := Join(ingredients, ' ');
    var list := JoinOn(allergens, ", ");
    var b := list + ")";
    assert ShowFood(ingredients, allergens) == a + Contains + b;
    NotInJoin(ingredients, ' ', '(');
    ContainsAfter(a, b);
    SplitOnceJoin(a, Contains, b);
    assert StripParen(b) == Some(list);
    SplitOnJoinOn(allergens, ", ");
    SplitJoin(ingredients, ' ');
  }

  /** The input file: the foods' lines, each ended by a newline. */
  function ShowInput(foods: seq<(seq<string>, seq<string>)>): string
    requires forall k :: 0 <= k < |foods| ==> Writable(foods[k].0, foods[k].1)
  {
    Join(FoodLines(foods) + [""], '\n')
  }

  function FoodLines(foods: seq<(seq<string>, seq<string>)>): (r: seq<string>)
    requires forall k :: 0 <= k < |foods| ==> Writable(foods[k].0, foods[k].1)
    ensures |r| == |foods| && forall k :: 0 <= k < |foods| ==> r[k] == ShowFood(foods[k].0, foods[k].1)
  {
    seq(|foods|, k requires 0 <= k < |foods| => ShowFood(foods[k].0, foods[k].1))
  }

  /** A food line holds no newline. */
  lemma FoodLineOneLine(ingredients: seq<string>, allergens: seq<string>)
    requires Writable(ingredients, allergens)
    ensures '\n' !in ShowFood(ingredients, allergens)
  {
    forall i | 0 <= i < |ingredients| ensures '\n' !in ingredients[i] {
      assert IsWord(ingredients[i]);
      forall j | 0 <= j < |ingredients[i]| ensures ingredients[i][j] != '\n' {
        assert !IsSpace(ingredients[i][j]);
      }
    }
    forall i | 0 <= i < |allergens| ensures '\n' !in allergens[i] {
      assert IsWord(allergens[i]);
      forall j | 0 <= j < |allergens[i]| ensures allergens[i][j] != '\n' {
        assert !IsSpace(allergens[i][j]);
      }
    }
    NotInJoin(ingredients, ' ', '\n');
    NotInJoinOn(allergens, ", ", '\n');
  }

  /** A written input file parses back to its foods. */
  lemma ParseShowInput(foods: seq<(seq<string>, seq<string>)>)
    requires forall k :: 0 <= k < |foods| ==> Writable(foods[k].0, foods[k].1)
    ensures Parse(ShowInput(foods)) ==
      Some(seq(|foods|, k requires 0 <= k < |foods| => Food(Elems(foods[k].0), foods[k].1)))
  {
    var lines := FoodLines(foods);
    var pieces := lines + [""];
    forall i | 0 <= i < |pieces| ensures '\n' !in pieces[i] {
      if i < |lines| {
        FoodLineOneLine(foods[i].0, foods[i].1);
      }
    }
    SplitJoin(pieces, '\n');
    var s := ShowInput(foods);
    if s == [] {
      JoinEmpty(pieces, '\n');
    }
    assert Lines(s) == lines;
    var xs := seq(|foods|, k requires 0 <= k < |foods| => Food(Elems(foods[k].0), foods[k].1));
    forall k | 0 <= k < |lines| ensures ParseFood(lines[k]) == Some(xs[k]) {
      ParseShowFood(foods[k].0, foods[k].1);
    }
    ParseEachAll(lines, ParseFood, xs);
  }

  // The candidates and the ingredient counts

  /** One of the first `n` foods lists allergen `a`. */
  predicate Listed(foods: seq<Food>, n: nat, a: string)
    requires n <= |foods|
  {
    exists k :: 0 <= k < n && a in foods[k].allergens
  }

  /** `x` is an ingredient of every one of the first `n` foods that lists `a`. */
  predicate InAll(foods: seq<Food>, n: nat, a: string, x: string)
    requires n <= |foods|
  {
    forall k :: 0 <= k < n && a in foods[k].allergens ==> x in foods[k].ingredients
  }

  /** The number of the first `n` foods that contain `x`. */
  function Occurrences(foods: seq<Food>, n: nat, x: string): nat
    requires n <= |foods|
  {
    if n == 0 then 0 else Occurrences(foods, n - 1, x) + (if x in foods[n - 1].ingredients then 1 else 0)
  }

  /** `cands` maps each allergen the first `n` foods list to the ingredients
      every food listing it has. */
  ghost predicate IsCandidates(cands: map<string, set<string>>, foods: seq<Food>, n: nat)
    requires n <= |foods|
  {
    (forall a :: a in cands <==> Listed(foods, n, a)) &&
    (forall a, x :: a in cands ==> (x in cands[a] <==> InAll(foods, n, a, x)))
  }

  /** `counts` maps each ingredient of the first `n` foods to the number of
      them that contain it. */
  ghost predicate IsCounts(counts: map<string, nat>, foods: seq<Food>, n: nat)
    requires n <= |foods|
  {
    forall x :: (x in counts <==> Occurrences(foods, n, x) > 0) &&
      (x in counts ==> counts[x] == Occurrences(foods, n, x))
  }

  /** The allergen loop for one food: an allergen seen for the first time
      starts from the food's ingredients, and each one is then intersected
      with them. */
  method AddAllergens(cands: map<string, set<string>>, food: Food) returns (r: map<string, set<string>>)
    ensures forall a :: a in r <==> a in cands || a in food.allergens
    ensures forall a :: a in r ==>
      r[a] == if a !in cands then food.ingredients
        else if a in food.allergens then cands[a] * food.ingredients
        else cands[a]
  {
    r := cands;
    for j := 0 to |food.allergens|
      invariant forall a :: a in r <==> a in cands || a in food.allergens[..j]
      invariant forall a :: a in r ==>
        r[a] == if a !in cands then food.ingredients
          else if a in food.allergens[..j] then cands[a] * food.ingredients
          else cands[a]
    {
      var a := food.allergens[j];
      assert food.allergens[..j + 1] == food.allergens[..j] + [a];
      var entry := if a in r then r[a] else food.ingredients;
      r := r[a := entry * food.ingredients];
    }
    assert food.allergens[..|food.allergens|] == food.allergens;
  }

  /** The ingredient loop for one food: each of its ingredients is counted once. */
  method CountIngredients(counts: map<string, nat>, ingredients: set<string>) returns (r: map<string, nat>)
    ensures forall x :: x in r <==> x in counts || x in ingredients
    ensures forall x :: x in r ==>
      r[x] == (if x in counts then counts[x] else 0) + (if x in ingredients then 1 else 0)
  {
    var xs := Elements(ingredients);
    r := counts;
    for j := 0 to |xs|
      invariant forall x :: x in r <==> x in counts || x in xs[..j]
      invariant forall x :: x in r ==>
        r[x] == (if x in counts then counts[x] else 0) + (if x in xs[..j] then 1 else 0)
    {
      var x := xs[j];
      assert xs[..j + 1] == xs[..j] + [x];
      assert x !in xs[..j] by {
        forall i | 0 <= i < j ensures xs[..j][i] != x {
          assert xs[..j][i] == xs[i];
        }
      }
      r := r[x := (if x in r then r[x] else 0) + 1];
    }
    assert xs[..|xs|] == xs;
  }

  /** One more food keeps the candidates right. */
  lemma CandidatesStep(foods: seq<Food>, n: nat, cands: map<string, set<string>>, r: map<string, set<string>>)
    requires n < |foods| && IsCandidates(cands, foods, n)
    requires forall a :: a in r <==> a in cands || a in foods[n].allergens
    requires forall a :: a in r ==>
      r[a] == if a !in cands then foods[n].ingredients
        else if a in foods[n].allergens then cands[a] * foods[n].ingredients
        else cands[a]
    ensures IsCandidates(r, foods, n + 1)
  {
    forall a | Listed(foods, n + 1, a) ensures a in r {
      var k :| 0 <= k < n + 1 && a in foods[k].allergens;
      if k < n {
        assert Listed(foods, n, a);
      }
    }
    forall a, x | a in r ensures x in r[a] <==> InAll(foods, n + 1, a, x) {
      if a !in cands {
        assert !Listed(foods, n, a);
      }
    }
  }

  /** One more food keeps the counts right. */
  lemma CountsStep(foods: seq<Food>, n: nat, counts: map<string, nat>, r: map<string, nat>)
    requires n < |foods| && IsCounts(counts, foods, n)
    requires forall x :: x in r <==> x in counts || x in foods[n].ingredients
    requires forall x :: x in r ==>
      r[x] == (if x in counts then counts[x] else 0) + (if x in foods[n].ingredients then 1 else 0)
    ensures IsCounts(r, foods, n + 1)
  {
  }

  /** The `for` loop over the foods: the candidates of every allergen and
      the count of every ingredient. */
  method Tally(foods: seq<Food>) returns (cands: map<string, set<string>>, counts: map<string, nat>)
    ensures IsCandidates(cands, foods, |foods|)
    ensures IsCounts(counts, foods, |foods|)
  {
    cands, counts := map[], map[];
    for i := 0 to |foods|
      invariant IsCandidates(cands, foods, i)
      invariant IsCounts(counts, foods, i)
    {
      var next := AddAllergens(cands, foods[i]);
      CandidatesStep(foods, i, cands, next);
      var more := CountIngredients(counts, foods[i].ingredients);
      CountsStep(foods, i, counts, more);
      cands, counts := next, more;
    }
  }

  // Settling the allergens

  /** The result of `match_ingredients` besides the counts: the ingredients
      taken and the ingredient each allergen is settled on. */
  datatype Solution = Solution(ingredients: set<string>, allergens: map<string, string>)

  /** The `k`-th ingredient taken is one of the candidates `c`, and each other
      candidate was taken before it. */
  predicate Settled(c: set<string>, taken: seq<string>, k: nat)
    requires k < |taken|
  {
    taken[k] in c && forall y :: y in c && y != taken[k] ==> y in taken[..k]
  }

  /** The allergens of `solved` were settled in the order `history`, taking
      the ingredients `taken`: each took one of its candidates, all of whose
      other candidates had been taken by allergens settled before it. */
  ghost predicate Explains(cands: map<string, set<string>>, solved: map<string, string>,
                           history: seq<string>, taken: seq<string>)
  {
    |history| == |taken| &&
    (forall a :: a in solved <==> a in history) &&
    (forall i, j :: 0 <= i < j < |history| ==> history[i] != history[j]) &&
    (forall k :: 0 <= k < |history| ==> history[k] in solved && solved[history[k]] == taken[k]) &&
    (forall k :: 0 <= k < |history| ==> history[k] in cands && Settled(cands[history[k]], taken, k))
  }

  /** A finished solution for the candidates `cands`: every allergen is
      settled as `history` and `taken` explain, and the ingredient set holds
      exactly the ingredients the allergens are settled on. */
  ghost predicate Solves(cands: map<string, set<string>>, s: Solution, history: seq<string>, taken: seq<string>)
  {
    s.allergens.Keys == cands.Keys &&
    Explains(cands, s.allergens, history, taken) &&
    forall x :: x in s.ingredients <==> exists a :: a in s.allergens && s.allergens[a] == x
  }

  /** The solving loop's state: `current` is the candidate map as pruned so
      far. An unsettled allergen's set has lost only ingredients already taken. */
  ghost predicate SolveInv(cands: map<string, set<string>>, current: map<string, set<string>>,
                           solvedIngredients: set<string>, solved: map<string, string>,
                           history: seq<string>, taken: seq<string>)
  {
    current.Keys == cands.Keys &&
    solved.Keys <= cands.Keys &&
    Explains(cands, solved, history, taken) &&
    (forall x :: x in solvedIngredients <==> x in taken) &&
    (forall a :: a in cands && a !in solved ==> cands[a] - solvedIngredients <= current[a] <= cands[a])
  }

  lemma SingletonOnly(s: set<string>, x: string, y: string)
    requires |s| == 1 && x in s && y in s
    ensures x == y
  {
    if x != y {
      assert {x, y} <= s;
      assert |{x, y}| == 2;
      SubsetSize({x, y}, s);
    }
  }

  lemma {:induction false} SubsetSize<T>(a: set<T>, b: set<T>)
    requires a <= b
    ensures |a| <= |b|
  {
    assert b == a + (b - a);
  }

  /** A subset at least as large as its superset is equal to it. */
  lemma SubsetEqual<T>(a: set<T>, b: set<T>)
    requires a <= b && |a| >= |b|
    ensures a == b
  {
    if a != b {
      var x :| x in b && x !in a;
      SubsetSize(a, b - {x});
    }
  }

  /** Settling `a` on the one candidate `x` it has left keeps the loop state. */
  lemma SettleInv(cands: map<string, set<string>>, current: map<string, set<string>>,
                  solvedIngredients: set<string>, solved: map<string, string>,
                  history: seq<string>, taken: seq<string>, a: string, x: string)
    requires SolveInv(cands, current, solvedIngredients, solved, history, taken)
    requires a in cands && a !in solved && |current[a]| == 1 && x in current[a]
    ensures SolveInv(cands, current, solvedIngredients + {x}, solved[a := x], history + [a], taken + [x])
  {
    var solved', history', taken' := solved[a := x], history + [a], taken + [x];
    var k := |taken|;
    forall y | y in cands[a] && y != x ensures y in taken'[..k] {
      if y !in solvedIngredients {
        SingletonOnly(current[a], x, y);
      }
      assert taken'[..k] == taken;
    }
    assert Settled(cands[a], taken', k);
    forall j | 0 <= j < k ensures Settled(cands[history'[j]], taken', j) {
      assert Settled(cands[history[j]], taken, j);
      assert taken'[..j] == taken[..j];
    }
    forall j | 0 <= j < |history'| ensures history'[j] in solved' && solved'[history'[j]] == taken'[j] {
      if j < k {
        assert history[j] in solved && history[j] != a;
      }
    }
  }

  /** Striking the taken ingredients out of `a`'s candidates keeps the loop state. */
  lemma PruneInv(cands: map<string, set<string>>, current: map<string, set<string>>,
                 solvedIngredients: set<string>, solved: map<string, string>,
                 history: seq<string>, taken: seq<string>, a: string)
    requires SolveInv(cands, current, solvedIngredients, solved, history, taken)
    requires a in cands && a !in solved
    ensures SolveInv(cands, current[a := current[a] - solvedIngredients], solvedIngredients, solved, history, taken)
  {
  }

  /** The solving loop's state: the candidate sets as pruned so far, the
      ingredients taken (`solved_ingredient`) and the allergens settled
      (`solved_allergen`). */
  datatype Progress = Progress(current: map<string, set<string>>, taken: set<string>, solved: map<string, string>)

  /** The state before the first pass. */
  function Start(cands: map<string, set<string>>): Progress
  {
    Progress(cands, {}, map[])
  }

  /** The body of the inner `for` loop on allergen `a`: nothing when it is
      settled, settling it on its last candidate, and otherwise striking the
      taken ingredients out of its candidates. */
  ghost function Step(a: string, st: Progress): Progress
  {
    if a !in st.current || a in st.solved then st
    else if |st.current[a]| == 1 then
      var x :| x in st.current[a];
      Progress(st.current, st.taken + {x}, st.solved[a := x])
    else Progress(st.current[a := st.current[a] - st.taken], st.taken, st.solved)
  }

  /** One pass of the `while` loop, over the allergens in the order `order`. */
  ghost function Sweep(order: seq<string>, st: Progress): Progress
  {
    if order == [] then st else Step(order[|order| - 1], Sweep(order[..|order| - 1], st))
  }

  /** A pass one allergen longer. */
  lemma SweepSnoc(order: seq<string>, i: nat, st: Progress)
    requires i < |order|
    ensures Sweep(order[..i + 1], st) == Step(order[i], Sweep(order[..i], st))
  {
    assert order[..i + 1][..i] == order[..i];
  }

  /** Every allergen is settled: the `while` condition fails. */
  predicate Finished(st: Progress)
  {
    |st.solved| >= |st.current|
  }

  /** The `while` loop from `st`, allowed `fuel` passes: the solution it
      stops with, or `None` when the passes run out first. */
  ghost function Run(order: seq<string>, st: Progress, fuel: nat): Option<Solution>
    decreases fuel
  {
    if Finished(st) then Some(Solution(st.taken, st.solved))
    else if fuel == 0 then None
    else Run(order, Sweep(order, st), fuel - 1)
  }

  /** One pass more of an unfinished loop. */
  lemma RunPass(order: seq<string>, st: Progress, st1: Progress, fuel: nat, fuel': nat)
    requires !Finished(st) && st1 == Sweep(order, st) && fuel == fuel' + 1
    ensures Run(order, st, fuel) == Run(order, st1, fuel')
  {
  }

  /** A finished loop stops at once. */
  lemma RunFinished(order: seq<string>, st: Progress, fuel: nat)
    requires Finished(st)
    ensures Run(order, st, fuel) == Some(Solution(st.taken, st.solved))
  {
  }

  /** One allergen of a pass of the `while` loop. */
  method Visit(ghost cands: map<string, set<string>>, a: string, current: map<string, set<string>>,
               solvedIngredients: set<string>, solved: map<string, string>,
               ghost history: seq<string>, ghost taken: seq<string>)
    returns (current': map<string, set<string>>, solvedIngredients': set<string>, solved': map<string, string>,
             ghost history': seq<string>, ghost taken': seq<string>)
    requires a in cands && SolveInv(cands, current, solvedIngredients, solved, history, taken)
    ensures SolveInv(cands, current', solvedIngredients', solved', history', taken')
    ensures Progress(current', solvedIngredients', solved') == Step(a, Progress(current, solvedIngredients, solved))
  {
    current', solvedIngredients', solved', history', taken' := current, solvedIngredients, solved, history, taken;
    if a !in solved {
      if |current[a]| == 1 {
        var x :| x in current[a];
        SettleInv(cands, current, solvedIngredients, solved, history, taken, a, x);
        forall y | y in current[a] ensures y == x {
          SingletonOnly(current[a], x, y);
        }
        solvedIngredients' := solvedIngredients + {x};
        solved' := solved[a := x];
        history', taken' := history + [a], taken + [x];
      } else {
        PruneInv(cands, current, solvedIngredients, solved, history, taken, a);
        current' := current[a := current[a] - solvedIngredients];
      }
    }
  }

  /** One pass of the solving loop over the candidate map, in its iteration
      order `order`. */
  method Pass(ghost cands: map<string, set<string>>, order: seq<string>, current: map<string, set<string>>,
              solvedIngredients: set<string>, solved: map<string, string>,
              ghost history: seq<string>, ghost taken: seq<string>)
    returns (current': map<string, set<string>>, solvedIngredients': set<string>, solved': map<string, string>,
             ghost history': seq<string>, ghost taken': seq<string>)
    requires forall i :: 0 <= i < |order| ==> order[i] in cands
    requires SolveInv(cands, current, solvedIngredients, solved, history, taken)
    ensures SolveInv(cands, current', solvedIngredients', solved', history', taken')
    ensures Progress(current', solvedIngredients', solved') == Sweep(order, Progress(current, solvedIngredients, solved))
  {
    ghost var st := Progress(current, solvedIngredients, solved);
    current', solvedIngredients', solved', history', taken' := current, solvedIngredients, solved, history, taken;
    for i := 0 to |order|
      invariant SolveInv(cands, current', solvedIngredients', solved', history', taken')
      invariant Progress(current', solvedIngredients', solved') == Sweep(order[..i], st)
    {
      SweepSnoc(order, i, st);
      current', solvedIngredients', solved', history', taken' :=
        Visit(cands, order[i], current', solvedIngredients', solved', history', taken');
    }
    assert order[..|order|] == order;
  }

  /** The settled ingredients are the values of the settled allergens. */
  lemma TakenValues(cands: map<string, set<string>>, current: map<string, set<string>>,
                    solvedIngredients: set<string>, solved: map<string, string>,
                    history: seq<string>, taken: seq<string>)
    requires SolveInv(cands, current, solvedIngredients, solved, history, taken)
    ensures forall x :: x in solvedIngredients <==> exists a :: a in solved && solved[a] == x
  {
    forall x | x in solvedIngredients ensures exists a :: a in solved && solved[a] == x {
      var k :| 0 <= k < |taken| && taken[k] == x;
      assert solved[history[k]] == x;
    }
    forall a | a in solved ensures solved[a] in solvedIngredients {
      var k :| 0 <= k < |history| && history[k] == a;
      assert taken[k] == solved[a];
    }
  }

  /** The solving `while` loop: passes over the candidates until every
      allergen is settled. The source loops forever when a pass settles
      nothing; `fuel` bounds the passes, and running out of it gives `None`. */
  method Solve(candidates: map<string, set<string>>, order: seq<string>, fuel: nat)
    returns (r: Option<Solution>, ghost history: seq<string>, ghost taken: seq<string>)
    requires forall a :: a in candidates <==> a in order
    ensures r == Run(order, Start(candidates), fuel)
    ensures r.Some? ==> Solves(candidates, r.value, history, taken)
  {
    var current := candidates;
    var solvedIngredients: set<string> := {};
    var solved: map<string, string> := map[];
    history, taken := [], [];
    var passes := fuel;
    ghost var target := Run(order, Start(candidates), fuel);
    assert forall i :: 0 <= i < |order| ==> order[i] in candidates;
    while |solved| < |current|
      invariant SolveInv(candidates, current, solvedIngredients, solved, history, taken)
      invariant Run(order, Progress(current, solvedIngredients, solved), passes) == target
      decreases passes
    {
      if passes == 0 {
        return None, history, taken;
      }
      ghost var before := passes;
      passes := passes - 1;
      ghost var st := Progress(current, solvedIngredients, solved);
      RunPass(order, st, Sweep(order, st), before, passes);
      current, solvedIngredients, solved, history, taken :=
        Pass(candidates, order, current, solvedIngredients, solved, history, taken);
    }
    RunFinished(order, Progress(current, solvedIngredients, solved), passes);
    SolvedAll(candidates, current, solvedIngredients, solved, history, taken);
    r := Some(Solution(solvedIngredients, solved));
  }

  /** A finished loop has solved the candidates. */
  lemma SolvedAll(cands: map<string, set<string>>, current: map<string, set<string>>,
                  solvedIngredients: set<string>, solved: map<string, string>,
                  history: seq<string>, taken: seq<string>)
    requires SolveInv(cands, current, solvedIngredients, solved, history, taken) && |solved| >= |current|
    ensures Solves(cands, Solution(solvedIngredients, solved), history, taken)
  {
    SubsetEqual(solved.Keys, current.Keys);
    TakenValues(cands, current, solvedIngredients, solved, history, taken);
  }

  // What the loop reaches

  /** The loop's state on the way to the assignment `m`: the settled
      allergens have their ingredients of `m`, which are the ones taken, and
      every other allergen keeps its own among its remaining candidates. */
  ghost predicate Agrees(cands: map<string, set<string>>, m: map<string, string>, st: Progress)
  {
    st.current.Keys == cands.Keys &&
    (forall a :: a in st.solved ==> a in m && st.solved[a] == m[a]) &&
    st.taken == Image(m, st.solved.Keys) &&
    (forall a :: a in cands && a !in st.solved ==> a in m && m[a] in st.current[a] && st.current[a] <= cands[a])
  }

  /** Allergen `k` is settled, or left with its own ingredient of `m` only. */
  ghost predicate Ready(m: map<string, string>, st: Progress, k: string)
    requires k in m && k in st.current
  {
    k in st.solved || st.current[k] == {m[k]}
  }

  lemma StartAgrees(cands: map<string, set<string>>, m: map<string, string>)
    requires Fitting(cands, m)
    ensures Agrees(cands, m, Start(cands))
  {
    assert Image(m, {}) == {};
  }

  /** An unsettled allergen's own ingredient is not taken. */
  lemma NotTaken(cands: map<string, set<string>>, m: map<string, string>, st: Progress, a: string)
    requires Fitting(cands, m) && Agrees(cands, m, st) && a in cands && a !in st.solved
    ensures m[a] !in st.taken
  {
    forall b | b in st.solved.Keys ensures m[b] != m[a] {
      assert b != a;
    }
  }

  /** A step of the loop keeps it on the way to `m`, and only adds settled
      allergens and taken ingredients. */
  lemma StepAgrees(cands: map<string, set<string>>, m: map<string, string>, a: string, st: Progress)
    requires Fitting(cands, m) && Agrees(cands, m, st)
    ensures Agrees(cands, m, Step(a, st))
    ensures st.solved.Keys <= Step(a, st).solved.Keys && st.taken <= Step(a, st).taken
  {
    if a in st.current && a !in st.solved {
      if |st.current[a]| == 1 {
        forall y | y in st.current[a] ensures y == m[a] {
          SingletonOnly(st.current[a], y, m[a]);
        }
        assert Step(a, st) == Progress(st.current, st.taken + {m[a]}, st.solved[a := m[a]]);
        assert Image(m, st.solved.Keys + {a}) == Image(m, st.solved.Keys) + {m[a]};
        assert st.solved[a := m[a]].Keys == st.solved.Keys + {a};
      } else {
        NotTaken(cands, m, st, a);
      }
    }
  }

  /** A step keeps allergen `k` ready, settles it when it is ready and the
      step is its own, and makes it ready when the taken ingredients leave it
      nothing but its own. */
  lemma StepReady(cands: map<string, set<string>>, m: map<string, string>, a: string, st: Progress, k: string)
    requires Fitting(cands, m) && Agrees(cands, m, st) && k in cands
    ensures Ready(m, st, k) ==> Ready(m, Step(a, st), k)
    ensures a == k && Ready(m, st, k) ==> k in Step(a, st).solved
    ensures a == k && cands[k] - st.taken <= {m[k]} ==> Ready(m, Step(a, st), k)
  {
    if a == k && k !in st.solved && |st.current[k]| != 1 && cands[k] - st.taken <= {m[k]} {
      NotTaken(cands, m, st, k);
      assert m[k] in st.current[k] - st.taken;
      assert st.current[k] - st.taken == {m[k]};
    }
  }

  /** A pass keeps the loop on the way to `m`, and only adds settled
      allergens and taken ingredients. */
  lemma {:induction false} SweepAgrees(cands: map<string, set<string>>, m: map<string, string>,
                                       order: seq<string>, st: Progress)
    requires Fitting(cands, m) && Agrees(cands, m, st)
    ensures Agrees(cands, m, Sweep(order, st))
    ensures st.solved.Keys <= Sweep(order, st).solved.Keys && st.taken <= Sweep(order, st).taken
  {
    if order != [] {
      var init, last := order[..|order| - 1], order[|order| - 1];
      SweepAgrees(cands, m, init, st);
      StepAgrees(cands, m, last, Sweep(init, st));
    }
  }

  /** A pass keeps allergen `k` ready; a pass over `k` settles it when it is
      ready, and makes it ready when the taken ingredients leave it nothing
      but its own. */
  lemma {:induction false} SweepReady(cands: map<string, set<string>>, m: map<string, string>,
                                      order: seq<string>, st: Progress, k: string)
    requires Fitting(cands, m) && Agrees(cands, m, st) && k in cands
    ensures k in Sweep(order, st).current
    ensures Ready(m, st, k) ==> Ready(m, Sweep(order, st), k)
    ensures Ready(m, st, k) && k in order ==> k in Sweep(order, st).solved
    ensures cands[k] - st.taken <= {m[k]} && k in order ==> Ready(m, Sweep(order, st), k)
  {
    if order != [] {
      var init, last := order[..|order| - 1], order[|order| - 1];
      assert order == init + [last];
      var st1 := Sweep(init, st);
      SweepAgrees(cands, m, init, st);
      SweepReady(cands, m, init, st, k);
      StepAgrees(cands, m, last, st1);
      StepReady(cands, m, last, st1, k);
    }
  }

  /** A finished loop on the way to `m` has settled every allergen as `m`
      does. */
  lemma FinishedAgrees(cands: map<string, set<string>>, m: map<string, string>, st: Progress)
    requires Fitting(cands, m) && Agrees(cands, m, st) && Finished(st)
    ensures Solution(st.taken, st.solved) == Solution(Image(m, cands.Keys), m)
  {
    assert st.solved.Keys <= cands.Keys;
    SubsetEqual(st.solved.Keys, cands.Keys);
  }

  /** From a state on the way to `m`, the loop stops with `m` or not at
      all. */
  lemma {:induction false} RunAgrees(cands: map<string, set<string>>, m: map<string, string>,
                                     order: seq<string>, st: Progress, fuel: nat, r: Option<Solution>)
    requires Fitting(cands, m) && Agrees(cands, m, st) && r == Run(order, st, fuel)
    ensures r == None || r == Some(Solution(Image(m, cands.Keys), m))
    decreases fuel
  {
    if Finished(st) {
      RunFinished(order, st, fuel);
      FinishedAgrees(cands, m, st);
    } else if fuel > 0 {
      var st1, fuel' := Sweep(order, st), fuel - 1;
      SweepAgrees(cands, m, order, st);
      RunPass(order, st, st1, fuel, fuel');
      RunAgrees(cands, m, order, st1, fuel', r);
    }
  }

  /** When `m` peels, two passes `st1` and `st2` over every allergen settle
      at least one more of them. */
  lemma TwoSweeps(cands: map<string, set<string>>, m: map<string, string>, order: seq<string>,
                  st: Progress, st1: Progress, st2: Progress)
    requires Fitting(cands, m) && Peels(cands, m) && Agrees(cands, m, st) && !Finished(st)
    requires forall a :: a in cands ==> a in order
    requires st1 == Sweep(order, st) && st2 == Sweep(order, st1)
    ensures Agrees(cands, m, st1) && Agrees(cands, m, st2)
    ensures |st2.solved| > |st.solved|
  {
    var s := st.solved.Keys;
    Unfinished(cands, m, st);
    var k := Lonely(cands, m, s);
    PassReady(cands, m, order, st, st1, k);
    PassSettles(cands, m, order, st1, st2, k);
    Grows(s, st2.solved.Keys, k);
  }

  /** A superset with one element more is larger. */
  lemma Grows<T>(s: set<T>, s2: set<T>, k: T)
    requires s <= s2 && k in s2 && k !in s
    ensures |s| < |s2|
  {
    SubsetSize(s + {k}, s2);
  }

  /** A pass over `k` after which `k` is settled or left with its own
      ingredient only. */
  lemma PassReady(cands: map<string, set<string>>, m: map<string, string>, order: seq<string>,
                  st: Progress, st1: Progress, k: string)
    requires Fitting(cands, m) && Agrees(cands, m, st) && k in cands && k in order
    requires cands[k] - st.taken <= {m[k]} && st1 == Sweep(order, st)
    ensures Agrees(cands, m, st1) && st.solved.Keys <= st1.solved.Keys && Ready(m, st1, k)
  {
    SweepAgrees(cands, m, order, st);
    SweepReady(cands, m, order, st, k);
  }

  /** A pass over a ready allergen `k` after which it is settled. */
  lemma PassSettles(cands: map<string, set<string>>, m: map<string, string>, order: seq<string>,
                    st1: Progress, st2: Progress, k: string)
    requires Fitting(cands, m) && Agrees(cands, m, st1) && k in cands && k in order
    requires Ready(m, st1, k) && st2 == Sweep(order, st1)
    ensures Agrees(cands, m, st2) && st1.solved.Keys <= st2.solved.Keys && k in st2.solved
  {
    SweepAgrees(cands, m, order, st1);
    SweepReady(cands, m, order, st1, k);
  }

  /** An allergen that the settled ones `s` leave with its own ingredient
      only, when `m` peels. */
  lemma Lonely(cands: map<string, set<string>>, m: map<string, string>, s: set<string>) returns (k: string)
    requires Peels(cands, m) && s <= cands.Keys && |s| < |cands.Keys|
    ensures k in cands && k in m && k !in s && cands[k] - Image(m, s) == {m[k]}
  {
    assert s != cands.Keys;
    assert s < cands.Keys;
    assert Unblocked(cands, m, s);
    k :| k in cands && k in m && k !in s && cands[k] - Image(m, s) == {m[k]};
  }

  /** When `m` peels, a loop on the way to `m` with two passes for each
      allergen still unsettled stops with `m`. */
  lemma {:induction false} RunCompletes(cands: map<string, set<string>>, m: map<string, string>,
                                        order: seq<string>, st: Progress, fuel: nat, r: Option<Solution>)
    requires Fitting(cands, m) && Peels(cands, m) && Agrees(cands, m, st)
    requires forall a :: a in cands ==> a in order
    requires fuel >= 2 * (|cands| - |st.solved|) && r == Run(order, st, fuel)
    ensures r == Some(Solution(Image(m, cands.Keys), m))
    decreases fuel
  {
    if Finished(st) {
      RunFinished(order, st, fuel);
      FinishedAgrees(cands, m, st);
    } else {
      Unfinished(cands, m, st);
      var st1, fuel' := Sweep(order, st), fuel - 1;
      var st2, fuel'' := Sweep(order, st1), fuel - 2;
      TwoSweeps(cands, m, order, st, st1, st2);
      RunPass(order, st, st1, fuel, fuel');
      if Finished(st1) {
        RunFinished(order, st1, fuel');
        FinishedAgrees(cands, m, st1);
      } else {
        RunPass(order, st1, st2, fuel', fuel'');
        RunCompletes(cands, m, order, st2, fuel'', r);
      }
    }
  }

  /** An unfinished loop on the way to `m` has an allergen left to settle. */
  lemma Unfinished(cands: map<string, set<string>>, m: map<string, string>, st: Progress)
    requires Fitting(cands, m) && Agrees(cands, m, st) && !Finished(st)
    ensures st.solved.Keys <= cands.Keys && |st.solved.Keys| == |st.solved| < |cands.Keys| == |cands|
  {
    assert |cands.Keys| == |st.current.Keys| == |st.current|;
  }

  /** A pass that changes nothing leaves the loop running for ever: every
      allowance of passes runs out. */
  lemma {:induction false} RunStuck(order: seq<string>, st: Progress, fuel: nat)
    requires !Finished(st) && Sweep(order, st) == st
    ensures Run(order, st, fuel) == None
    decreases fuel
  {
    if fuel > 0 {
      RunStuck(order, st, fuel - 1);
    }
  }

  /** More passes do not change a solution the loop stops with: `None` only
      ever means that the passes ran out. */
  lemma {:induction false} RunMore(order: seq<string>, st: Progress, fuel: nat, fuel': nat)
    requires Run(order, st, fuel).Some? && fuel <= fuel'
    ensures Run(order, st, fuel') == Run(order, st, fuel)
    decreases fuel
  {
    if !Finished(st) {
      RunMore(order, Sweep(order, st), fuel - 1, fuel' - 1);
    }
  }

  /** A solution the loop stops with settles every allergen. */
  lemma {:induction false} RunKeys(cands: map<string, set<string>>, order: seq<string>, st: Progress, fuel: nat)
    requires st.current.Keys == cands.Keys && st.solved.Keys <= cands.Keys
    requires Run(order, st, fuel).Some?
    ensures Run(order, st, fuel).value.allergens.Keys == cands.Keys
    decreases fuel
  {
    if Finished(st) {
      SubsetEqual(st.solved.Keys, cands.Keys);
    } else {
      SweepKeys(order, st);
      RunKeys(cands, order, Sweep(order, st), fuel - 1);
    }
  }

  /** A pass keeps the allergens of the candidate map and settles only them. */
  lemma {:induction false} SweepKeys(order: seq<string>, st: Progress)
    requires st.solved.Keys <= st.current.Keys
    ensures Sweep(order, st).current.Keys == st.current.Keys
    ensures Sweep(order, st).solved.Keys <= st.current.Keys
  {
    if order != [] {
      SweepKeys(order[..|order| - 1], st);
    }
  }

  /** `Solve` never settles the allergens otherwise than an assignment of
      distinct candidates `m`: it stops with `m` or not at all. */
  lemma SolveAgrees(cands: map<string, set<string>>, order: seq<string>, fuel: nat, m: map<string, string>)
    requires Fitting(cands, m)
    ensures Run(order, Start(cands), fuel) == None ||
            Run(order, Start(cands), fuel) == Some(Solution(Image(m, cands.Keys), m))
  {
    StartAgrees(cands, m);
    RunAgrees(cands, m, order, Start(cands), fuel, Run(order, Start(cands), fuel));
  }

  /** When `m` peels, two passes per allergen are enough for `Solve` to stop
      with `m`. */
  lemma SolveCompletes(cands: map<string, set<string>>, order: seq<string>, fuel: nat, m: map<string, string>)
    requires Fitting(cands, m) && Peels(cands, m)
    requires forall a :: a in cands <==> a in order
    requires fuel >= 2 * |cands|
    ensures Run(order, Start(cands), fuel) == Some(Solution(Image(m, cands.Keys), m))
  {
    StartAgrees(cands, m);
    RunCompletes(cands, m, order, Start(cands), fuel, Run(order, Start(cands), fuel));
  }

  /** When `m` is the only assignment of distinct candidates, two passes per
      allergen are enough for `Solve` to stop with `m`. */
  lemma SolveUnique(cands: map<string, set<string>>, order: seq<string>, fuel: nat, m: map<string, string>)
    requires Fitting(cands, m) && forall m' :: Fitting(cands, m') ==> m' == m
    requires forall a :: a in cands <==> a in order
    requires fuel >= 2 * |cands|
    ensures Run(order, Start(cands), fuel) == Some(Solution(Image(m, cands.Keys), m))
  {
    UniquePeels(cands, m);
    SolveCompletes(cands, order, fuel, m);
  }

  /** `s` is a solution `match_ingredients` can reach on `foods`: one the
      solving loop explains for the foods' candidates. */
  ghost predicate Matched(foods: seq<Food>, s: Solution)
  {
    exists cands, history, taken :: IsCandidates(cands, foods, |foods|) && Solves(cands, s, history, taken)
  }

  /** `order` lists, each once, the allergens the foods list: the iteration
      order of the candidate map. */
  ghost predicate AllergenOrder(foods: seq<Food>, order: seq<string>)
  {
    forall a :: a in order <==> Listed(foods, |foods|, a)
  }

  /** The candidate map the foods determine (see CandidatesUnique); `Tally`
      builds it. */
  ghost function Cands(foods: seq<Food>): map<string, set<string>>
  {
    if exists c :: IsCandidates(c, foods, |foods|) then
      var c :| IsCandidates(c, foods, |foods|); c
    else
      map[]
  }

  /** `match_ingredients`: the ingredient counts and a settled solution;
      `None` stands for the source's endless loop. */
  method MatchIngredients(foods: seq<Food>, order: seq<string>, fuel: nat)
    returns (r: Option<(map<string, nat>, Solution)>)
    requires AllergenOrder(foods, order)
    ensures r.Some? <==> Run(order, Start(Cands(foods)), fuel).Some?
    ensures r.Some? ==> r.value.1 == Run(order, Start(Cands(foods)), fuel).value
    ensures r.Some? ==> IsCounts(r.value.0, foods, |foods|) && Matched(foods, r.value.1)
  {
    var c, counts := Tally(foods);
    CandidatesUnique(foods, c, Cands(foods));
    var s, history, taken := Solve(c, order, fuel);
    if s.None? {
      return None;
    }
    assert IsCandidates(c, foods, |foods|) && Solves(c, s.value, history, taken);
    r := Some((counts, s.value));
  }

  /** The foods determine their candidate map. */
  lemma CandidatesUnique(foods: seq<Food>, c: map<string, set<string>>, d: map<string, set<string>>)
    requires IsCandidates(c, foods, |foods|) && IsCandidates(d, foods, |foods|)
    ensures c == d
  {
    assert c.Keys == d.Keys;
    forall a | a in c ensures c[a] == d[a] {
      assert forall x :: x in c[a] <==> x in d[a];
    }
  }

  // Part 1

  /** The appearances, over the first `n` foods, of ingredients outside `taken`. */
  function SafeCount(foods: seq<Food>, n: nat, taken: set<string>): nat
    requires n <= |foods|
  {
    if n == 0 then 0 else SafeCount(foods, n - 1, taken) + |foods[n - 1].ingredients - taken|
  }

  function CountOf(counts: map<string, nat>): string -> int
  {
    x => if x in counts then counts[x] else 0
  }

  function OccurrencesOf(foods: seq<Food>, n: nat): string -> int
    requires n <= |foods|
  {
    x => Occurrences(foods, n, x)
  }

  function Indicator(t: set<string>): string -> int
  {
    x => if x in t then 1 else 0
  }

  /** An ingredient of one of the first `n` foods occurs in them. */
  lemma {:induction false} OccurrencesPositive(foods: seq<Food>, n: nat, k: nat, x: string)
    requires k < n <= |foods| && x in foods[k].ingredients
    ensures Occurrences(foods, n, x) > 0
  {
    if k < n - 1 {
      OccurrencesPositive(foods, n - 1, k, x);
    }
  }

  lemma OccurrencesStep(foods: seq<Food>, n: nat)
    requires 0 < n <= |foods|
    ensures forall x ::
      OccurrencesOf(foods, n)(x) ==
      OccurrencesOf(foods, n - 1)(x) + Indicator(foods[n - 1].ingredients)(x)
  {
  }

  /** One food more adds its ingredients outside `taken` to the sum. */
  lemma SafeSumStep(foods: seq<Food>, n: nat, taken: set<string>, u: set<string>)
    requires 0 < n <= |foods|
    requires foods[n - 1].ingredients - taken <= u && u !! taken
    ensures SetSum(u, OccurrencesOf(foods, n)) ==
      SetSum(u, OccurrencesOf(foods, n - 1)) + |foods[n - 1].ingredients - taken|
  {
    var t := foods[n - 1].ingredients;
    OccurrencesStep(foods, n);
    SetSumLinear(u, OccurrencesOf(foods, n), OccurrencesOf(foods, n - 1), Indicator(t));
    SetSumIndicator(u, t, Indicator(t));
    assert u * t == t - taken;
  }

  /** Counting ingredient by ingredient is counting food by food: summing the
      occurrences of every ingredient outside `taken` gives the appearances of
      such ingredients in the foods. */
  lemma {:induction false} SafeSum(foods: seq<Food>, n: nat, taken: set<string>, all: set<string>)
    requires n <= |foods|
    requires forall k :: 0 <= k < n ==> foods[k].ingredients <= all
    ensures SetSum(all - taken, OccurrencesOf(foods, n)) == SafeCount(foods, n, taken)
  {
    var u := all - taken;
    if n == 0 {
      SetSumZero(u, OccurrencesOf(foods, n));
      assert SetSum(u, OccurrencesOf(foods, n)) == 0;
    } else {
      SafeSum(foods, n - 1, taken, all);
      SafeSumStep(foods, n, taken, u);
      assert SetSum(u, OccurrencesOf(foods, n)) ==
        SafeCount(foods, n - 1, taken) + |foods[n - 1].ingredients - taken|;
    }
  }

  /** The `part_1` sum over the counts, in some iteration order. */
  method SumSafe(counts: map<string, nat>, taken: set<string>) returns (total: nat)
    ensures total == SetSum(counts.Keys - taken, CountOf(counts))
  {
    var keys := Elements(counts.Keys);
    var f := CountOf(counts);
    total := 0;
    ghost var done: set<string> := {};
    for i := 0 to |keys|
      invariant forall x :: x in done <==> x in keys[..i]
      invariant total == SetSum(done - taken, f)
    {
      var x := keys[i];
      assert keys[..i + 1] == keys[..i] + [x];
      assert x !in done by {
        forall j | 0 <= j < i ensures keys[..i][j] != x {
          assert keys[..i][j] == keys[j];
        }
      }
      if x !in taken {
        SetSumAdd(done - taken, f, x);
        assert (done + {x}) - taken == (done - taken) + {x};
        total := total + counts[x];
      } else {
        assert (done + {x}) - taken == done - taken;
      }
      done := done + {x};
    }
    assert keys[..|keys|] == keys;
    assert done == counts.Keys;
  }

  /** The sum over the counts is the number of appearances of ingredients
      that contain no allergen. */
  lemma CountsSafe(foods: seq<Food>, counts: map<string, nat>, taken: set<string>)
    requires IsCounts(counts, foods, |foods|)
    ensures SetSum(counts.Keys - taken, CountOf(counts)) == SafeCount(foods, |foods|, taken)
  {
    forall k, x | 0 <= k < |foods| && x in foods[k].ingredients ensures x in counts {
      OccurrencesPositive(foods, |foods|, k, x);
    }
    SetSumCongruent(counts.Keys - taken, CountOf(counts), OccurrencesOf(foods, |foods|));
    SafeSum(foods, |foods|, taken, counts.Keys);
  }

  /** `part_1`: how many times ingredients that contain no allergen appear,
      for a solution the matching reaches. */
  method Part1(foods: seq<Food>, order: seq<string>, fuel: nat) returns (r: Option<nat>)
    requires AllergenOrder(foods, order)
    ensures r.Some? <==> Run(order, Start(Cands(foods)), fuel).Some?
    ensures r.Some? ==>
      var solution := Run(order, Start(Cands(foods)), fuel).value;
      Matched(foods, solution) && r.value == SafeCount(foods, |foods|, solution.ingredients)
  {
    var m := MatchIngredients(foods, order, fuel);
    if m.None? {
      return None;
    }
    var (counts, s) := m.value;
    var total := SumSafe(counts, s.ingredients);
    CountsSafe(foods, counts, s.ingredients);
    r := Some(total);
  }

  // Part 2

  /** `a` sorts strictly before `b`: Rust's `Ord` on `str`, lexicographic by
      character. */
  predicate Before(a: string, b: string)
    decreases |a|
  {
    b != [] && (a == [] || a[0] < b[0] || (a[0] == b[0] && Before(a[1..], b[1..])))
  }

  lemma {:induction false} BeforeIrreflexive(a: string)
    ensures !Before(a, a)
    decreases |a|
  {
    if a != [] {
      BeforeIrreflexive(a[1..]);
    }
  }

  lemma {:induction false} BeforeTransitive(a: string, b: string, c: string)
    requires Before(a, b) && Before(b, c)
    ensures Before(a, c)
    decreases |a|
  {
    if a != [] && a[0] == b[0] && b[0] == c[0] {
      BeforeTransitive(a[1..], b[1..], c[1..]);
    }
  }

  /** Distinct strings are ordered one way, and only one. */
  lemma {:induction false} BeforeTotal(a: string, b: string)
    ensures a != b ==> Before(a, b) || Before(b, a)
    ensures !(Before(a, b) && Before(b, a))
    decreases |a|
  {
    if a != [] && b != [] && a[0] == b[0] {
      BeforeTotal(a[1..], b[1..]);
      if a != b {
        assert a == [a[0]] + a[1..] && b == [b[0]] + b[1..];
      }
    }
  }

  /** Strictly sorted by the first component, the allergen. */
  predicate KeySorted(ps: seq<(string, string)>)
  {
    forall i, j :: 0 <= i < j < |ps| ==> Before(ps[i].0, ps[j].0)
  }

  lemma KeySortedCons(p: (string, string), ps: seq<(string, string)>)
    requires KeySorted(ps) && (ps == [] || Before(p.0, ps[0].0))
    ensures KeySorted([p] + ps)
  {
    var r := [p] + ps;
    forall i, j | 0 <= i < j < |r| ensures Before(r[i].0, r[j].0) {
      if i == 0 {
        assert r[j] == ps[j - 1];
        if j > 1 {
          BeforeTransitive(p.0, ps[0].0, ps[j - 1].0);
        }
      } else {
        assert r[i] == ps[i - 1] && r[j] == ps[j - 1];
      }
    }
  }

  lemma KeySortedTail(ps: seq<(string, string)>)
    requires KeySorted(ps) && ps != []
    ensures KeySorted(ps[1..])
  {
    forall i, j | 0 <= i < j < |ps[1..]| ensures Before(ps[1..][i].0, ps[1..][j].0) {
      assert ps[1..][i] == ps[i + 1] && ps[1..][j] == ps[j + 1];
    }
  }

  /** An element of a permutation of `s` is an element of `s`. */
  lemma PermutationMember(r: seq<(string, string)>, s: seq<(string, string)>, i: nat)
    requires multiset(r) == multiset(s) && i < |r|
    ensures r[i] in s
  {
    assert r[i] in multiset(r);
  }

  /** The recursive case of `InsertByKey`: the head goes back in front of
      the insertion into the tail. */
  lemma InsertByKeyFront(p: (string, string), ps: seq<(string, string)>, rest: seq<(string, string)>)
    requires KeySorted(ps) && ps != [] && Before(ps[0].0, p.0)
    requires KeySorted(rest) && multiset(rest) == multiset(ps[1..] + [p])
    ensures KeySorted([ps[0]] + rest)
    ensures multiset([ps[0]] + rest) == multiset(ps) + multiset{p}
  {
    if rest != [] {
      PermutationMember(rest, ps[1..] + [p], 0);
      if rest[0] != p {
        var k :| 0 <= k < |ps[1..]| && ps[1..][k] == rest[0];
        assert ps[1..][k] == ps[k + 1];
      }
    }
    KeySortedCons(ps[0], rest);
    assert ps == [ps[0]] + ps[1..];
  }

  /** Inserting a pair into a sorted listing whose keys differ from its key. */
  function InsertByKey(p: (string, string), ps: seq<(string, string)>): (r: seq<(string, string)>)
    requires KeySorted(ps) && forall i :: 0 <= i < |ps| ==> ps[i].0 != p.0
    ensures KeySorted(r) && multiset(r) == multiset(ps) + multiset{p}
  {
    if ps == [] then [p]
    else if Before(p.0, ps[0].0) then
      KeySortedCons(p, ps);
      [p] + ps
    else
      KeySortedTail(ps);
      BeforeTotal(p.0, ps[0].0);
      var rest := InsertByKey(p, ps[1..]);
      InsertByKeyFront(p, ps, rest);
      [ps[0]] + rest
  }

  /** A permutation of the tail of a sequence with distinct keys holds no
      pair with the head's key. */
  lemma FreshKey(ps: seq<(string, string)>, rest: seq<(string, string)>)
    requires ps != [] && forall i, j :: 0 <= i < j < |ps| ==> ps[i].0 != ps[j].0
    requires multiset(rest) == multiset(ps[1..])
    ensures forall i :: 0 <= i < |rest| ==> rest[i].0 != ps[0].0
  {
    forall i | 0 <= i < |rest| ensures rest[i].0 != ps[0].0 {
      PermutationMember(rest, ps[1..], i);
      var k :| 0 <= k < |ps[1..]| && ps[1..][k] == rest[i];
      assert ps[1..][k] == ps[k + 1];
    }
  }

  /** `sort_unstable_by_key` on the allergen, for pairs with distinct allergens. */
  function SortByKey(ps: seq<(string, string)>): (r: seq<(string, string)>)
    requires forall i, j :: 0 <= i < j < |ps| ==> ps[i].0 != ps[j].0
    ensures KeySorted(r) && multiset(r) == multiset(ps)
  {
    if ps == [] then []
    else
      var rest := SortByKey(ps[1..]);
      FreshKey(ps, rest);
      assert ps == [ps[0]] + ps[1..];
      InsertByKey(ps[0], rest)
  }

  /** `listing` is the map's entries, each once, sorted by allergen. */
  predicate Listing(listing: seq<(string, string)>, m: map<string, string>)
  {
    KeySorted(listing) &&
    (forall i :: 0 <= i < |listing| ==> listing[i].0 in m && m[listing[i].0] == listing[i].1) &&
    (forall a :: a in m ==> exists i :: 0 <= i < |listing| && listing[i].0 == a)
  }

  /** The head of a sorted listing has the least key, and the rest lists
      the other entries. */
  lemma ListingHead(s: seq<(string, string)>, m: map<string, string>)
    requires Listing(s, m) && s != []
    ensures s[0].0 in m && s[0].1 == m[s[0].0]
    ensures forall a :: a in m && a != s[0].0 ==> Before(s[0].0, a)
    ensures Listing(s[1..], m - {s[0].0})
  {
    var m' := m - {s[0].0};
    forall a | a in m && a != s[0].0 ensures Before(s[0].0, a) {
      var i :| 0 <= i < |s| && s[i].0 == a;
    }
    forall a | a in m' ensures exists i :: 0 <= i < |s[1..]| && s[1..][i].0 == a {
      var i :| 0 <= i < |s| && s[i].0 == a;
      assert s[1..][i - 1] == s[i];
    }
    forall i | 0 <= i < |s[1..]| ensures s[1..][i].0 in m' {
      assert Before(s[0].0, s[i + 1].0);
      BeforeIrreflexive(s[0].0);
    }
  }

  lemma ListingEmpty(s: seq<(string, string)>, m: map<string, string>)
    requires Listing(s, m)
    ensures s == [] <==> m == map[]
  {
    if s != [] {
      assert s[0].0 in m;
    } else {
      assert m.Keys == {};
    }
  }

  /** A map has only one sorted listing, whatever order its entries came in. */
  lemma {:induction false} ListingUnique(s: seq<(string, string)>, t: seq<(string, string)>, m: map<string, string>)
    requires Listing(s, m) && Listing(t, m)
    ensures s == t
    decreases |s|
  {
    ListingEmpty(s, m);
    ListingEmpty(t, m);
    if s != [] {
      ListingHeads(s, t, m);
      ListingUnique(s[1..], t[1..], m - {s[0].0});
      SameHeadTail(s, t);
    }
  }

  /** Two sorted listings of one map start with the same entry. */
  lemma ListingHeads(s: seq<(string, string)>, t: seq<(string, string)>, m: map<string, string>)
    requires Listing(s, m) && Listing(t, m) && s != [] && t != []
    ensures s[0] == t[0]
    ensures Listing(s[1..], m - {s[0].0}) && Listing(t[1..], m - {s[0].0})
  {
    ListingHead(s, m);
    ListingHead(t, m);
    BeforeTotal(s[0].0, t[0].0);
  }

  lemma SameHeadTail<T>(s: seq<T>, t: seq<T>)
    requires s != [] && t != [] && s[0] == t[0] && s[1..] == t[1..]
    ensures s == t
  {
    assert s == [s[0]] + s[1..] && t == [t[0]] + t[1..];
  }

  /** The ingredients of a listing, in order. */
  function Names(listing: seq<(string, string)>): (r: seq<string>)
    ensures |r| == |listing| && forall i :: 0 <= i < |r| ==> r[i] == listing[i].1
  {
    seq(|listing|, i requires 0 <= i < |listing| => listing[i].1)
  }

  /** The solved map collected into pairs, in some iteration order, and sorted. */
  method SortedAllergens(m: map<string, string>) returns (listing: seq<(string, string)>)
    ensures Listing(listing, m)
  {
    var keys := Elements(m.Keys);
    var pairs := seq(|keys|, i requires 0 <= i < |keys| => (keys[i], m[keys[i]]));
    listing := SortByKey(pairs);
    forall i | 0 <= i < |listing| ensures listing[i].0 in m && m[listing[i].0] == listing[i].1 {
      assert listing[i] in multiset(pairs);
    }
    forall a | a in m ensures exists i :: 0 <= i < |listing| && listing[i].0 == a {
      var j :| 0 <= j < |keys| && keys[j] == a;
      assert pairs[j] in multiset(listing);
    }
  }

  lemma {:induction false} JoinSnoc(pieces: seq<string>, x: string, c: char)
    requires |pieces| > 0
    ensures Join(pieces + [x], c) == Join(pieces, c) + [c] + x
  {
    if |pieces| > 1 {
      assert (pieces + [x])[1..] == pieces[1..] + [x];
      JoinSnoc(pieces[1..], x, c);
    }
  }

  /** The `for` loop of `part_2`: each ingredient, with a comma after all
      but the last. An empty listing makes `len() - 1` underflow, where the
      source panics; that is `None`. */
  method Dangerous(listing: seq<(string, string)>) returns (r: Option<string>)
    ensures r.Some? <==> |listing| > 0
    ensures r.Some? ==> r.value == Join(Names(listing), ',')
  {
    if |listing| == 0 {
      return None;
    }
    var lastIndex := |listing| - 1;
    var names := Names(listing);
    var dangerous := "";
    for i := 0 to |listing|
      invariant i == 0 ==> dangerous == ""
      invariant 0 < i ==> dangerous == Join(names[..i], ',') + (if i <= lastIndex then [','] else [])
    {
      if i > 0 {
        assert names[..i + 1] == names[..i] + [names[i]];
        JoinSnoc(names[..i], names[i], ',');
      } else {
        assert names[..1] == [names[0]];
      }
      dangerous := dangerous + listing[i].1;
      if i < lastIndex {
        dangerous := dangerous + [','];
      }
    }
    assert names[..|listing|] == names;
    r := Some(dangerous);
  }

  /** `part_2`: the ingredients of a reachable solution sorted by their
      allergen and joined with commas. */
  method Part2(foods: seq<Food>, order: seq<string>, fuel: nat) returns (r: Option<string>)
    requires AllergenOrder(foods, order)
    ensures r.Some? <==> Run(order, Start(Cands(foods)), fuel).Some? && Cands(foods) != map[]
    ensures r.Some? ==>
      var solution := Run(order, Start(Cands(foods)), fuel).value;
      Matched(foods, solution) &&
      exists listing :: Listing(listing, solution.allergens) && |listing| > 0 && r.value == Join(Names(listing), ',')
  {
    var m := MatchIngredients(foods, order, fuel);
    if m.None? {
      return None;
    }
    var s := m.value.1;
    var sorted := SortedAllergens(s.allergens);
    ListingEmpty(sorted, s.allergens);
    RunKeys(Cands(foods), order, Start(Cands(foods)), fuel);
    r := Dangerous(sorted);
  }
}
