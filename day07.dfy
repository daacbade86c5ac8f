/** Day 7: luggage rules. Each rule says which bags, and how many of each,
    a bag of some colour holds directly. Part 1 counts the colours that hold
    a shiny gold bag somewhere inside, part 2 the bags inside a shiny gold one. */
module Day07 {
  import opened Text
  import opened Folds

  /** An adjective and a colour. */
  type Bag = (string, string)

  /** `HashMap<Bag, HashMap<Bag, usize>>`: each bag's direct contents. */
  type Rules = map<Bag, map<Bag, nat>>

  const Shiny: Bag := ("shiny", "gold")

  /** The `chunks(4)` loop of `parse`: "count adj colour bag(s)" inserts an
      entry, a final "no other bags." adds nothing; anything else, or a count
      that is not a number, fails (the source's `unwrap` and `unreachable!`). */
  function ParseContents(rest: seq<string>, value: map<Bag, nat>): (r: Option<map<Bag, nat>>)
    ensures r.Some? ==> value.Keys <= r.value.Keys
    ensures |rest| >= 4 && ParseNat(rest[0]).None? ==> r.None?
    ensures 0 < |rest| < 4 && rest != ["no", "other", "bags."] ==> r.None?
    ensures |rest| % 4 == 1 || |rest| % 4 == 2 ==> r.None?
    decreases |rest|
  {
    if rest == [] then Some(value)
    else if |rest| >= 4 then
      match ParseNat(rest[0])
      case None => None
      case Some(n) => ParseContents(rest[4..], value[(rest[1], rest[2]) := n])
    else if rest == ["no", "other", "bags."] then Some(value)
    else None
  }

  /** One rule: "adj colour bags contain" and then its contents. */
  function ParseRuleWords(words: seq<string>): (r: Option<(Bag, map<Bag, nat>)>)
    ensures r.Some? ==> |words| >= 4 && words[2] == "bags" && words[3] == "contain" && r.value.0 == (words[0], words[1])
  {
    if |words| >= 4 && words[2] == "bags" && words[3] == "contain" then
      match ParseContents(words[4..], map[])
      case None => None
      case Some(value) => Some(((words[0], words[1]), value))
    else None
  }

  function ParseRuleLine(line: string): Option<(Bag, map<Bag, nat>)>
  {
    ParseRuleWords(SplitWhitespace(line))
  }

  /** The words `parse` reads for a list of contents. */
  function ChunkWords(entries: seq<(nat, Bag)>): seq<string>
  {
    if entries == [] then [] else [ShowNat(entries[0].0), entries[0].1.0, entries[0].1.1, "bags,"] + ChunkWords(entries[1..])
  }

  /** The map the entries make when inserted in order, later ones overwriting. */
  function InsertAll(value: map<Bag, nat>, entries: seq<(nat, Bag)>): map<Bag, nat>
    decreases |entries|
  {
    if entries == [] then value else InsertAll(value[entries[0].1 := entries[0].0], entries[1..])
  }

  /** Contents written as four-word chunks, or as "no other bags.", read back
      as the entries they list. */
  lemma {:induction false} ParseChunkWords(entries: seq<(nat, Bag)>, value: map<Bag, nat>)
    ensures ParseContents(ChunkWords(entries), value) == Some(InsertAll(value, entries))
    ensures ParseContents(["no", "other", "bags."], value) == Some(value)
  {
    if entries != [] {
      var w := ChunkWords(entries);
      assert w[4..] == ChunkWords(entries[1..]);
      assert w[0] == ShowNat(entries[0].0) && (w[1], w[2]) == entries[0].1;
      ParseShowNat(entries[0].0);
      var v' := value[entries[0].1 := entries[0].0];
      assert ParseContents(w, value) == ParseContents(w[4..], v');
      ParseChunkWords(entries[1..], v');
      assert InsertAll(value, entries) == InsertAll(v', entries[1..]);
    }
  }

  /** A rule line of the example, as its words. */
  lemma ExampleRule(words: seq<string>)
    requires words == ["light", "red", "bags", "contain", "1", "bright", "white", "bag,", "2", "muted", "yellow", "bags."]
    ensures ParseRuleWords(words) == Some((("light", "red"), map[("bright", "white") := 1, ("muted", "yellow") := 2]))
  {
    var rest := words[4..];
    assert ParseNat("1") == Some(1) && ParseNat("2") == Some(2);
    var m1 := map[("bright", "white") := 1];
    assert ParseContents(rest, map[]) == ParseContents(rest[4..], m1);
    assert ParseContents(rest[4..], m1) == ParseContents(rest[4..][4..], m1[("muted", "yellow") := 2]);
    assert rest[4..][4..] == [];
    assert map[("bright", "white") := 1][("muted", "yellow") := 2] == map[("bright", "white") := 1, ("muted", "yellow") := 2];
  }

  /** The rules the lines make, a later rule for the same bag replacing an earlier one. */
  function ParseSpec(lines: seq<string>): Option<Rules>
  {
    if lines == [] then Some(map[])
    else
      match ParseSpec(lines[..|lines| - 1])
      case None => None
      case Some(rules) =>
        match ParseRuleLine(lines[|lines| - 1])
        case None => None
        case Some((key, value)) => Some(rules[key := value])
  }

  /** `parse`: the line loop inserting each rule. */
  method Parse(lines: seq<string>) returns (r: Option<Rules>)
    ensures r == ParseSpec(lines)
  {
    var rules: Rules := map[];
    for i := 0 to |lines|
      invariant ParseSpec(lines[..i]) == Some(rules)
    {
      assert lines[..i + 1][..i] == lines[..i];
      match ParseRuleLine(lines[i]) {
        case None =>
          FailedStays(lines, i + 1);
          return None;
        case Some((key, value)) =>
          rules := rules[key := value];
      }
    }
    assert lines[..|lines|] == lines;
    return Some(rules);
  }

  lemma {:induction false} FailedStays(lines: seq<string>, i: nat)
    requires i <= |lines| && ParseSpec(lines[..i]).None?
    ensures ParseSpec(lines).None?
    decreases |lines| - i
  {
    if i < |lines| {
      assert lines[..i + 1][..i] == lines[..i];
      FailedStays(lines, i + 1);
    } else {
      assert lines[..i] == lines;
    }
  }

  /** `outer` holds `inner` directly. */
  predicate Direct(rules: Rules, outer: Bag, inner: Bag)
  {
    outer in rules && inner in rules[outer]
  }

  /** The first loop of `part_1`: for every bag, the list of the bags that
      hold it directly, in the maps' iteration order. */
  method Outers(rules: Rules) returns (outers: map<Bag, seq<Bag>>)
    ensures forall inner :: inner in outers ==> |outers[inner]| > 0
    ensures forall inner, o :: inner in outers && o in outers[inner] <==> Direct(rules, o, inner)
  {
    outers := map[];
    var keys := Elements(rules.Keys);
    for i := 0 to |keys|
      invariant forall inner :: inner in outers ==> |outers[inner]| > 0
      invariant forall inner, o :: inner in outers && o in outers[inner] <==> o in keys[..i] && Direct(rules, o, inner)
    {
      var outer := keys[i];
      var inners := Elements(rules[outer].Keys);
      for j := 0 to |inners|
        invariant forall inner :: inner in outers ==> |outers[inner]| > 0
        invariant forall inner, o :: inner in outers && o in outers[inner] <==>
          (o in keys[..i] && Direct(rules, o, inner)) || (o == outer && inner in inners[..j])
      {
        var inner := inners[j];
        assert inners[..j + 1] == inners[..j] + [inner];
        var entry := if inner in outers then outers[inner] else [];
        outers := outers[inner := entry + [outer]];
      }
      assert inners[..|inners|] == inners;
      assert keys[..i + 1] == keys[..i] + [outer];
    }
    assert keys[..|keys|] == keys;
  }

  /** A chain of direct holdings, each bag holding the next. */
  ghost predicate IsChain(rules: Rules, chain: seq<Bag>)
    decreases |chain|
  {
    |chain| >= 2 && Direct(rules, chain[0], chain[1]) && (|chain| > 2 ==> IsChain(rules, chain[1..]))
  }

  /** `outer` holds `target` somewhere inside: a chain leads from one to the other. */
  ghost predicate Holds(rules: Rules, outer: Bag, target: Bag)
  {
    exists chain :: IsChain(rules, chain) && chain[0] == outer && chain[|chain| - 1] == target
  }

  /** The bags holding a shiny gold one somewhere inside; every one of them is a rule's key. */
  ghost function Holders(rules: Rules): set<Bag>
  {
    set b | b in rules.Keys && Holds(rules, b, Shiny)
  }

  lemma HoldsDirect(rules: Rules, outer: Bag, target: Bag)
    requires Direct(rules, outer, target)
    ensures Holds(rules, outer, target)
  {
    assert IsChain(rules, [outer, target]);
  }

  lemma HoldsExtend(rules: Rules, outer: Bag, b: Bag, target: Bag)
    requires Direct(rules, outer, b) && Holds(rules, b, target)
    ensures Holds(rules, outer, target)
  {
    var chain :| IsChain(rules, chain) && chain[0] == b && chain[|chain| - 1] == target;
    var longer := [outer] + chain;
    assert longer[1..] == chain;
    assert IsChain(rules, longer);
  }

  /** The search of `part_1` has found every holder once no bag is left to
      visit: every bag holding a found one (or shiny gold) directly is found. */
  lemma HoldersFound(rules: Rules, found: set<Bag>)
    requires forall b, o :: (b in found || b == Shiny) && Direct(rules, o, b) ==> o in found
    ensures forall x :: Holds(rules, x, Shiny) ==> x in found
  {
    forall x | Holds(rules, x, Shiny) ensures x in found {
      var chain :| IsChain(rules, chain) && chain[0] == x && chain[|chain| - 1] == Shiny;
      ChainFound(rules, found, chain);
    }
  }

  lemma {:induction false} ChainFound(rules: Rules, found: set<Bag>, chain: seq<Bag>)
    requires forall b, o :: (b in found || b == Shiny) && Direct(rules, o, b) ==> o in found
    requires IsChain(rules, chain) && chain[|chain| - 1] == Shiny
    ensures chain[0] in found
    decreases |chain|
  {
    if |chain| > 2 {
      ChainFound(rules, found, chain[1..]);
    }
    assert Direct(rules, chain[0], chain[1]);
  }

  /** What `Outers` computes: the bags listed under `inner` are exactly those holding it directly. */
  ghost predicate OuterLists(rules: Rules, outers: map<Bag, seq<Bag>>)
  {
    forall inner, o :: inner in outers && o in outers[inner] <==> Direct(rules, o, inner)
  }

  /** The lists of the bags found (and of shiny gold) are emptied, the others untouched. */
  ghost predicate Drained(orig: map<Bag, seq<Bag>>, outers: map<Bag, seq<Bag>>, outermost: set<Bag>)
  {
    outers.Keys == orig.Keys && forall b :: b in outers ==> outers[b] == (if b in outermost || b == Shiny then [] else orig[b])
  }

  /** Everything directly holding a found bag (or shiny gold) is found or waiting. */
  ghost predicate Covered(orig: map<Bag, seq<Bag>>, outermost: set<Bag>, toVisit: seq<Bag>)
  {
    forall b, o :: (b in outermost || b == Shiny) && b in orig && o in orig[b] ==> o in outermost || o in toVisit
  }

  /** Everything found or waiting is a rule's key and holds shiny gold. */
  ghost predicate Sound(rules: Rules, outermost: set<Bag>, toVisit: seq<Bag>)
  {
    (forall x :: x in outermost ==> x in rules && Holds(rules, x, Shiny))
    && (forall x :: x in toVisit ==> x in rules && Holds(rules, x, Shiny))
  }

  /** The state of the search of `part_1`. */
  ghost predicate Search(rules: Rules, orig: map<Bag, seq<Bag>>, outers: map<Bag, seq<Bag>>, outermost: set<Bag>, toVisit: seq<Bag>)
  {
    Drained(orig, outers, outermost) && Covered(orig, outermost, toVisit) && Sound(rules, outermost, toVisit)
  }

  lemma SearchStart(rules: Rules, orig: map<Bag, seq<Bag>>)
    requires OuterLists(rules, orig) && Shiny in orig
    ensures Search(rules, orig, orig[Shiny := []], {}, orig[Shiny])
  {
    forall x | x in orig[Shiny] ensures x in rules && Holds(rules, x, Shiny) {
      HoldsDirect(rules, x, Shiny);
    }
  }

  /** Popping a bag found before changes nothing else. */
  lemma SearchSkip(rules: Rules, orig: map<Bag, seq<Bag>>, outers: map<Bag, seq<Bag>>, outermost: set<Bag>, toVisit: seq<Bag>)
    requires Search(rules, orig, outers, outermost, toVisit) && toVisit != [] && toVisit[|toVisit| - 1] in outermost
    ensures Search(rules, orig, outers, outermost, toVisit[..|toVisit| - 1])
  {
    var init := toVisit[..|toVisit| - 1];
    assert toVisit == init + [toVisit[|toVisit| - 1]];
    SkipPop(rules, orig, outers, outermost, init, toVisit[|toVisit| - 1]);
  }

  lemma SkipPop(rules: Rules, orig: map<Bag, seq<Bag>>, outers: map<Bag, seq<Bag>>, outermost: set<Bag>, init: seq<Bag>, bag: Bag)
    requires Search(rules, orig, outers, outermost, init + [bag]) && bag in outermost
    ensures Search(rules, orig, outers, outermost, init)
  {
    forall b, o | (b in outermost || b == Shiny) && b in orig && o in orig[b] ensures o in outermost || o in init {
      assert o in outermost || o in init + [bag];
    }
    forall x | x in init ensures x in rules && Holds(rules, x, Shiny) {
      assert x in init + [bag];
    }
  }

  /** Popping a new bag: it is found, and its list moves onto the stack. */
  lemma SearchVisit(rules: Rules, orig: map<Bag, seq<Bag>>, outers: map<Bag, seq<Bag>>, outermost: set<Bag>, toVisit: seq<Bag>)
    requires OuterLists(rules, orig) && Search(rules, orig, outers, outermost, toVisit)
    requires toVisit != [] && toVisit[|toVisit| - 1] !in outermost && toVisit[|toVisit| - 1] in outers
    ensures var bag := toVisit[|toVisit| - 1];
      bag in rules && Search(rules, orig, outers[bag := []], outermost + {bag}, toVisit[..|toVisit| - 1] + outers[bag])
  {
    var bag := toVisit[|toVisit| - 1];
    var init := toVisit[..|toVisit| - 1];
    assert toVisit == init + [bag];
    VisitDrains(orig, outers, outermost, bag);
    VisitCovers(orig, outers, outermost, init, bag);
    VisitSound(rules, orig, outers, outermost, init, bag);
  }

  lemma VisitDrains(orig: map<Bag, seq<Bag>>, outers: map<Bag, seq<Bag>>, outermost: set<Bag>, bag: Bag)
    requires Drained(orig, outers, outermost) && bag in outers
    ensures Drained(orig, outers[bag := []], outermost + {bag})
  {
  }

  lemma VisitCovers(orig: map<Bag, seq<Bag>>, outers: map<Bag, seq<Bag>>, outermost: set<Bag>, init: seq<Bag>, bag: Bag)
    requires Drained(orig, outers, outermost) && Covered(orig, outermost, init + [bag])
    requires bag in outers && bag !in outermost
    ensures Covered(orig, outermost + {bag}, init + outers[bag])
  {
    forall b, o | (b in outermost + {bag} || b == Shiny) && b in orig && o in orig[b]
      ensures o in outermost + {bag} || o in init + outers[bag]
    {
      if b == bag && bag != Shiny {
        assert o in outers[bag];
      } else {
        assert o in outermost || o in init + [bag];
      }
    }
  }

  lemma VisitSound(rules: Rules, orig: map<Bag, seq<Bag>>, outers: map<Bag, seq<Bag>>, outermost: set<Bag>, init: seq<Bag>, bag: Bag)
    requires OuterLists(rules, orig) && Drained(orig, outers, outermost) && Sound(rules, outermost, init + [bag]) && bag in outers
    ensures Sound(rules, outermost + {bag}, init + outers[bag])
  {
    assert bag in init + [bag];
    forall x | x in outers[bag] ensures x in rules && Holds(rules, x, Shiny) {
      HoldsExtend(rules, x, bag, Shiny);
    }
    forall x | x in init ensures x in rules && Holds(rules, x, Shiny) {
      assert x in init + [bag];
    }
  }

  /** Popping a new bag that nobody holds: it is found, and nothing is pushed. */
  lemma SearchVisitRoot(rules: Rules, orig: map<Bag, seq<Bag>>, outers: map<Bag, seq<Bag>>, outermost: set<Bag>, toVisit: seq<Bag>)
    requires Search(rules, orig, outers, outermost, toVisit)
    requires toVisit != [] && toVisit[|toVisit| - 1] !in outermost && toVisit[|toVisit| - 1] !in outers
    ensures var bag := toVisit[|toVisit| - 1];
      bag in rules && Search(rules, orig, outers, outermost + {bag}, toVisit[..|toVisit| - 1])
  {
    var bag := toVisit[|toVisit| - 1];
    var init := toVisit[..|toVisit| - 1];
    assert toVisit == init + [bag];
    RootPop(rules, orig, outers, outermost, init, bag);
  }

  lemma RootPop(rules: Rules, orig: map<Bag, seq<Bag>>, outers: map<Bag, seq<Bag>>, outermost: set<Bag>, init: seq<Bag>, bag: Bag)
    requires Search(rules, orig, outers, outermost, init + [bag]) && bag !in outermost && bag !in outers
    ensures bag in rules && Search(rules, orig, outers, outermost + {bag}, init)
  {
    assert bag in init + [bag];
    assert bag !in orig;
    forall b, o | (b in outermost + {bag} || b == Shiny) && b in orig && o in orig[b] ensures o in outermost + {bag} || o in init {
      assert o in outermost || o in init + [bag];
    }
    forall x | x in init ensures x in rules && Holds(rules, x, Shiny) {
      assert x in init + [bag];
    }
    forall x | x in outermost + {bag} ensures x in rules && Holds(rules, x, Shiny) {
    }
  }

  /** An empty stack: the found bags are exactly the holders. */
  lemma SearchEnd(rules: Rules, orig: map<Bag, seq<Bag>>, outers: map<Bag, seq<Bag>>, outermost: set<Bag>)
    requires OuterLists(rules, orig) && Search(rules, orig, outers, outermost, [])
    ensures outermost == Holders(rules)
  {
    HoldersFound(rules, outermost);
  }

  /** `part_1`: a depth-first search over the reversed rules from shiny gold.
      Each list of holders is moved onto the stack (and so emptied) the first
      time its bag is found; the count is the number of bags found. The
      source's `unwrap` needs some bag to hold shiny gold directly. */
  method Part1(rules: Rules) returns (n: nat)
    requires exists o :: Direct(rules, o, Shiny)
    ensures n == |Holders(rules)|
  {
    var outers := Outers(rules);
    ghost var orig := outers;
    assert Shiny in outers by {
      var o :| Direct(rules, o, Shiny);
      assert Shiny in outers && o in outers[Shiny];
    }
    SearchStart(rules, orig);
    var outermost: set<Bag> := {};
    var toVisit := outers[Shiny];
    outers := outers[Shiny := []];
    while toVisit != []
      invariant Search(rules, orig, outers, outermost, toVisit)
      invariant outermost <= rules.Keys
      decreases |rules.Keys - outermost|, |toVisit|
    {
      var bag := toVisit[|toVisit| - 1];
      if bag in outermost {
        SearchSkip(rules, orig, outers, outermost, toVisit);
        toVisit := toVisit[..|toVisit| - 1];
      } else {
        if bag in outers {
          SearchVisit(rules, orig, outers, outermost, toVisit);
          toVisit := toVisit[..|toVisit| - 1] + outers[bag];
          outers := outers[bag := []];
        } else {
          SearchVisitRoot(rules, orig, outers, outermost, toVisit);
          toVisit := toVisit[..|toVisit| - 1];
        }
        assert rules.Keys - (outermost + {bag}) < rules.Keys - outermost;
        outermost := outermost + {bag};
      }
    }
    SearchEnd(rules, orig, outers, outermost);
    n := |outermost|;
  }

  /** Rules without a cycle, every bag named inside being a rule's key: `rank`
      strictly drops from a bag to anything it holds. */
  ghost predicate Ranked(rules: Rules, rank: map<Bag, nat>)
  {
    rules.Keys <= rank.Keys && forall b, e :: b in rules && e in rules[b] ==> e in rules && rank[e] < rank[b]
  }

  /** The number of bags a bag makes up, itself included:
      1 + Σ count · Total(inner). */
  ghost function Total(rules: Rules, rank: map<Bag, nat>, b: Bag): int
    requires Ranked(rules, rank) && b in rules
    decreases rank[b]
  {
    1 + SetSum(rules[b].Keys, e => if e in rules[b] && e in rules && rank[e] < rank[b] then rules[b][e] * Total(rules, rank, e) else 0)
  }

  lemma {:induction false} TotalPositive(rules: Rules, rank: map<Bag, nat>, b: Bag)
    requires Ranked(rules, rank) && b in rules
    ensures Total(rules, rank, b) >= 1
    decreases rank[b]
  {
    var f := e => if e in rules[b] && e in rules && rank[e] < rank[b] then rules[b][e] * Total(rules, rank, e) else 0;
    forall e | e in rules[b].Keys ensures f(e) >= 0 {
      TotalPositive(rules, rank, e);
    }
    SetSumNonNegative(rules[b].Keys, f);
  }

  /** A contents map weighed by settled totals: count · total of each inner bag. */
  function Weigh(inside: map<Bag, nat>, contains: map<Bag, int>): Bag -> int
  {
    e => if e in inside && e in contains then inside[e] * contains[e] else 0
  }

  /** The inner loop of `part_2`: counts over a bag's contents in iteration
      order, and notes whether every inner bag is already settled. */
  method SumInside(inside: map<Bag, nat>, contains: map<Bag, int>) returns (known: bool, count: int)
    ensures known <==> inside.Keys <= contains.Keys
    ensures known ==> count == SetSum(inside.Keys, Weigh(inside, contains))
  {
    var keys := Elements(inside.Keys);
    known, count := true, 0;
    ghost var done: set<Bag> := {};
    for i := 0 to |keys|
      invariant forall k :: k in done <==> k in keys[..i]
      invariant known <==> done <= contains.Keys
      invariant known ==> count == SetSum(done, Weigh(inside, contains))
    {
      var e := keys[i];
      assert keys[..i + 1] == keys[..i] + [e];
      assert e !in done by {
        forall j | 0 <= j < i ensures keys[..i][j] != e {
          assert keys[..i][j] == keys[j];
        }
      }
      if e in contains {
        SetSumAdd(done, Weigh(inside, contains), e);
        count := count + inside[e] * contains[e];
      } else {
        known := false;
      }
      done := done + {e};
    }
    assert keys[..|keys|] == keys;
    assert done == inside.Keys;
  }

  /** Some bag still to visit is settleable. */
  ghost predicate HasSettleable(rules: Rules, contains: map<Bag, int>, q: seq<Bag>)
  {
    exists i :: 0 <= i < |q| && Settleable(rules, contains, q[i])
  }

  /** A bag ready to be settled: everything it holds already is. */
  ghost predicate Settleable(rules: Rules, contains: map<Bag, int>, b: Bag)
  {
    b in rules && rules[b].Keys <= contains.Keys
  }

  /** How many pops, from the back, until a settleable bag comes up. */
  ghost function Nearest(rules: Rules, contains: map<Bag, int>, q: seq<Bag>): nat
    requires HasSettleable(rules, contains, q)
  {
    if Settleable(rules, contains, q[|q| - 1]) then 0
    else
      assert HasSettleable(rules, contains, q[..|q| - 1]) by {
        var i :| 0 <= i < |q| && Settleable(rules, contains, q[i]);
        assert q[..|q| - 1][i] == q[i];
      }
      1 + Nearest(rules, contains, q[..|q| - 1])
  }

  lemma {:induction false} NearestPrepend(rules: Rules, contains: map<Bag, int>, x: Bag, q: seq<Bag>)
    requires HasSettleable(rules, contains, q)
    ensures HasSettleable(rules, contains, [x] + q)
    ensures Nearest(rules, contains, [x] + q) == Nearest(rules, contains, q)
  {
    var i :| 0 <= i < |q| && Settleable(rules, contains, q[i]);
    assert ([x] + q)[i + 1] == q[i];
    if !Settleable(rules, contains, q[|q| - 1]) {
      assert ([x] + q)[..|q|] == [x] + q[..|q| - 1];
      assert q[..|q| - 1][i] == q[i];
      NearestPrepend(rules, contains, x, q[..|q| - 1]);
    }
  }

  /** The state of the queue of `part_2`: every bag is settled or waiting,
      and every settled bag carries its total. */
  ghost predicate Queue(rules: Rules, rank: map<Bag, nat>, contains: map<Bag, int>, toVisit: seq<Bag>)
  {
    && Ranked(rules, rank)
    && (forall b :: b in rules ==> b in contains || b in toVisit)
    && (forall i :: 0 <= i < |toVisit| ==> toVisit[i] in rules)
    && (forall b :: b in contains ==> b in rules && contains[b] == Total(rules, rank, b))
  }

  /** The lowest-ranked bag still to visit is settleable: whatever it holds
      ranks lower, so it is not waiting. */
  lemma SettleableExists(rules: Rules, rank: map<Bag, nat>, contains: map<Bag, int>, q: seq<Bag>)
    requires Queue(rules, rank, contains, q) && q != []
    ensures HasSettleable(rules, contains, q)
  {
    var m := LowestRank(rank, q, |q|);
    forall e | e in rules[q[m]] ensures e in contains {
      assert forall j :: 0 <= j < |q| ==> q[j] != e;
    }
    assert Settleable(rules, contains, q[m]);
  }

  lemma {:induction false} LowestRank(rank: map<Bag, nat>, q: seq<Bag>, n: nat) returns (m: nat)
    requires 0 < n <= |q| && forall i :: 0 <= i < |q| ==> q[i] in rank
    ensures m < n && forall j :: 0 <= j < n ==> rank[q[m]] <= rank[q[j]]
  {
    if n == 1 {
      m := 0;
    } else {
      m := LowestRank(rank, q, n - 1);
      if rank[q[n - 1]] < rank[q[m]] {
        m := n - 1;
      }
    }
  }

  /** A settleable bag's total is one more than its contents weighed by the settled totals. */
  lemma TotalSettled(rules: Rules, rank: map<Bag, nat>, contains: map<Bag, int>, toVisit: seq<Bag>, b: Bag)
    requires Queue(rules, rank, contains, toVisit) && Settleable(rules, contains, b)
    ensures Total(rules, rank, b) == 1 + SetSum(rules[b].Keys, Weigh(rules[b], contains))
  {
    SetSumCongruent(rules[b].Keys, Weigh(rules[b], contains),
      e => if e in rules[b] && e in rules && rank[e] < rank[b] then rules[b][e] * Total(rules, rank, e) else 0);
  }

  /** Settling the popped bag with its total keeps the queue's state. */
  lemma QueueSettle(rules: Rules, rank: map<Bag, nat>, contains: map<Bag, int>, toVisit: seq<Bag>)
    requires Queue(rules, rank, contains, toVisit) && toVisit != []
    ensures var bag := toVisit[|toVisit| - 1];
      var q := toVisit[..|toVisit| - 1];
      var c := contains[bag := Total(rules, rank, bag)];
      Queue(rules, rank, c, q) && (q != [] ==> HasSettleable(rules, c, q))
  {
    var bag := toVisit[|toVisit| - 1];
    var q := toVisit[..|toVisit| - 1];
    var c := contains[bag := Total(rules, rank, bag)];
    QueueSettleState(rules, rank, contains, q, bag);
    assert toVisit == q + [bag];
    if q != [] {
      SettleableExists(rules, rank, c, q);
    }
  }

  /** `QueueSettle` on the popped bag and the rest of the queue, apart. */
  lemma QueueSettleState(rules: Rules, rank: map<Bag, nat>, contains: map<Bag, int>, q: seq<Bag>, bag: Bag)
    requires Queue(rules, rank, contains, q + [bag]) && bag in rules
    ensures Queue(rules, rank, contains[bag := Total(rules, rank, bag)], q)
  {
    var toVisit := q + [bag];
    var c := contains[bag := Total(rules, rank, bag)];
    assert bag == toVisit[|q|];
    forall b | b in rules ensures b in c || b in q {
      if b !in contains {
        var i :| 0 <= i < |toVisit| && toVisit[i] == b;
        if i < |q| {
          assert q[i] == b;
        }
      }
    }
    forall i | 0 <= i < |q| ensures q[i] in rules {
      assert q[i] == toVisit[i];
    }
  }

  /** Moving the popped bag to the front keeps the queue's state. */
  lemma QueueRequeue(rules: Rules, rank: map<Bag, nat>, contains: map<Bag, int>, toVisit: seq<Bag>)
    requires Queue(rules, rank, contains, toVisit) && toVisit != []
    ensures Queue(rules, rank, contains, [toVisit[|toVisit| - 1]] + toVisit[..|toVisit| - 1])
  {
    var bag := toVisit[|toVisit| - 1];
    var init := toVisit[..|toVisit| - 1];
    var q := [bag] + init;
    assert forall b :: b in toVisit <==> b in q by {
      assert toVisit == init + [bag];
    }
    assert forall i :: 0 <= i < |q| ==> q[i] in toVisit;
  }

  /** Moving an unsettleable popped bag to the front brings the next
      settleable one a pop nearer. */
  lemma NearerRequeue(rules: Rules, contains: map<Bag, int>, toVisit: seq<Bag>)
    requires HasSettleable(rules, contains, toVisit) && !Settleable(rules, contains, toVisit[|toVisit| - 1])
    ensures var q := [toVisit[|toVisit| - 1]] + toVisit[..|toVisit| - 1];
      HasSettleable(rules, contains, q) && Nearest(rules, contains, q) < Nearest(rules, contains, toVisit)
  {
    var bag := toVisit[|toVisit| - 1];
    var init := toVisit[..|toVisit| - 1];
    assert HasSettleable(rules, contains, init) by {
      var i :| 0 <= i < |toVisit| && Settleable(rules, contains, toVisit[i]);
      assert init[i] == toVisit[i];
    }
    NearestPrepend(rules, contains, bag, init);
  }

  /** `part_2`: a queue of every bag; a bag whose contents are all settled
      gets 1 + Σ count · settled total, otherwise it goes back to the front.
      The answer leaves out the shiny gold bag itself. The source only ends
      on rules without cycles whose inner bags all have rules, which `rank`
      witnesses. */
  method Part2(rules: Rules, ghost rank: map<Bag, nat>) returns (n: int)
    requires Ranked(rules, rank) && Shiny in rules
    ensures n == Total(rules, rank, Shiny) - 1 && n >= 0
  {
    var contains: map<Bag, int> := map[];
    var toVisit := Elements(rules.Keys);
    if toVisit != [] {
      SettleableExists(rules, rank, contains, toVisit);
    }
    while toVisit != []
      invariant Queue(rules, rank, contains, toVisit)
      invariant toVisit != [] ==> HasSettleable(rules, contains, toVisit)
      decreases |toVisit|, if toVisit == [] then 0 else Nearest(rules, contains, toVisit)
    {
      contains, toVisit := Visit(rules, rank, contains, toVisit);
    }
    TotalPositive(rules, rank, Shiny);
    n := contains[Shiny] - 1;
  }

  /** One turn of the loop of `part_2`: the bag at the back of the queue is
      settled with its total when all it holds is settled, and otherwise goes
      back to the front, a pop nearer to the next settleable bag. */
  method Visit(rules: Rules, ghost rank: map<Bag, nat>, contains: map<Bag, int>, toVisit: seq<Bag>)
    returns (contains': map<Bag, int>, toVisit': seq<Bag>)
    requires Queue(rules, rank, contains, toVisit) && HasSettleable(rules, contains, toVisit)
    ensures Queue(rules, rank, contains', toVisit')
    ensures toVisit' != [] ==> HasSettleable(rules, contains', toVisit')
    ensures |toVisit'| < |toVisit| ||
      (|toVisit'| == |toVisit| && HasSettleable(rules, contains', toVisit') &&
       Nearest(rules, contains', toVisit') < Nearest(rules, contains, toVisit))
  {
    var bag := toVisit[|toVisit| - 1];
    var inside := rules[bag];
    if inside == map[] {
      assert Settleable(rules, contains, bag);
      TotalSettled(rules, rank, contains, toVisit, bag);
      QueueSettle(rules, rank, contains, toVisit);
      contains' := contains[bag := 1];
      toVisit' := toVisit[..|toVisit| - 1];
    } else {
      var known, count := SumInside(inside, contains);
      if known {
        TotalSettled(rules, rank, contains, toVisit, bag);
        QueueSettle(rules, rank, contains, toVisit);
        contains' := contains[bag := count + 1];
        toVisit' := toVisit[..|toVisit| - 1];
      } else {
        QueueRequeue(rules, rank, contains, toVisit);
        NearerRequeue(rules, contains, toVisit);
        contains' := contains;
        toVisit' := [bag] + toVisit[..|toVisit| - 1];
      }
    }
  }
}
