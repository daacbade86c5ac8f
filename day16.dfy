/** Day 16: ticket translation. Rules name two inclusive ranges each; a
    field is valid for a rule when it lies in either range. Part 1 sums the
    fields of nearby tickets that no rule accepts; part 2 keeps the valid
    tickets, works out for every rule the positions all of them accept, and
    assigns positions to rules with a worklist that settles a rule once one
    position is left for it. */
module Day16 {
  import opened Text
  import opened Seqs
  import opened Folds
  import opened Matching

  /** `RangeInclusive<usize>`. */
  datatype Range = Range(start: nat, end: nat)

  /** `RangeInclusive::contains`. */
  predicate InRange(r: Range, x: nat)
  {
    r.start <= x <= r.end
  }

  /** A rule: two ranges. */
  datatype Rule = Rule(first: Range, second: Range)

  /** `rule.0.contains(field) || rule.1.contains(field)`. */
  predicate Satisfies(rule: Rule, x: nat)
  {
    InRange(rule.first, x) || InRange(rule.second, x)
  }

  type Ticket = seq<nat>

  datatype Input = Input(rules: map<string, Rule>, myTicket: Ticket, nearby: seq<Ticket>)

  // Parsing. Every `unwrap` that would panic gives `None`.

  /** `parse_range`: two numbers around a `-`. */
  function ParseRange(s: string): Option<Range>
  {
    match SplitOnce(s, "-")
    case None => None
    case Some((a, b)) =>
      match (ParseNat(a), ParseNat(b))
      case (Some(x), Some(y)) => Some(Range(x, y))
      case _ => None
  }

  function ShowRange(r: Range): string
  {
    ShowNat(r.start) + "-" + ShowNat(r.end)
  }

  lemma ParseShowRange(r: Range)
    ensures ParseRange(ShowRange(r)) == Some(r)
  {
    SplitOnceAt(ShowNat(r.start), "-", ShowNat(r.end));
    ParseShowNat(r.start);
    ParseShowNat(r.end);
  }

  /** `Rule::parse`: two ranges around ` or `. */
  function ParseRule(s: string): Option<Rule>
  {
    match SplitOnce(s, " or ")
    case None => None
    case Some((a, b)) =>
      match (ParseRange(a), ParseRange(b))
      case (Some(x), Some(y)) => Some(Rule(x, y))
      case _ => None
  }

  function ShowRule(rule: Rule): string
  {
    ShowRange(rule.first) + " or " + ShowRange(rule.second)
  }

  lemma ParseShowRule(rule: Rule)
    ensures ParseRule(ShowRule(rule)) == Some(rule)
  {
    var a := ShowRange(rule.first);
    assert ' ' !in a by {
      assert a == ShowNat(rule.first.start) + "-" + ShowNat(rule.first.end);
    }
    SplitOnceAt(a, " or ", ShowRange(rule.second));
    ParseShowRange(rule.first);
    ParseShowRange(rule.second);
  }

  /** One line of `Rules::parse`: the name, `: `, and the rule. */
  function ParseRuleLine(line: string): Option<(string, Rule)>
  {
    match SplitOnce(line, ": ")
    case None => None
    case Some((k, v)) =>
      match ParseRule(v)
      case None => None
      case Some(rule) => Some((k, rule))
  }

  function ShowRuleLine(name: string, rule: Rule): string
  {
    name + ": " + ShowRule(rule)
  }

  lemma ParseShowRuleLine(name: string, rule: Rule)
    requires ':' !in name
    ensures ParseRuleLine(ShowRuleLine(name, rule)) == Some((name, rule))
  {
    SplitOnceAt(name, ": ", ShowRule(rule));
    ParseShowRule(rule);
  }

  /** `Rules::parse`: the lines collected into a map, a later rule of the same
      name replacing an earlier one. */
  function ParseRules(s: string): Option<map<string, Rule>>
  {
    match ParseEach(Lines(s), ParseRuleLine)
    case None => None
    case Some(pairs) => Some(Collect(pairs))
  }

  /** `Ticket::parse`. */
  function ParseTicket(s: string): Option<Ticket>
  {
    ParseNumbers(Split(s, ','))
  }

  /** `parse`: drop the final newline, split into sections at blank lines,
      take the rules, the second line of the second section and the lines of
      the third section after its heading. */
  function Parse(input: string): Option<Input>
  {
    var text := if input == [] then input else input[..|input| - 1];
    var sections := SplitOn(text, "\n\n");
    if |sections| < 3 then None
    else
      var mine := Split(sections[1], '\n');
      var nearby := Split(sections[2], '\n');
      if |mine| < 2 then None
      else
        match (ParseRules(sections[0]), ParseTicket(mine[1]), ParseEach(nearby[1..], ParseTicket))
        case (Some(rules), Some(my), Some(tickets)) => Some(Input(rules, my, tickets))
        case _ => None
  }

  /** The input file for rules written line by line, my ticket and the nearby
      tickets. */
  function ShowInput(rules: seq<(string, Rule)>, my: Ticket, nearby: seq<Ticket>): string
    requires |rules| > 0 && |my| > 0
    requires forall i :: 0 <= i < |nearby| ==> |nearby[i]| > 0
  {
    RulesText(rules) + "\n\n" + (MyText(my) + "\n\n" + NearbyText(nearby)) + "\n"
  }

  function MyText(my: Ticket): string
    requires |my| > 0
  {
    "your ticket:\n" + ShowNumbers(my)
  }

  function RuleLines(rules: seq<(string, Rule)>): (r: seq<string>)
    ensures |r| == |rules|
  {
    seq(|rules|, i requires 0 <= i < |rules| => ShowRuleLine(rules[i].0, rules[i].1))
  }

  function RulesText(rules: seq<(string, Rule)>): string
    requires |rules| > 0
  {
    Join(RuleLines(rules), '\n')
  }

  function TicketLines(nearby: seq<Ticket>): (r: seq<string>)
    requires forall i :: 0 <= i < |nearby| ==> |nearby[i]| > 0
    ensures |r| == |nearby|
  {
    seq(|nearby|, i requires 0 <= i < |nearby| => ShowNumbers(nearby[i]))
  }

  function NearbyText(nearby: seq<Ticket>): string
    requires forall i :: 0 <= i < |nearby| ==> |nearby[i]| > 0
  {
    Join(["nearby tickets:"] + TicketLines(nearby), '\n')
  }

  /** Text with no blank line inside it, not starting or ending a line break. */
  predicate Unbroken(s: string)
  {
    |s| > 0 && s[|s| - 1] != '\n' &&
    forall j :: 0 <= j < |s| - 1 ==> !(s[j] == '\n' && s[j + 1] == '\n')
  }

  /** A blank line cannot start inside unbroken text. */
  lemma UnbrokenSplit(a: string, b: string)
    requires Unbroken(a)
    ensures forall j :: j < |a| ==> !OccursAt(a + "\n\n" + b, "\n\n", j)
  {
    var s := a + "\n\n" + b;
    forall j | 0 <= j < |a| ensures !OccursAt(s, "\n\n", j) {
      if j < |a| - 1 {
        assert s[j] == a[j] && s[j + 1] == a[j + 1];
      } else {
        assert s[j] == a[|a| - 1];
      }
      assert s[j..j + 2][0] == s[j] && s[j..j + 2][1] == s[j + 1];
    }
  }

  /** Unbroken text has no blank line at all. */
  lemma UnbrokenWhole(a: string)
    requires Unbroken(a)
    ensures forall j :: !OccursAt(a, "\n\n", j)
  {
    forall j | 0 <= j && j + 2 <= |a| ensures !OccursAt(a, "\n\n", j) {
      assert a[j..j + 2][0] == a[j] && a[j..j + 2][1] == a[j + 1];
    }
  }

  /** Non-empty lines without line breaks join into unbroken text. */
  lemma {:induction false} JoinUnbroken(lines: seq<string>)
    requires |lines| > 0
    requires forall i :: 0 <= i < |lines| ==> |lines[i]| > 0 && '\n' !in lines[i]
    ensures Unbroken(Join(lines, '\n'))
  {
    if |lines| > 1 {
      var a := lines[0];
      var rest := Join(lines[1..], '\n');
      JoinUnbroken(lines[1..]);
      var s := a + ['\n'] + rest;
      assert Join(lines, '\n') == s;
      forall j | 0 <= j < |s| - 1 ensures !(s[j] == '\n' && s[j + 1] == '\n') {
        if j < |a| {
          assert s[j] == a[j];
        } else if j == |a| {
          assert s[j + 1] == rest[0];
        } else {
          assert s[j] == rest[j - |a| - 1] && s[j + 1] == rest[j - |a|];
        }
      }
      assert s[|s| - 1] == rest[|rest| - 1];
    } else {
      assert '\n' !in lines[0];
    }
  }

  /** A rule name for the input file: no colon and no line break. */
  predicate GoodName(name: string)
  {
    ':' !in name && '\n' !in name
  }

  lemma ShowLinesShape(rules: seq<(string, Rule)>, nearby: seq<Ticket>)
    requires forall i :: 0 <= i < |rules| ==> GoodName(rules[i].0)
    requires forall i :: 0 <= i < |nearby| ==> |nearby[i]| > 0
    ensures forall i :: 0 <= i < |rules| ==> |RuleLines(rules)[i]| > 0 && '\n' !in RuleLines(rules)[i]
    ensures forall i :: 0 <= i < |nearby| ==> |TicketLines(nearby)[i]| > 0 && '\n' !in TicketLines(nearby)[i]
  {
    forall i | 0 <= i < |rules| ensures |RuleLines(rules)[i]| > 0 && '\n' !in RuleLines(rules)[i] {
      var r := rules[i].1;
      assert RuleLines(rules)[i] == rules[i].0 + ": " + ShowNat(r.first.start) + "-" + ShowNat(r.first.end) + " or " + ShowNat(r.second.start) + "-" + ShowNat(r.second.end);
    }
    forall i | 0 <= i < |nearby| ensures |TicketLines(nearby)[i]| > 0 && '\n' !in TicketLines(nearby)[i] {
      NumbersShape(nearby[i]);
    }
  }

  /** A written list of numbers holds digits and commas only. */
  lemma {:induction false} NumbersShape(ns: seq<nat>)
    requires |ns| > 0
    ensures |ShowNumbers(ns)| > 0 && '\n' !in ShowNumbers(ns)
  {
    var pieces := seq(|ns|, i requires 0 <= i < |ns| => ShowNat(ns[i]));
    forall i | 0 <= i < |pieces| ensures |pieces[i]| > 0 && '\n' !in pieces[i] {
    }
    JoinShape(pieces);
  }

  lemma {:induction false} JoinShape(pieces: seq<string>)
    requires |pieces| > 0
    requires forall i :: 0 <= i < |pieces| ==> |pieces[i]| > 0 && '\n' !in pieces[i]
    ensures |Join(pieces, ',')| > 0 && '\n' !in Join(pieces, ',')
  {
    if |pieces| > 1 {
      JoinShape(pieces[1..]);
      assert Join(pieces, ',') == pieces[0] + [','] + Join(pieces[1..], ',');
    }
  }

  /** An input file written from rules with proper names and non-empty
      tickets reads back: the rules collected by name, my ticket and the
      nearby tickets. */
  lemma ParseShowInput(rules: seq<(string, Rule)>, my: Ticket, nearby: seq<Ticket>)
    requires |rules| > 0 && |my| > 0
    requires forall i :: 0 <= i < |rules| ==> GoodName(rules[i].0)
    requires forall i :: 0 <= i < |nearby| ==> |nearby[i]| > 0
    ensures Parse(ShowInput(rules, my, nearby)) == Some(Input(Collect(rules), my, nearby))
  {
    var r := RulesText(rules);
    var m := MyText(my);
    var t := NearbyText(nearby);
    var all := ShowInput(rules, my, nearby);
    var text := r + "\n\n" + (m + "\n\n" + t);
    assert all[..|all| - 1] == text;
    ShowSections(rules, my, nearby);
    ThreeSections(r, m, t);
    RulesSectionParse(rules);
    MySectionParse(my);
    NearbySectionParse(nearby);
  }

  /** Three unbroken sections joined by blank lines split back apart. */
  lemma ThreeSections(r: string, m: string, t: string)
    requires Unbroken(r) && Unbroken(m) && Unbroken(t)
    ensures SplitOn(r + "\n\n" + (m + "\n\n" + t), "\n\n") == [r, m, t]
  {
    UnbrokenSplit(r, m + "\n\n" + t);
    SplitOnCons(r, "\n\n", m + "\n\n" + t);
    UnbrokenSplit(m, t);
    SplitOnCons(m, "\n\n", t);
    UnbrokenWhole(t);
    SplitOnWhole(t, "\n\n");
  }

  /** The written file splits at its blank lines into its three sections. */
  lemma ShowSections(rules: seq<(string, Rule)>, my: Ticket, nearby: seq<Ticket>)
    requires |rules| > 0 && |my| > 0
    requires forall i :: 0 <= i < |rules| ==> GoodName(rules[i].0)
    requires forall i :: 0 <= i < |nearby| ==> |nearby[i]| > 0
    ensures Unbroken(RulesText(rules))
    ensures Unbroken(MyText(my))
    ensures Unbroken(NearbyText(nearby))
  {
    ShowLinesShape(rules, nearby);
    NumbersShape(my);
    JoinUnbroken(RuleLines(rules));
    assert Join(["your ticket:", ShowNumbers(my)], '\n') == "your ticket:\n" + ShowNumbers(my);
    JoinUnbroken(["your ticket:", ShowNumbers(my)]);
    JoinUnbroken(["nearby tickets:"] + TicketLines(nearby));
  }

  lemma RulesSectionParse(rules: seq<(string, Rule)>)
    requires |rules| > 0
    requires forall i :: 0 <= i < |rules| ==> GoodName(rules[i].0)
    ensures ParseRules(RulesText(rules)) == Some(Collect(rules))
  {
    var lines := RuleLines(rules);
    ShowLinesShape(rules, []);
    LinesJoin(lines);
    forall i | 0 <= i < |rules| ensures ParseRuleLine(lines[i]) == Some(rules[i]) {
      ParseShowRuleLine(rules[i].0, rules[i].1);
    }
    ParseEachAll(lines, ParseRuleLine, rules);
  }

  lemma MySectionParse(my: Ticket)
    requires |my| > 0
    ensures |Split(MyText(my), '\n')| >= 2
    ensures ParseTicket(Split(MyText(my), '\n')[1]) == Some(my)
  {
    NumbersShape(my);
    assert Join(["your ticket:", ShowNumbers(my)], '\n') == "your ticket:\n" + ShowNumbers(my);
    SplitJoin(["your ticket:", ShowNumbers(my)], '\n');
    ParseShowNumbers(my);
  }

  lemma NearbySectionParse(nearby: seq<Ticket>)
    requires forall i :: 0 <= i < |nearby| ==> |nearby[i]| > 0
    ensures |Split(NearbyText(nearby), '\n')| >= 1
    ensures ParseEach(Split(NearbyText(nearby), '\n')[1..], ParseTicket) == Some(nearby)
  {
    var tlines := TicketLines(nearby);
    ShowLinesShape([], nearby);
    SplitJoin(["nearby tickets:"] + tlines, '\n');
    assert (["nearby tickets:"] + tlines)[1..] == tlines;
    forall i | 0 <= i < |nearby| ensures ParseTicket(tlines[i]) == Some(nearby[i]) {
      ParseShowNumbers(nearby[i]);
    }
    ParseEachAll(tlines, ParseTicket, nearby);
  }

  // Part 1.

  /** The number of rules a field satisfies: `values().filter(..).count()`,
      one per entry of the map. */
  function MatchCount(rules: map<string, Rule>, x: nat): nat
  {
    |set k | k in rules && Satisfies(rules[k], x)|
  }

  /** No rule takes a field exactly when none of the rules satisfies it. */
  lemma MatchCountZero(rules: map<string, Rule>, x: nat)
    ensures MatchCount(rules, x) == 0 <==> forall k :: k in rules ==> !Satisfies(rules[k], x)
  {
    var s := set k | k in rules && Satisfies(rules[k], x);
    if k :| k in rules && Satisfies(rules[k], x) {
      assert k in s;
    }
  }

  /** `Ticket::check_rules`: the fields no rule takes, in ticket order. */
  function CheckRules(t: Ticket, rules: map<string, Rule>): (r: seq<nat>)
    ensures |r| <= |t|
  {
    if t == [] then []
    else
      var n := |t| - 1;
      CheckRules(t[..n], rules) + (if MatchCount(rules, t[n]) == 0 then [t[n]] else [])
  }

  /** `check_rules` keeps exactly the fields no rule takes. */
  lemma {:induction false} CheckRulesSpec(t: Ticket, rules: map<string, Rule>, x: nat)
    ensures x in CheckRules(t, rules) <==> x in t && MatchCount(rules, x) == 0
  {
    if t != [] {
      var n := |t| - 1;
      CheckRulesSpec(t[..n], rules, x);
      assert t == t[..n] + [t[n]];
    }
  }

  /** `check_rules` keeps the ticket's order: it works field by field. */
  lemma {:induction false} CheckRulesAppend(a: Ticket, b: Ticket, rules: map<string, Rule>)
    ensures CheckRules(a + b, rules) == CheckRules(a, rules) + CheckRules(b, rules)
    decreases |b|
  {
    if b == [] {
      assert a + b == a;
    } else {
      var n := |b| - 1;
      assert (a + b)[..|a| + n] == a + b[..n];
      CheckRulesAppend(a, b[..n], rules);
    }
  }

  /** A ticket is valid, `check_rules(..).is_empty()`, exactly when every
      field satisfies some rule. */
  lemma {:induction false} CheckRulesEmpty(t: Ticket, rules: map<string, Rule>)
    ensures CheckRules(t, rules) == [] <==> forall i :: 0 <= i < |t| ==> MatchCount(rules, t[i]) > 0
  {
    if CheckRules(t, rules) == [] {
      forall i | 0 <= i < |t| ensures MatchCount(rules, t[i]) > 0 {
        CheckRulesSpec(t, rules, t[i]);
      }
    } else {
      var x := CheckRules(t, rules)[0];
      CheckRulesSpec(t, rules, x);
      var i :| 0 <= i < |t| && t[i] == x;
      assert MatchCount(rules, t[i]) == 0;
    }
  }

  /** `part_1`: the sum over nearby tickets of the fields no rule takes. */
  function ErrorRate(rules: map<string, Rule>, tickets: seq<Ticket>): int
  {
    if tickets == [] then 0
    else
      var n := |tickets| - 1;
      ErrorRate(rules, tickets[..n]) + Sum(CheckRules(tickets[n], rules))
  }

  function Part1(input: Input): int
  {
    ErrorRate(input.rules, input.nearby)
  }

  /** Valid tickets add nothing to the error rate. */
  lemma {:induction false} ErrorRateValid(rules: map<string, Rule>, tickets: seq<Ticket>)
    requires forall j :: 0 <= j < |tickets| ==> CheckRules(tickets[j], rules) == []
    ensures ErrorRate(rules, tickets) == 0
  {
    if tickets != [] {
      var n := |tickets| - 1;
      ErrorRateValid(rules, tickets[..n]);
    }
  }

  /** The error rate of two batches of tickets is the sum of theirs. */
  lemma {:induction false} ErrorRateAppend(rules: map<string, Rule>, a: seq<Ticket>, b: seq<Ticket>)
    ensures ErrorRate(rules, a + b) == ErrorRate(rules, a) + ErrorRate(rules, b)
    decreases |b|
  {
    if b == [] {
      assert a + b == a;
    } else {
      var n := |b| - 1;
      assert (a + b)[..|a| + n] == a + b[..n];
      ErrorRateAppend(rules, a, b[..n]);
    }
  }

  // Part 2.

  /** `Ticket::potential_indices`: the positions whose field the rule takes. */
  function TicketIndices(t: Ticket, rule: Rule): (r: set<nat>)
    ensures forall i: nat :: i in r <==> i < |t| && Satisfies(rule, t[i])
  {
    set i | 0 <= i < |t| && Satisfies(rule, t[i])
  }

  /** `Rule::potential_indices`: the positions every ticket's field there
      takes, folding intersections from the first ticket on; with no ticket
      `fold_first` gives `None` and the source's `unwrap` panics. */
  function RuleIndices(rule: Rule, tickets: seq<Ticket>): (r: Option<set<nat>>)
    ensures r.Some? <==> |tickets| > 0
    ensures r.Some? ==> forall i: nat :: i in r.value <==>
      forall j :: 0 <= j < |tickets| ==> i < |tickets[j]| && Satisfies(rule, tickets[j][i])
  {
    if tickets == [] then None
    else if |tickets| == 1 then Some(TicketIndices(tickets[0], rule))
    else
      var n := |tickets| - 1;
      var init := RuleIndices(rule, tickets[..n]);
      assert forall j :: 0 <= j < n ==> tickets[..n][j] == tickets[j];
      Some(init.value * TicketIndices(tickets[n], rule))
  }

  /** The valid nearby tickets, in order. */
  function ValidTickets(rules: map<string, Rule>, tickets: seq<Ticket>): (r: seq<Ticket>)
    ensures |r| <= |tickets|
    ensures forall j :: 0 <= j < |r| ==> r[j] in tickets && CheckRules(r[j], rules) == []
  {
    if tickets == [] then []
    else
      var n := |tickets| - 1;
      var init := ValidTickets(rules, tickets[..n]);
      ValidTicketsIn(init, tickets[..n], tickets);
      init + (if CheckRules(tickets[n], rules) == [] then [tickets[n]] else [])
  }

  lemma ValidTicketsIn(init: seq<Ticket>, prefix: seq<Ticket>, tickets: seq<Ticket>)
    requires forall j :: 0 <= j < |init| ==> init[j] in prefix
    requires |prefix| < |tickets| && prefix == tickets[..|prefix|]
    ensures forall j :: 0 <= j < |init| ==> init[j] in tickets
  {
    forall j | 0 <= j < |init| ensures init[j] in tickets {
      var k :| 0 <= k < |prefix| && prefix[k] == init[j];
      assert tickets[k] == prefix[k];
    }
  }

  /** Every valid ticket is kept. */
  lemma {:induction false} ValidTicketsKeep(rules: map<string, Rule>, tickets: seq<Ticket>, t: Ticket)
    requires t in tickets && CheckRules(t, rules) == []
    ensures t in ValidTickets(rules, tickets)
  {
    var n := |tickets| - 1;
    if tickets[n] != t {
      assert t in tickets[..n] by {
        var k :| 0 <= k < |tickets| && tickets[k] == t;
        assert tickets[..n][k] == t;
      }
      ValidTicketsKeep(rules, tickets[..n], t);
    }
  }

  /** The outcome of the worklist: the positions of the rules, a panic on a
      rule with no position left (`unwrap` on an empty set), or the source's
      endless loop when no rule settles. */
  datatype Outcome = Solved(known: map<string, nat>) | Panicked | Endless


  /** The worklist state the loop keeps: the queue holds the unsolved rules,
      each once, with a subset of its candidates; the solved rules have
      distinct positions from their candidates, recorded in `knownIndices`. */
  ghost predicate WorkInv(cands: map<string, set<nat>>, toSolve: seq<(string, set<nat>)>,
                          knownRules: map<string, nat>, knownIndices: set<nat>)
  {
    (forall j :: 0 <= j < |toSolve| ==> toSolve[j].0 in cands && toSolve[j].1 <= cands[toSolve[j].0]) &&
    (forall j :: 0 <= j < |toSolve| ==> toSolve[j].0 !in knownRules) &&
    (forall i, j :: 0 <= i < j < |toSolve| ==> toSolve[i].0 != toSolve[j].0) &&
    (forall k :: k in cands ==> k in knownRules || exists j :: 0 <= j < |toSolve| && toSolve[j].0 == k) &&
    (forall k :: k in knownRules ==> k in cands && knownRules[k] in cands[k]) &&
    Injective(knownRules) &&
    (forall x :: x in knownIndices <==> exists k :: k in knownRules && knownRules[k] == x)
  }

  /** The first queue: each rule with all its candidates, in the map's
      iteration order `order`. */
  function Queue(cands: map<string, set<nat>>, order: seq<string>): (q: seq<(string, set<nat>)>)
    requires forall i :: 0 <= i < |order| ==> order[i] in cands
    ensures |q| == |order|
    ensures forall j :: 0 <= j < |q| ==> q[j] == (order[j], cands[order[j]])
  {
    seq(|order|, i requires 0 <= i < |order| => (order[i], cands[order[i]]))
  }

  lemma QueueInv(cands: map<string, set<nat>>, order: seq<string>)
    requires forall i :: 0 <= i < |order| ==> order[i] in cands
    requires forall i, j :: 0 <= i < j < |order| ==> order[i] != order[j]
    requires forall k :: k in cands ==> k in order
    ensures WorkInv(cands, Queue(cands, order), map[], {})
  {
    var q := Queue(cands, order);
    forall k | k in cands ensures exists j :: 0 <= j < |q| && q[j].0 == k {
      var j :| 0 <= j < |order| && order[j] == k;
      assert q[j].0 == k;
    }
  }

  /** A rule taken from the back goes to the front again with fewer candidates. */
  lemma RequeueInv(cands: map<string, set<nat>>, rest: seq<(string, set<nat>)>, k: string, v: set<nat>, w: set<nat>,
                   knownRules: map<string, nat>, knownIndices: set<nat>)
    requires WorkInv(cands, rest + [(k, v)], knownRules, knownIndices)
    requires w <= v
    ensures WorkInv(cands, [(k, w)] + rest, knownRules, knownIndices)
  {
    var before := rest + [(k, v)];
    var after := [(k, w)] + rest;
    forall j | 0 <= j < |after| ensures after[j].0 in cands && after[j].1 <= cands[after[j].0] && after[j].0 !in knownRules {
      if j > 0 {
        assert after[j] == before[j - 1];
      } else {
        assert before[|rest|] == (k, v);
      }
    }
    forall i, j | 0 <= i < j < |after| ensures after[i].0 != after[j].0 {
      if i == 0 {
        assert after[j] == before[j - 1] && before[|rest|].0 == k;
      } else {
        assert after[i] == before[i - 1] && after[j] == before[j - 1];
      }
    }
    forall c | c in cands && c !in knownRules ensures exists j :: 0 <= j < |after| && after[j].0 == c {
      var j :| 0 <= j < |before| && before[j].0 == c;
      if j == |rest| {
        assert after[0].0 == c;
      } else {
        assert after[j + 1] == before[j];
      }
    }
  }

  /** A rule taken from the back is solved with its one remaining candidate. */
  lemma SolveInv(cands: map<string, set<nat>>, rest: seq<(string, set<nat>)>, k: string, v: set<nat>, x: nat,
                 knownRules: map<string, nat>, knownIndices: set<nat>)
    requires WorkInv(cands, rest + [(k, v)], knownRules, knownIndices)
    requires x in v && x !in knownIndices
    ensures WorkInv(cands, rest, knownRules[k := x], knownIndices + {x})
  {
    var before := rest + [(k, v)];
    assert before[|rest|] == (k, v);
    var known := knownRules[k := x];
    forall j | 0 <= j < |rest| ensures rest[j].0 in cands && rest[j].1 <= cands[rest[j].0] && rest[j].0 !in known {
      assert rest[j] == before[j];
    }
    forall i, j | 0 <= i < j < |rest| ensures rest[i].0 != rest[j].0 {
      assert rest[i] == before[i] && rest[j] == before[j];
    }
    forall c | c in cands && c !in known ensures exists j :: 0 <= j < |rest| && rest[j].0 == c {
      var j :| 0 <= j < |before| && before[j].0 == c;
      assert rest[j] == before[j];
    }
    forall a, b | a in known && b in known && a != b ensures known[a] != known[b] {
      if a == k {
        assert knownRules[b] in knownIndices;
      } else if b == k {
        assert knownRules[a] in knownIndices;
      }
    }
    forall y | y in knownIndices + {x} ensures exists c :: c in known && known[c] == y {
      if y != x {
        var c :| c in knownRules && knownRules[c] == y;
        assert c != k;
        assert known[c] == y;
      } else {
        assert known[k] == y;
      }
    }
    forall y | (exists c :: c in known && known[c] == y) ensures y in knownIndices + {x} {
      var c :| c in known && known[c] == y;
      if c != k {
        assert knownRules[c] == y;
      }
    }
  }

  /** The `part_2` worklist loop as a function of its state: the queue
      `toSolve`, the settled rules and their positions. `fuel` bounds the
      turns; running out of it is `Endless`. */
  ghost function Work(toSolve: seq<(string, set<nat>)>, knownRules: map<string, nat>, knownIndices: set<nat>, fuel: nat): Outcome
    decreases fuel
  {
    if toSolve == [] then Solved(knownRules)
    else if fuel == 0 then Endless
    else
      var rest := toSolve[..|toSolve| - 1];
      var e := toSolve[|toSolve| - 1];
      var w := e.1 - knownIndices;
      if |w| > 1 then Work([(e.0, w)] + rest, knownRules, knownIndices, fuel - 1)
      else if w == {} then Panicked
      else
        var x :| x in w;
        Work(rest, knownRules[e.0 := x], knownIndices + {x}, fuel - 1)
  }

  /** A set inside a singleton has at most one element. */
  lemma AtMostOne(s: set<nat>, x: nat)
    requires s <= {x}
    ensures |s| <= 1
  {
    if x in s {
      assert s == {x};
    } else {
      assert s == {};
    }
  }

  /** A queue is its front followed by its back entry. */
  lemma LastSplit(toSolve: seq<(string, set<nat>)>)
    requires toSolve != []
    ensures toSolve == toSolve[..|toSolve| - 1] + [toSolve[|toSolve| - 1]]
  {
  }

  /** A turn of the worklist that settles the rule `k` at the back on its
      one position `x`. */
  lemma WorkSettles(toSolve: seq<(string, set<nat>)>, rest: seq<(string, set<nat>)>, k: string, v: set<nat>,
                    knownRules: map<string, nat>, knownIndices: set<nat>, fuel: nat, fuel': nat, x: nat)
    requires toSolve == rest + [(k, v)] && fuel == fuel' + 1
    requires |v - knownIndices| <= 1 && x in v - knownIndices
    ensures Work(toSolve, knownRules, knownIndices, fuel) == Work(rest, knownRules[k := x], knownIndices + {x}, fuel')
  {
    assert toSolve[..|toSolve| - 1] == rest && toSolve[|toSolve| - 1] == (k, v);
    var w := v - knownIndices;
    assert w == {x} + (w - {x});
    assert w - {x} == {};
  }

  /** A turn of the worklist that sends the rule `k` at the back to the
      front. */
  lemma WorkRequeues(toSolve: seq<(string, set<nat>)>, rest: seq<(string, set<nat>)>, k: string, v: set<nat>,
                     knownRules: map<string, nat>, knownIndices: set<nat>, fuel: nat, fuel': nat)
    requires toSolve == rest + [(k, v)] && fuel == fuel' + 1
    requires |v - knownIndices| > 1
    ensures Work(toSolve, knownRules, knownIndices, fuel) == Work([(k, v - knownIndices)] + rest, knownRules, knownIndices, fuel')
  {
    assert toSolve[..|toSolve| - 1] == rest && toSolve[|toSolve| - 1] == (k, v);
  }

  /** The `part_2` worklist. The loop computes `Work`; `fuel` bounds its
      turns and stands for the source's loop that never ends when no rule is
      left with one candidate. */
  method Assign(cands: map<string, set<nat>>, order: seq<string>, fuel: nat) returns (r: Outcome)
    requires forall i :: 0 <= i < |order| ==> order[i] in cands
    requires forall i, j :: 0 <= i < j < |order| ==> order[i] != order[j]
    requires forall k :: k in cands ==> k in order
    ensures r == Work(Queue(cands, order), map[], {}, fuel)
    ensures r.Solved? ==> r.known.Keys == cands.Keys
    ensures r.Solved? ==> forall k :: k in r.known ==> r.known[k] in cands[k]
    ensures r.Solved? ==> Injective(r.known)
  {
    var knownIndices: set<nat> := {};
    var knownRules: map<string, nat> := map[];
    var toSolve := Queue(cands, order);
    QueueInv(cands, order);
    var steps := fuel;
    ghost var target := Work(toSolve, knownRules, knownIndices, steps);
    while toSolve != []
      invariant WorkInv(cands, toSolve, knownRules, knownIndices)
      invariant Work(toSolve, knownRules, knownIndices, steps) == target
      decreases steps
    {
      if steps == 0 {
        return Endless;
      }
      ghost var before := steps;
      steps := steps - 1;
      var rest := toSolve[..|toSolve| - 1];
      var (k, v) := toSolve[|toSolve| - 1];
      LastSplit(toSolve);
      var w := v - knownIndices;
      if |w| > 1 {
        WorkRequeues(toSolve, rest, k, v, knownRules, knownIndices, before, steps);
        RequeueInv(cands, rest, k, v, w, knownRules, knownIndices);
        toSolve := [(k, w)] + rest;
      } else {
        if w == {} {
          return Panicked;
        }
        var x :| x in w;
        WorkSettles(toSolve, rest, k, v, knownRules, knownIndices, before, steps, x);
        SolveInv(cands, rest, k, v, x, knownRules, knownIndices);
        knownRules := knownRules[k := x];
        knownIndices := knownIndices + {x};
        toSolve := rest;
      }
    }
    assert forall k :: k in cands ==> k in knownRules;
    return Solved(knownRules);
  }

  /** The rules in a queue. */
  ghost function Names(toSolve: seq<(string, set<nat>)>): set<string>
  {
    set j | 0 <= j < |toSolve| :: toSolve[j].0
  }

  /** A queued rule on the way to `m`: not settled, and its position of `m`
      is among the candidates left to it. */
  ghost predicate Pending(cands: map<string, set<nat>>, m: map<string, nat>, knownRules: map<string, nat>, e: (string, set<nat>))
  {
    e.0 in cands && e.0 in m && e.0 !in knownRules && m[e.0] in e.1 && e.1 <= cands[e.0]
  }

  /** Every queued rule is pending on the way to `m`. */
  ghost predicate AllPending(cands: map<string, set<nat>>, m: map<string, nat>, knownRules: map<string, nat>,
                             toSolve: seq<(string, set<nat>)>)
  {
    forall j :: 0 <= j < |toSolve| ==> Pending(cands, m, knownRules, toSolve[j])
  }

  /** No rule is queued twice. */
  ghost predicate Distinct(toSolve: seq<(string, set<nat>)>)
  {
    forall i, j :: 0 <= i < j < |toSolve| ==> toSolve[i].0 != toSolve[j].0
  }

  /** A worklist state on the way to the assignment `m`: the queue holds the
      unsettled rules, each once and still with its position of `m`, and the
      settled rules have their positions of `m`. */
  ghost predicate Agrees(cands: map<string, set<nat>>, m: map<string, nat>, toSolve: seq<(string, set<nat>)>,
                         knownRules: map<string, nat>, knownIndices: set<nat>)
  {
    Fitting(cands, m) && AllPending(cands, m, knownRules, toSolve) && Distinct(toSolve) &&
    cands.Keys <= knownRules.Keys + Names(toSolve) &&
    (forall k :: k in knownRules ==> k in m && knownRules[k] == m[k]) &&
    knownIndices == Image(m, knownRules.Keys)
  }

  /** The first queue is on the way to any assignment. */
  lemma QueueAgrees(cands: map<string, set<nat>>, order: seq<string>, m: map<string, nat>)
    requires forall i :: 0 <= i < |order| ==> order[i] in cands
    requires forall i, j :: 0 <= i < j < |order| ==> order[i] != order[j]
    requires forall k :: k in cands ==> k in order
    requires Fitting(cands, m)
    ensures Agrees(cands, m, Queue(cands, order), map[], {})
  {
    var q := Queue(cands, order);
    forall j | 0 <= j < |q| ensures Pending(cands, m, map[], q[j]) {
    }
    forall k | k in cands ensures k in Names(q) {
      var j :| 0 <= j < |order| && order[j] == k;
      assert q[j].0 == k;
    }
    assert Image(m, {}) == {};
  }

  /** An unsettled rule's position of `m` is not taken yet. */
  lemma AgreesFree(cands: map<string, set<nat>>, m: map<string, nat>, toSolve: seq<(string, set<nat>)>,
                   knownRules: map<string, nat>, knownIndices: set<nat>, k: string)
    requires Agrees(cands, m, toSolve, knownRules, knownIndices)
    requires k in m && k !in knownRules
    ensures m[k] !in knownIndices
  {
    forall c | c in knownRules.Keys && c in m ensures m[c] != m[k] {
      assert c != k;
    }
  }

  /** The queue after its back entry goes to the front with the positions
      left to it. */
  ghost function Requeued(toSolve: seq<(string, set<nat>)>, knownIndices: set<nat>): (q: seq<(string, set<nat>)>)
    requires toSolve != []
    ensures |q| == |toSolve|
    ensures q[0] == (toSolve[|toSolve| - 1].0, toSolve[|toSolve| - 1].1 - knownIndices)
    ensures forall j :: 0 < j < |q| ==> q[j] == toSolve[j - 1]
  {
    [(toSolve[|toSolve| - 1].0, toSolve[|toSolve| - 1].1 - knownIndices)] + toSolve[..|toSolve| - 1]
  }

  /** The rule sent to the front is still pending when its position of `m`
      is not taken. */
  lemma RequeuePending(cands: map<string, set<nat>>, m: map<string, nat>, knownRules: map<string, nat>,
                       toSolve: seq<(string, set<nat>)>, knownIndices: set<nat>)
    requires AllPending(cands, m, knownRules, toSolve) && toSolve != []
    requires m[toSolve[|toSolve| - 1].0] !in knownIndices
    ensures AllPending(cands, m, knownRules, Requeued(toSolve, knownIndices))
  {
    var after := Requeued(toSolve, knownIndices);
    assert Pending(cands, m, knownRules, toSolve[|toSolve| - 1]);
    forall j | 0 <= j < |after| ensures Pending(cands, m, knownRules, after[j]) {
      if j > 0 {
        assert Pending(cands, m, knownRules, toSolve[j - 1]);
      }
    }
  }

  lemma RequeueDistinct(toSolve: seq<(string, set<nat>)>, knownIndices: set<nat>)
    requires Distinct(toSolve) && toSolve != []
    ensures Distinct(Requeued(toSolve, knownIndices))
  {
    var after := Requeued(toSolve, knownIndices);
    forall i, j | 0 <= i < j < |after| ensures after[i].0 != after[j].0 {
      assert after[j] == toSolve[j - 1];
      if i > 0 {
        assert after[i] == toSolve[i - 1];
      }
    }
  }

  lemma RequeueNames(toSolve: seq<(string, set<nat>)>, knownIndices: set<nat>)
    requires toSolve != []
    ensures Names(toSolve) <= Names(Requeued(toSolve, knownIndices))
  {
    var after := Requeued(toSolve, knownIndices);
    forall c | c in Names(toSolve) ensures c in Names(after) {
      var j :| 0 <= j < |toSolve| && toSolve[j].0 == c;
      if j < |toSolve| - 1 {
        assert after[j + 1] == toSolve[j];
      } else {
        assert after[0].0 == c;
      }
    }
  }

  /** Sending the rule at the back to the front with the positions left to
      it keeps the state on the way to `m`. */
  lemma AgreesRequeue(cands: map<string, set<nat>>, m: map<string, nat>, toSolve: seq<(string, set<nat>)>,
                      knownRules: map<string, nat>, knownIndices: set<nat>)
    requires Agrees(cands, m, toSolve, knownRules, knownIndices) && toSolve != []
    ensures Agrees(cands, m, Requeued(toSolve, knownIndices), knownRules, knownIndices)
  {
    assert Pending(cands, m, knownRules, toSolve[|toSolve| - 1]);
    AgreesFree(cands, m, toSolve, knownRules, knownIndices, toSolve[|toSolve| - 1].0);
    RequeuePending(cands, m, knownRules, toSolve, knownIndices);
    RequeueDistinct(toSolve, knownIndices);
    RequeueNames(toSolve, knownIndices);
  }

  /** The rules in front of the settled one stay pending. */
  lemma SettlePending(cands: map<string, set<nat>>, m: map<string, nat>, knownRules: map<string, nat>,
                      toSolve: seq<(string, set<nat>)>, x: nat)
    requires AllPending(cands, m, knownRules, toSolve) && Distinct(toSolve) && toSolve != []
    ensures AllPending(cands, m, knownRules[toSolve[|toSolve| - 1].0 := x], toSolve[..|toSolve| - 1])
  {
    var n := |toSolve| - 1;
    var rest := toSolve[..n];
    var known := knownRules[toSolve[n].0 := x];
    forall j | 0 <= j < n ensures Pending(cands, m, known, rest[j]) {
      assert rest[j] == toSolve[j];
      assert Pending(cands, m, knownRules, toSolve[j]);
      assert toSolve[j].0 != toSolve[n].0;
    }
  }

  lemma SettleDistinct(toSolve: seq<(string, set<nat>)>)
    requires Distinct(toSolve) && toSolve != []
    ensures Distinct(toSolve[..|toSolve| - 1])
  {
    var rest := toSolve[..|toSolve| - 1];
    forall i, j | 0 <= i < j < |rest| ensures rest[i].0 != rest[j].0 {
      assert rest[i] == toSolve[i] && rest[j] == toSolve[j];
    }
  }

  lemma SettleNames(toSolve: seq<(string, set<nat>)>)
    requires toSolve != []
    ensures Names(toSolve) <= {toSolve[|toSolve| - 1].0} + Names(toSolve[..|toSolve| - 1])
  {
    var rest := toSolve[..|toSolve| - 1];
    forall c | c in Names(toSolve) ensures c in {toSolve[|toSolve| - 1].0} + Names(rest) {
      var j :| 0 <= j < |toSolve| && toSolve[j].0 == c;
      if j < |rest| {
        assert rest[j] == toSolve[j];
      }
    }
  }

  lemma SettleImage(m: map<string, nat>, knownRules: map<string, nat>, k: string)
    requires k in m
    ensures Image(m, knownRules[k := m[k]].Keys) == Image(m, knownRules.Keys) + {m[k]}
  {
  }

  /** Settling the rule at the back on its position of `m` keeps the state
      on the way to `m`. */
  lemma AgreesSettle(cands: map<string, set<nat>>, m: map<string, nat>, toSolve: seq<(string, set<nat>)>,
                     knownRules: map<string, nat>, knownIndices: set<nat>)
    requires Agrees(cands, m, toSolve, knownRules, knownIndices) && toSolve != []
    ensures toSolve[|toSolve| - 1].0 in m
    ensures Agrees(cands, m, toSolve[..|toSolve| - 1], knownRules[toSolve[|toSolve| - 1].0 := m[toSolve[|toSolve| - 1].0]],
                   knownIndices + {m[toSolve[|toSolve| - 1].0]})
  {
    var k := toSolve[|toSolve| - 1].0;
    assert Pending(cands, m, knownRules, toSolve[|toSolve| - 1]);
    SettlePending(cands, m, knownRules, toSolve, m[k]);
    SettleDistinct(toSolve);
    SettleNames(toSolve);
    SettleImage(m, knownRules, k);
  }

  /** A turn that sends the rule at the back to the front keeps the state on
      the way to `m` and the outcome `r`. */
  lemma AgreesRequeueTurn(cands: map<string, set<nat>>, m: map<string, nat>, toSolve: seq<(string, set<nat>)>,
                          knownRules: map<string, nat>, knownIndices: set<nat>, fuel: nat, fuel': nat, r: Outcome)
    returns (toSolve': seq<(string, set<nat>)>)
    requires Agrees(cands, m, toSolve, knownRules, knownIndices) && toSolve != [] && fuel == fuel' + 1
    requires |toSolve[|toSolve| - 1].1 - knownIndices| > 1
    requires r == Work(toSolve, knownRules, knownIndices, fuel)
    ensures toSolve' == Requeued(toSolve, knownIndices)
    ensures Agrees(cands, m, toSolve', knownRules, knownIndices)
    ensures r == Work(toSolve', knownRules, knownIndices, fuel')
  {
    var rest := toSolve[..|toSolve| - 1];
    var (k, v) := toSolve[|toSolve| - 1];
    LastSplit(toSolve);
    WorkRequeues(toSolve, rest, k, v, knownRules, knownIndices, fuel, fuel');
    AgreesRequeue(cands, m, toSolve, knownRules, knownIndices);
    toSolve' := Requeued(toSolve, knownIndices);
  }

  /** A turn that settles the rule at the back settles it on its position of
      `m`, keeps the state on the way to `m` and the outcome `r`. */
  lemma AgreesSettleTurn(cands: map<string, set<nat>>, m: map<string, nat>, toSolve: seq<(string, set<nat>)>,
                         knownRules: map<string, nat>, knownIndices: set<nat>, fuel: nat, fuel': nat, r: Outcome)
    returns (toSolve': seq<(string, set<nat>)>, knownRules': map<string, nat>, knownIndices': set<nat>)
    requires Agrees(cands, m, toSolve, knownRules, knownIndices) && toSolve != [] && fuel == fuel' + 1
    requires |toSolve[|toSolve| - 1].1 - knownIndices| <= 1
    requires r == Work(toSolve, knownRules, knownIndices, fuel)
    ensures toSolve[|toSolve| - 1].0 in m
    ensures toSolve' == toSolve[..|toSolve| - 1]
    ensures knownRules' == knownRules[toSolve[|toSolve| - 1].0 := m[toSolve[|toSolve| - 1].0]]
    ensures knownIndices' == knownIndices + {m[toSolve[|toSolve| - 1].0]}
    ensures Agrees(cands, m, toSolve', knownRules', knownIndices')
    ensures r == Work(toSolve', knownRules', knownIndices', fuel')
  {
    var rest := toSolve[..|toSolve| - 1];
    var (k, v) := toSolve[|toSolve| - 1];
    LastSplit(toSolve);
    AgreesSettle(cands, m, toSolve, knownRules, knownIndices);
    assert Pending(cands, m, knownRules, toSolve[|rest|]);
    AgreesFree(cands, m, toSolve, knownRules, knownIndices, k);
    WorkSettles(toSolve, rest, k, v, knownRules, knownIndices, fuel, fuel', m[k]);
    toSolve', knownRules', knownIndices' := rest, knownRules[k := m[k]], knownIndices + {m[k]};
  }

  /** Pulled towards an assignment `m` of the whole puzzle, the worklist's
      outcome `r` is never a panic, and what it settles on is `m`. */
  lemma WorkAgrees(cands: map<string, set<nat>>, m: map<string, nat>, toSolve: seq<(string, set<nat>)>,
                   knownRules: map<string, nat>, knownIndices: set<nat>, fuel: nat, r: Outcome)
    requires Agrees(cands, m, toSolve, knownRules, knownIndices)
    requires r == Work(toSolve, knownRules, knownIndices, fuel)
    ensures r != Panicked
    ensures r.Solved? ==> r.known == m
  {
    var q, kr, ki, f := toSolve, knownRules, knownIndices, fuel;
    while q != [] && f > 0
      invariant Agrees(cands, m, q, kr, ki)
      invariant r == Work(q, kr, ki, f)
      decreases f
    {
      var before := f;
      f := f - 1;
      if |q[|q| - 1].1 - ki| > 1 {
        q := AgreesRequeueTurn(cands, m, q, kr, ki, before, f, r);
      } else {
        q, kr, ki := AgreesSettleTurn(cands, m, q, kr, ki, before, f, r);
      }
    }
    if q == [] {
      assert kr.Keys == m.Keys;
    }
  }

  /** `0 + 1 + ... + n`. */
  function Triangle(n: nat): (t: nat)
    ensures t >= n
  {
    if n == 0 then 0 else n + Triangle(n - 1)
  }

  lemma {:induction false} TriangleBound(n: nat)
    ensures Triangle(n) + n <= n * n + 1
  {
    if n > 1 {
      TriangleBound(n - 1);
    }
  }

  /** How many rules at the back of the queue will be sent to the front
      before one is settled. */
  ghost function Behind(toSolve: seq<(string, set<nat>)>, knownIndices: set<nat>): (d: nat)
    ensures d <= |toSolve|
  {
    if toSolve == [] then 0
    else if |toSolve[|toSolve| - 1].1 - knownIndices| <= 1 then 0
    else 1 + Behind(toSolve[..|toSolve| - 1], knownIndices)
  }

  /** A rule sent to the front does not change the distance to a rule that
      will be settled. */
  lemma {:induction false} BehindFront(e: (string, set<nat>), rest: seq<(string, set<nat>)>, knownIndices: set<nat>, j: nat)
    requires j < |rest| && |rest[j].1 - knownIndices| <= 1
    ensures Behind([e] + rest, knownIndices) == Behind(rest, knownIndices)
    decreases |rest|
  {
    var n := |rest| - 1;
    assert ([e] + rest)[|rest|] == rest[n];
    if |rest[n].1 - knownIndices| > 1 {
      assert ([e] + rest)[..|rest|] == [e] + rest[..n];
      assert rest[..n][j] == rest[j];
      BehindFront(e, rest[..n], knownIndices, j);
    }
  }

  /** Sending a rule to the front brings the queue one turn closer to a rule
      that will be settled. */
  lemma BehindRequeued(toSolve: seq<(string, set<nat>)>, knownIndices: set<nat>, j: nat)
    requires j < |toSolve| - 1 && |toSolve[j].1 - knownIndices| <= 1
    requires |toSolve[|toSolve| - 1].1 - knownIndices| > 1
    ensures Behind(Requeued(toSolve, knownIndices), knownIndices) + 1 == Behind(toSolve, knownIndices)
  {
    var n := |toSolve| - 1;
    assert toSolve[..n][j] == toSolve[j];
    BehindFront(Requeued(toSolve, knownIndices)[0], toSolve[..n], knownIndices, j);
  }

  /** The distance is below the queue's length when some queued rule will be
      settled. */
  lemma {:induction false} BehindBelow(toSolve: seq<(string, set<nat>)>, knownIndices: set<nat>, j: nat)
    requires j < |toSolve| && |toSolve[j].1 - knownIndices| <= 1
    ensures Behind(toSolve, knownIndices) < |toSolve|
    decreases |toSolve|
  {
    var n := |toSolve| - 1;
    if j < n && |toSolve[n].1 - knownIndices| > 1 {
      assert toSolve[..n][j] == toSolve[j];
      BehindBelow(toSolve[..n], knownIndices, j);
    }
  }

  /** When the worklist is never stuck on the way to `m`, some queued rule
      will be settled. */
  lemma PeelsQueued(cands: map<string, set<nat>>, m: map<string, nat>, toSolve: seq<(string, set<nat>)>,
                    knownRules: map<string, nat>, knownIndices: set<nat>) returns (j: nat)
    requires Peels(cands, m) && Agrees(cands, m, toSolve, knownRules, knownIndices) && toSolve != []
    ensures j < |toSolve| && |toSolve[j].1 - knownIndices| <= 1
  {
    assert Pending(cands, m, knownRules, toSolve[0]);
    assert knownRules.Keys < cands.Keys by {
      assert toSolve[0].0 in cands && toSolve[0].0 !in knownRules;
    }
    assert Unblocked(cands, m, knownRules.Keys);
    var k :| k in cands && k in m && k !in knownRules && cands[k] - Image(m, knownRules.Keys) == {m[k]};
    assert k in Names(toSolve);
    j :| 0 <= j < |toSolve| && toSolve[j].0 == k;
    assert Pending(cands, m, knownRules, toSolve[j]);
    AtMostOne(toSolve[j].1 - knownIndices, m[k]);
  }

  /** With an assignment `m` the worklist is never stuck on the way to, and
      fuel for the turns it takes, the worklist's outcome `r` is `m`. */
  lemma WorkCompletes(cands: map<string, set<nat>>, m: map<string, nat>, toSolve: seq<(string, set<nat>)>,
                      knownRules: map<string, nat>, knownIndices: set<nat>, fuel: nat, r: Outcome)
    requires Peels(cands, m) && Agrees(cands, m, toSolve, knownRules, knownIndices)
    requires fuel >= Triangle(|toSolve|) + Behind(toSolve, knownIndices)
    requires r == Work(toSolve, knownRules, knownIndices, fuel)
    ensures r == Solved(m)
  {
    WorkAgrees(cands, m, toSolve, knownRules, knownIndices, fuel, r);
    var q, kr, ki, f := toSolve, knownRules, knownIndices, fuel;
    while q != []
      invariant Agrees(cands, m, q, kr, ki)
      invariant f >= Triangle(|q|) + Behind(q, ki)
      invariant r == Work(q, kr, ki, f)
      decreases f
    {
      var before := f;
      f := f - 1;
      if |q[|q| - 1].1 - ki| > 1 {
        var j := PeelsQueued(cands, m, q, kr, ki);
        BehindRequeued(q, ki, j);
        q := AgreesRequeueTurn(cands, m, q, kr, ki, before, f, r);
      } else {
        q, kr, ki := AgreesSettleTurn(cands, m, q, kr, ki, before, f, r);
      }
    }
  }

  /** `part_2`'s worklist over the first queue: with any assignment `m` of
      the whole puzzle it never panics and it settles on nothing but `m`;
      so a panic means the candidates admit no assignment. */
  lemma AssignAgrees(cands: map<string, set<nat>>, order: seq<string>, fuel: nat, m: map<string, nat>)
    requires forall i :: 0 <= i < |order| ==> order[i] in cands
    requires forall i, j :: 0 <= i < j < |order| ==> order[i] != order[j]
    requires forall k :: k in cands ==> k in order
    requires Fitting(cands, m)
    ensures Work(Queue(cands, order), map[], {}, fuel) != Panicked
    ensures Work(Queue(cands, order), map[], {}, fuel).Solved? ==> Work(Queue(cands, order), map[], {}, fuel).known == m
  {
    QueueAgrees(cands, order, m);
    var q := Queue(cands, order);
    WorkAgrees(cands, m, q, map[], {}, fuel, Work(q, map[], {}, fuel));
  }

  /** When the worklist is never stuck on the way to an assignment `m`, at
      most `n * n` turns for `n` rules settle it on `m`: the source's loop
      then ends. */
  lemma AssignCompletes(cands: map<string, set<nat>>, order: seq<string>, fuel: nat, m: map<string, nat>)
    requires forall i :: 0 <= i < |order| ==> order[i] in cands
    requires forall i, j :: 0 <= i < j < |order| ==> order[i] != order[j]
    requires forall k :: k in cands ==> k in order
    requires Fitting(cands, m) && Peels(cands, m)
    requires fuel >= |order| * |order|
    ensures Work(Queue(cands, order), map[], {}, fuel) == Solved(m)
  {
    QueueAgrees(cands, order, m);
    var q := Queue(cands, order);
    if q != [] {
      var j := PeelsQueued(cands, m, q, map[], {});
      BehindBelow(q, {}, j);
      TriangleBound(|q|);
    }
    WorkCompletes(cands, m, q, map[], {}, fuel, Work(q, map[], {}, fuel));
  }

  /** When the candidates admit exactly one assignment `m`, at most `n * n`
      turns for `n` rules settle the worklist on `m`. */
  lemma AssignUnique(cands: map<string, set<nat>>, order: seq<string>, fuel: nat, m: map<string, nat>)
    requires forall i :: 0 <= i < |order| ==> order[i] in cands
    requires forall i, j :: 0 <= i < j < |order| ==> order[i] != order[j]
    requires forall k :: k in cands ==> k in order
    requires Fitting(cands, m) && forall m' :: Fitting(cands, m') ==> m' == m
    requires fuel >= |order| * |order|
    ensures Work(Queue(cands, order), map[], {}, fuel) == Solved(m)
  {
    UniquePeels(cands, m);
    AssignCompletes(cands, order, fuel, m);
  }

  /** `k.starts_with("departure")`. */
  predicate IsDeparture(name: string)
  {
    |name| >= 9 && name[..9] == "departure"
  }

  /** The fields of my ticket at the positions of the departure rules, as a
      product in any order. */
  ghost function DepartureProduct(known: map<string, nat>, my: Ticket): int
  {
    SetProduct((set k | k in known && IsDeparture(k)), FieldOf(known, my))
  }

  /** My field at a rule's position. */
  function FieldOf(known: map<string, nat>, my: Ticket): string -> int
  {
    k => if k in known && known[k] < |my| then my[known[k]] else 0
  }

  /** The departure rules among some names. */
  ghost function DepartureKeys(ks: seq<string>): set<string>
  {
    set k | k in ks && IsDeparture(k)
  }

  /** What the product loop keeps after the first `i` names. */
  ghost predicate DepartureInv(known: map<string, nat>, my: Ticket, keys: seq<string>, i: nat, p: int, done: set<string>)
    requires i <= |keys|
  {
    done == DepartureKeys(keys[..i]) &&
    (forall k :: k in done ==> k in known && known[k] < |my|) &&
    p == SetProduct(done, FieldOf(known, my))
  }

  /** One name of the product loop: `None` when its position is outside my
      ticket. */
  method DepartureStep(known: map<string, nat>, my: Ticket, keys: seq<string>, i: nat, p: int, ghost done: set<string>)
    returns (q: Option<int>, ghost done': set<string>)
    requires i < |keys| && keys[i] in known
    requires forall a, b :: 0 <= a < b < |keys| ==> keys[a] != keys[b]
    requires DepartureInv(known, my, keys, i, p, done)
    ensures q.None? <==> IsDeparture(keys[i]) && known[keys[i]] >= |my|
    ensures q.Some? ==> DepartureInv(known, my, keys, i + 1, q.value, done')
  {
    var k := keys[i];
    assert keys[..i + 1] == keys[..i] + [k];
    done' := done;
    if IsDeparture(k) {
      if known[k] >= |my| {
        return None, done';
      }
      assert k !in done by {
        forall j | 0 <= j < i ensures keys[..i][j] != k {
          assert keys[..i][j] == keys[j];
        }
      }
      SetProductAdd(done, FieldOf(known, my), k);
      done' := done + {k};
      assert done' == DepartureKeys(keys[..i + 1]);
      q := Some(FieldOf(known, my)(k) * p);
    } else {
      assert done == DepartureKeys(keys[..i + 1]);
      q := Some(p);
    }
  }

  /** The product of my fields at the departure positions; `None` when a
      position is outside my ticket, where the source's indexing panics. */
  method Departures(known: map<string, nat>, my: Ticket) returns (r: Option<int>)
    ensures r.Some? <==> forall k :: k in known && IsDeparture(k) ==> known[k] < |my|
    ensures r.Some? ==> r.value == DepartureProduct(known, my)
  {
    var keys := Elements(known.Keys);
    var p := 1;
    ghost var done: set<string> := {};
    assert keys[..0] == [];
    for i := 0 to |keys|
      invariant DepartureInv(known, my, keys, i, p, done)
    {
      var q;
      q, done := DepartureStep(known, my, keys, i, p, done);
      if q.None? {
        assert keys[i] in known && IsDeparture(keys[i]);
        return None;
      }
      p := q.value;
    }
    assert keys[..|keys|] == keys;
    assert done == set k | k in known && IsDeparture(k);
    return Some(p);
  }

  /** The candidate positions of every rule over the valid tickets; `None`
      when there is a rule but no valid nearby ticket, where the source
      unwraps the empty fold of `potential_indices`. */
  function Candidates(rules: map<string, Rule>, valid: seq<Ticket>): (r: Option<map<string, set<nat>>>)
    ensures r.Some? <==> |valid| > 0 || rules == map[]
    ensures r.Some? ==> r.value.Keys == rules.Keys
    ensures r.Some? ==> forall k :: k in rules ==> Some(r.value[k]) == RuleIndices(rules[k], valid)
  {
    if rules == map[] then Some(map[])
    else if valid == [] then None
    else Some(map k | k in rules :: RuleIndices(rules[k], valid).value)
  }

  /** What `part_2` answers: the departure product over the positions the
      worklist settles on, given a valid nearby ticket (or no rule), a
      worklist that finishes, and departure positions inside my ticket. */
  ghost function Answer(input: Input, order: seq<string>, fuel: nat): Option<int>
    requires forall i :: 0 <= i < |order| ==> order[i] in input.rules
  {
    var cands := Candidates(input.rules, ValidTickets(input.rules, input.nearby));
    if cands.None? then None
    else
      var outcome := Work(Queue(cands.value, order), map[], {}, fuel);
      if !outcome.Solved? then None
      else if forall k :: k in outcome.known && IsDeparture(k) ==> outcome.known[k] < |input.myTicket|
      then Some(DepartureProduct(outcome.known, input.myTicket))
      else None
  }

  /** When the valid nearby tickets admit exactly one assignment `m` of
      positions, |rules|² turns give the departure product over `m`, provided
      its departure positions lie inside my ticket. */
  lemma AnswerUnique(input: Input, order: seq<string>, fuel: nat, m: map<string, nat>)
    requires forall i :: 0 <= i < |order| ==> order[i] in input.rules
    requires forall i, j :: 0 <= i < j < |order| ==> order[i] != order[j]
    requires forall k :: k in input.rules ==> k in order
    requires ValidTickets(input.rules, input.nearby) != []
    requires Fitting(Candidates(input.rules, ValidTickets(input.rules, input.nearby)).value, m)
    requires forall m' :: Fitting(Candidates(input.rules, ValidTickets(input.rules, input.nearby)).value, m') ==> m' == m
    requires fuel >= |order| * |order|
    requires forall k :: k in m && IsDeparture(k) ==> m[k] < |input.myTicket|
    ensures Answer(input, order, fuel) == Some(DepartureProduct(m, input.myTicket))
  {
    var cands := Candidates(input.rules, ValidTickets(input.rules, input.nearby)).value;
    AssignUnique(cands, order, fuel, m);
  }

  /** `part_2`: the product of my fields for the departure rules, with the
      positions the worklist settles on over the valid nearby tickets. `order`
      is the iteration order of the rules map. */
  method Part2(input: Input, order: seq<string>, fuel: nat) returns (r: Option<int>)
    requires forall i :: 0 <= i < |order| ==> order[i] in input.rules
    requires forall i, j :: 0 <= i < j < |order| ==> order[i] != order[j]
    requires forall k :: k in input.rules ==> k in order
    ensures r == Answer(input, order, fuel)
    ensures r.Some? ==> exists known: map<string, nat> ::
      known.Keys == input.rules.Keys && Injective(known) &&
      (forall k :: k in known ==> forall t :: t in input.nearby && CheckRules(t, input.rules) == [] ==>
        known[k] < |t| && Satisfies(input.rules[k], t[known[k]])) &&
      r.value == DepartureProduct(known, input.myTicket)
  {
    var valid := ValidTickets(input.rules, input.nearby);
    var cands := Candidates(input.rules, valid);
    if cands.None? {
      return None;
    }
    var outcome := Assign(cands.value, order, fuel);
    if !outcome.Solved? {
      return None;
    }
    var known := outcome.known;
    KnownFits(input.rules, input.nearby, cands.value, known);
    r := Departures(known, input.myTicket);
  }

  /** Positions drawn from the candidates fit every valid nearby ticket. */
  lemma KnownFits(rules: map<string, Rule>, nearby: seq<Ticket>, cands: map<string, set<nat>>, known: map<string, nat>)
    requires cands.Keys == rules.Keys
    requires forall k :: k in rules ==> Some(cands[k]) == RuleIndices(rules[k], ValidTickets(rules, nearby))
    requires known.Keys == cands.Keys && forall k :: k in known ==> known[k] in cands[k]
    ensures forall k :: k in known ==> forall t :: t in nearby && CheckRules(t, rules) == [] ==>
      known[k] < |t| && Satisfies(rules[k], t[known[k]])
  {
    var valid := ValidTickets(rules, nearby);
    forall k, t | k in known && t in nearby && CheckRules(t, rules) == []
      ensures known[k] < |t| && Satisfies(rules[k], t[known[k]])
    {
      ValidTicketsKeep(rules, nearby, t);
      FitsOne(rules[k], valid, cands[k], known[k], t);
    }
  }

  /** A candidate position of a rule fits each valid ticket. */
  lemma FitsOne(rule: Rule, valid: seq<Ticket>, c: set<nat>, i: nat, t: Ticket)
    requires Some(c) == RuleIndices(rule, valid) && i in c && t in valid
    ensures i < |t| && Satisfies(rule, t[i])
  {
    var j :| 0 <= j < |valid| && valid[j] == t;
  }

  // The example of the source's test.

  function ExampleRules(): map<string, Rule>
  {
    map["class" := Rule(Range(1, 3), Range(5, 7)),
        "row" := Rule(Range(6, 11), Range(33, 44)),
        "seat" := Rule(Range(13, 40), Range(45, 50))]
  }

  /** The example's nearby tickets have error rate 4 + 55 + 12 = 71. */
  lemma ExamplePart1(input: Input)
    requires input == Input(ExampleRules(), [7, 1, 14], [[7, 3, 47], [40, 4, 50], [55, 2, 20], [38, 6, 12]])
    ensures Part1(input) == 71
  {
    var ts := input.nearby;
    ErrorRateFour(input.rules, ts[0], ts[1], ts[2], ts[3]);
    assert ts == [ts[0], ts[1], ts[2], ts[3]];
    ExampleChecks(input.rules, ts[0], ts[1], ts[2], ts[3]);
    SumsOfOne(4, 55, 12);
  }

  lemma SumsOfOne(a: int, b: int, c: int)
    ensures Sum([]) == 0 && Sum([a]) == a && Sum([b]) == b && Sum([c]) == c
  {
    assert [a][1..] == [] && [b][1..] == [] && [c][1..] == [];
  }

  /** The error rate of four tickets, ticket by ticket. */
  lemma ErrorRateFour(rules: map<string, Rule>, t0: Ticket, t1: Ticket, t2: Ticket, t3: Ticket)
    ensures ErrorRate(rules, [t0, t1, t2, t3]) ==
      Sum(CheckRules(t0, rules)) + Sum(CheckRules(t1, rules)) + Sum(CheckRules(t2, rules)) + Sum(CheckRules(t3, rules))
  {
    var ts: seq<Ticket> := [t0, t1, t2, t3];
    assert |ts[..1][..0]| == 0;
    assert ErrorRate(rules, ts[..1]) == Sum(CheckRules(t0, rules));
    assert ts[..2][..1] == ts[..1];
    assert ErrorRate(rules, ts[..2]) == ErrorRate(rules, ts[..1]) + Sum(CheckRules(t1, rules));
    assert ts[..3][..2] == ts[..2];
    assert ErrorRate(rules, ts[..3]) == ErrorRate(rules, ts[..2]) + Sum(CheckRules(t2, rules));
    assert ts[..|ts| - 1] == ts[..3];
  }

  /** The fields of the example's nearby tickets that no rule takes. */
  lemma ExampleChecks(rules: map<string, Rule>, t0: Ticket, t1: Ticket, t2: Ticket, t3: Ticket)
    requires rules == ExampleRules()
    requires t0 == [7, 3, 47] && t1 == [40, 4, 50] && t2 == [55, 2, 20] && t3 == [38, 6, 12]
    ensures CheckRules(t0, rules) == [] && CheckRules(t1, rules) == [4]
    ensures CheckRules(t2, rules) == [55] && CheckRules(t3, rules) == [12]
  {
    ExampleChecksFirst(rules, t0, t1);
    ExampleChecksLast(rules, t2, t3);
  }

  lemma ExampleChecksFirst(rules: map<string, Rule>, t0: Ticket, t1: Ticket)
    requires rules == ExampleRules()
    requires t0 == [7, 3, 47] && t1 == [40, 4, 50]
    ensures CheckRules(t0, rules) == [] && CheckRules(t1, rules) == [4]
  {
    Takes(rules, "class", 7);
    Takes(rules, "class", 3);
    Takes(rules, "seat", 47);
    Takes(rules, "seat", 40);
    Refused(rules, 4);
    Takes(rules, "seat", 50);
    Keep3(t0, rules);
    Keep3(t1, rules);
  }

  lemma ExampleChecksLast(rules: map<string, Rule>, t2: Ticket, t3: Ticket)
    requires rules == ExampleRules()
    requires t2 == [55, 2, 20] && t3 == [38, 6, 12]
    ensures CheckRules(t2, rules) == [55] && CheckRules(t3, rules) == [12]
  {
    Refused(rules, 55);
    Takes(rules, "class", 2);
    Takes(rules, "seat", 20);
    Takes(rules, "seat", 38);
    Takes(rules, "class", 6);
    Refused(rules, 12);
    Keep3(t2, rules);
    Keep3(t3, rules);
  }

  /** `check_rules` on a ticket of three fields. */
  lemma Keep3(t: Ticket, rules: map<string, Rule>)
    requires |t| == 3
    ensures CheckRules(t, rules) ==
      (if MatchCount(rules, t[0]) == 0 then [t[0]] else []) +
      (if MatchCount(rules, t[1]) == 0 then [t[1]] else []) +
      (if MatchCount(rules, t[2]) == 0 then [t[2]] else [])
  {
    var c0 := if MatchCount(rules, t[0]) == 0 then [t[0]] else [];
    var c1 := if MatchCount(rules, t[1]) == 0 then [t[1]] else [];
    assert t[..1][..0] == [];
    assert CheckRules(t[..1], rules) == c0;
    assert t[..2][..1] == t[..1];
    assert CheckRules(t[..2], rules) == c0 + c1;
    assert t[..|t| - 1] == t[..2];
  }

  lemma Takes(rules: map<string, Rule>, k: string, x: nat)
    requires k in rules && Satisfies(rules[k], x)
    ensures MatchCount(rules, x) > 0
  {
    MatchCountZero(rules, x);
  }

  lemma Refused(rules: map<string, Rule>, x: nat)
    requires rules == ExampleRules()
    requires !Satisfies(rules["class"], x) && !Satisfies(rules["row"], x) && !Satisfies(rules["seat"], x)
    ensures MatchCount(rules, x) == 0
  {
    assert rules.Keys == {"class", "row", "seat"};
    MatchCountZero(rules, x);
  }
}
