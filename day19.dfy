/** Day 19: messages checked against a grammar of numbered rules. A rule is a
    literal byte, a series of rule numbers, or a choice between two series.
    Matching a rule against a message returns the list of remainders left
    after each way the rule can consume a prefix of the message. */
module Day19 {
  import opened Text

  datatype Rule = Lit(c: char) | Series(ids: seq<nat>) | Or(a: seq<nat>, b: seq<nat>)

  type Rules = map<nat, Rule>

  /** The result of a computation that may panic (`unwrap` on a missing rule)
      or that the model stops after `fuel` nested rule lookups. */
  datatype Outcome<T> = Ok(value: T) | Panics | OutOfFuel

  // ---------------------------------------------------------------------
  // Rule::from_str

  /** `str::trim_matches('"')` at the front. */
  function TrimFront(s: string): (r: string)
    ensures |r| <= |s| && r == s[|s| - |r|..]
    ensures |r| > 0 ==> r[0] != '"'
    ensures forall i :: 0 <= i < |s| - |r| ==> s[i] == '"'
  {
    if |s| > 0 && s[0] == '"' then TrimFront(s[1..]) else s
  }

  /** `str::trim_matches('"')` at the back. */
  function TrimBack(s: string): (r: string)
    ensures |r| <= |s| && r == s[..|r|]
    ensures |r| > 0 ==> r[|r| - 1] != '"'
    ensures forall i :: |r| <= i < |s| ==> s[i] == '"'
  {
    if |s| > 0 && s[|s| - 1] == '"' then TrimBack(s[..|s| - 1]) else s
  }

  /** `parse_series`: rule numbers separated by single spaces. */
  function ParseSeries(s: string): (r: Option<seq<nat>>)
    ensures r.Some? ==> |r.value| == |Split(s, ' ')|
  {
    ParseNumbers(Split(s, ' '))
  }

  /** `Rule::from_str`. A text starting with a quote is a literal: its first
      byte once the quotes around it are trimmed (a text of quotes only makes
      the byte index panic, `None` here). Otherwise a text containing " | "
      is a choice between the series before and after it, and anything else
      a single series. A piece that is not a number fails the parse. */
  function ParseRule(s: string): (r: Option<Rule>)
    ensures r.Some? ==> (r.value.Lit? <==> |s| > 0 && s[0] == '"')
    ensures r.Some? && r.value.Lit? ==> r.value.c != '"' && r.value.c in s
    ensures r.Some? && r.value.Or? ==> '|' in s
    ensures r.Some? && r.value.Series? ==> |r.value.ids| == |Split(s, ' ')|
  {
    if |s| > 0 && s[0] == '"' then
      var t := TrimBack(TrimFront(s));
      if t == [] then None
      else
        assert t[0] == TrimFront(s)[0];
        Some(Lit(t[0]))
    else
      match SplitOnce(s, " | ")
      case Some((a, b)) =>
        assert s[|a| + 1] == '|' by {
          assert s == a + " | " + b;
        }
        (match (ParseSeries(a), ParseSeries(b))
         case (Some(xs), Some(ys)) => Some(Or(xs, ys))
         case _ => None)
      case None =>
        match ParseSeries(s)
        case Some(xs) => Some(Series(xs))
        case None => None
  }

  /** Rule numbers written the way the puzzle writes them. */
  function ShowSeries(ids: seq<nat>): string
    requires |ids| > 0
  {
    Join(seq(|ids|, i requires 0 <= i < |ids| => ShowNat(ids[i])), ' ')
  }

  function ShowRule(r: Rule): string
    requires r.Series? ==> |r.ids| > 0
    requires r.Or? ==> |r.a| > 0 && |r.b| > 0
  {
    match r
    case Lit(c) => ['"', c, '"']
    case Series(ids) => ShowSeries(ids)
    case Or(a, b) => ShowSeries(a) + " | " + ShowSeries(b)
  }

  /** A written series is digits and spaces, starting with a digit. */
  lemma {:induction false} ShowSeriesChars(ids: seq<nat>)
    requires |ids| > 0
    ensures var s := ShowSeries(ids); |s| > 0 && IsDigit(s[0]) && '|' !in s && '"' !in s
    decreases |ids|
  {
    var pieces := seq(|ids|, i requires 0 <= i < |ids| => ShowNat(ids[i]));
    if |ids| > 1 {
      ShowSeriesChars(ids[1..]);
      var rest := seq(|ids| - 1, i requires 0 <= i < |ids| - 1 => ShowNat(ids[1..][i]));
      assert pieces[1..] == rest;
      assert ShowSeries(ids) == pieces[0] + [' '] + ShowSeries(ids[1..]);
    }
    var s := ShowSeries(ids);
    assert AllDigits(pieces[0]) && |pieces[0]| > 0;
    assert s[0] == pieces[0][0];
    assert '|' !in pieces[0] && '"' !in pieces[0] by {
      forall i | 0 <= i < |pieces[0]| ensures IsDigit(pieces[0][i]) { }
    }
  }

  /** A written series reads back. */
  lemma ParseShowSeries(ids: seq<nat>)
    requires |ids| > 0
    ensures ParseSeries(ShowSeries(ids)) == Some(ids)
  {
    var pieces := seq(|ids|, i requires 0 <= i < |ids| => ShowNat(ids[i]));
    forall i | 0 <= i < |pieces| ensures ' ' !in pieces[i] && ParseNat(pieces[i]) == Some(ids[i]) {
      ParseShowNat(ids[i]);
      assert AllDigits(pieces[i]);
    }
    SplitJoin(pieces, ' ');
    ParseEachAll(pieces, ParseNat, ids);
  }

  /** `split_once(" | ")` finds the bar of a written choice: the first text
      has no '|' in it, so no earlier occurrence of " | " exists. */
  lemma SplitChoice(a: string, b: string)
    requires '|' !in a
    ensures SplitOnce(a + " | " + b, " | ") == Some((a, b))
  {
    var s := a + " | " + b;
    forall j | j < |a| ensures !OccursAt(s, " | ", j) {
      if 0 <= j && j + 3 <= |s| {
        assert s[j..j + 3][1] == s[j + 1];
        if j + 1 < |a| {
          assert s[j + 1] == a[j + 1];
        } else {
          assert s[j + 1] == ' ';
        }
      }
    }
    SplitOnceJoin(a, " | ", b);
  }

  /** Every rule the puzzle can write reads back. */
  lemma ParseShowRule(r: Rule)
    requires r.Lit? ==> r.c != '"'
    requires r.Series? ==> |r.ids| > 0
    requires r.Or? ==> |r.a| > 0 && |r.b| > 0
    ensures ParseRule(ShowRule(r)) == Some(r)
  {
    match r
    case Lit(c) => ParseShowLit(c);
    case Series(ids) => ParseShowSeriesRule(ids);
    case Or(a, b) => ParseShowOr(a, b);
  }

  lemma ParseShowLit(c: char)
    requires c != '"'
    ensures ParseRule(['"', c, '"']) == Some(Lit(c))
  {
    var s := ['"', c, '"'];
    assert TrimFront(s) == [c, '"'] by {
      assert s[1..] == [c, '"'];
    }
    assert TrimBack([c, '"']) == [c] by {
      assert [c, '"'][..1] == [c];
    }
  }

  lemma ParseShowSeriesRule(ids: seq<nat>)
    requires |ids| > 0
    ensures ParseRule(ShowSeries(ids)) == Some(Series(ids))
  {
    ShowSeriesChars(ids);
    ParseShowSeries(ids);
  }

  lemma ParseShowOr(a: seq<nat>, b: seq<nat>)
    requires |a| > 0 && |b| > 0
    ensures ParseRule(ShowSeries(a) + " | " + ShowSeries(b)) == Some(Or(a, b))
  {
    ShowSeriesChars(a);
    ParseShowSeries(a);
    ParseShowSeries(b);
    SplitChoice(ShowSeries(a), ShowSeries(b));
    var s := ShowSeries(a) + " | " + ShowSeries(b);
    assert s[0] == ShowSeries(a)[0];
  }

  // ---------------------------------------------------------------------
  // match_message / match_series

  /** Append the results of two computations, failing as the first failing one does. */
  function Concat(x: Outcome<seq<string>>, y: Outcome<seq<string>>): (r: Outcome<seq<string>>)
    ensures r.Ok? <==> x.Ok? && y.Ok?
    ensures r.Ok? ==> r.value == x.value + y.value
    ensures !x.Ok? ==> r == x
    ensures x.Ok? && !y.Ok? ==> r == y
  {
    if !x.Ok? then x
    else if !y.Ok? then y
    else Ok(x.value + y.value)
  }

  lemma ConcatUnit(x: Outcome<seq<string>>)
    ensures Concat(Ok([]), x) == x
  {
    if x.Ok? {
      assert [] + x.value == x.value;
    }
  }

  lemma ConcatAssoc(p: seq<string>, v: seq<string>, x: Outcome<seq<string>>)
    ensures Concat(Ok(p), Concat(Ok(v), x)) == Concat(Ok(p + v), x)
  {
    if x.Ok? {
      assert p + (v + x.value) == p + v + x.value;
    }
  }

  /** `match_message`: the remainders of `msg` after each way rule `id`
      consumes a prefix of it. A missing rule panics on `unwrap`. A literal
      consumes the first byte when it is that byte; a series threads the
      message through each of its rules; a choice appends the remainders of
      its second series to those of its first. `fuel` bounds how deeply rules
      are looked up. */
  function Match(id: nat, rules: Rules, msg: string, fuel: nat): (r: Outcome<seq<string>>)
    decreases fuel, 0
  {
    if id !in rules then Panics
    else if fuel == 0 then OutOfFuel
    else
      match rules[id]
      case Lit(c) => Ok(if |msg| > 0 && msg[0] == c then [msg[1..]] else [])
      case Series(ids) => SeriesFrom(ids, rules, [msg], fuel - 1)
      case Or(a, b) => Concat(SeriesFrom(a, rules, [msg], fuel - 1), SeriesFrom(b, rules, [msg], fuel - 1))
  }

  /** One round of `match_series`: the candidates are popped from the end of
      the vector and the remainders of each are appended in that order. */
  function Thread(id: nat, rules: Rules, candidates: seq<string>, fuel: nat): (r: Outcome<seq<string>>)
    decreases fuel, 1, |candidates|
  {
    if candidates == [] then Ok([])
    else
      var n := |candidates| - 1;
      Concat(Match(id, rules, candidates[n], fuel), Thread(id, rules, candidates[..n], fuel))
  }

  /** `match_series` started from `candidates`: one round per rule of `ids`. */
  function SeriesFrom(ids: seq<nat>, rules: Rules, candidates: seq<string>, fuel: nat): (r: Outcome<seq<string>>)
    decreases fuel, 2, |ids|
  {
    if ids == [] then Ok(candidates)
    else
      match Thread(ids[0], rules, candidates, fuel)
      case Ok(next) => SeriesFrom(ids[1..], rules, next, fuel)
      case Panics => Panics
      case OutOfFuel => OutOfFuel
  }

  /** `match_series` as the source writes it: a vector of candidates emptied
      by `pop` into a new vector, once per rule of the series. */
  method MatchSeries(ids: seq<nat>, rules: Rules, msg: string, fuel: nat) returns (r: Outcome<seq<string>>)
    ensures r == SeriesFrom(ids, rules, [msg], fuel)
  {
    var candidates := [msg];
    for i := 0 to |ids|
      invariant SeriesFrom(ids, rules, [msg], fuel) == SeriesFrom(ids[i..], rules, candidates, fuel)
    {
      assert ids[i..][1..] == ids[i + 1..];
      ghost var all := candidates;
      var newCandidates := [];
      ConcatUnit(Thread(ids[i], rules, all, fuel));
      while candidates != []
        invariant Thread(ids[i], rules, all, fuel) == Concat(Ok(newCandidates), Thread(ids[i], rules, candidates, fuel))
        decreases |candidates|
      {
        var m := candidates[|candidates| - 1];
        candidates := candidates[..|candidates| - 1];
        var next := Match(ids[i], rules, m, fuel);
        if !next.Ok? {
          return next;
        }
        ConcatAssoc(newCandidates, next.value, Thread(ids[i], rules, candidates, fuel));
        newCandidates := newCandidates + next.value;
      }
      assert newCandidates + [] == newCandidates;
      candidates := newCandidates;
    }
    r := Ok(candidates);
  }

  // ---------------------------------------------------------------------
  // The grammar the rules describe

  /** Rule `id` derives the text `w` with rule lookups nested at most `depth` deep. */
  ghost predicate Derives(rules: Rules, id: nat, w: string, depth: nat)
    decreases depth, 0
  {
    depth > 0 && id in rules &&
    match rules[id]
    case Lit(c) => w == [c]
    case Series(ids) => DerivesSeries(rules, ids, w, depth - 1)
    case Or(a, b) => DerivesSeries(rules, a, w, depth - 1) || DerivesSeries(rules, b, w, depth - 1)
  }

  /** The rules of `ids`, in order, derive consecutive pieces of `w`. */
  ghost predicate DerivesSeries(rules: Rules, ids: seq<nat>, w: string, depth: nat)
    decreases depth, 1, |ids|
  {
    if ids == [] then w == []
    else exists k :: 0 <= k <= |w| && Derives(rules, ids[0], w[..k], depth) && DerivesSeries(rules, ids[1..], w[k..], depth)
  }

  /** The language of rule `id`. */
  ghost predicate InLanguage(rules: Rules, id: nat, w: string)
  {
    exists d: nat :: Derives(rules, id, w, d)
  }

  /** Every remainder is a suffix of the message left after a prefix the rule derives. */
  lemma {:induction false} MatchSound(rules: Rules, id: nat, msg: string, fuel: nat, r: string)
    requires Match(id, rules, msg, fuel).Ok? && r in Match(id, rules, msg, fuel).value
    ensures |r| <= |msg| && msg[|msg| - |r|..] == r && Derives(rules, id, msg[..|msg| - |r|], fuel)
    decreases fuel, 0
  {
    match rules[id]
    case Lit(c) =>
      assert msg[..1] == [c];
    case Series(ids) =>
      var i := SeriesSound(rules, ids, [msg], fuel - 1, r);
    case Or(a, b) =>
      var sa := SeriesFrom(a, rules, [msg], fuel - 1);
      if r in sa.value {
        var i := SeriesSound(rules, a, [msg], fuel - 1, r);
      } else {
        var i := SeriesSound(rules, b, [msg], fuel - 1, r);
      }
  }

  lemma {:induction false} ThreadSound(rules: Rules, id: nat, candidates: seq<string>, fuel: nat, r: string) returns (i: nat)
    requires Thread(id, rules, candidates, fuel).Ok? && r in Thread(id, rules, candidates, fuel).value
    ensures i < |candidates| && |r| <= |candidates[i]| && candidates[i][|candidates[i]| - |r|..] == r
    ensures Derives(rules, id, candidates[i][..|candidates[i]| - |r|], fuel)
    decreases fuel, 1, |candidates|
  {
    var n := |candidates| - 1;
    var m := Match(id, rules, candidates[n], fuel);
    if r in m.value {
      MatchSound(rules, id, candidates[n], fuel, r);
      i := n;
    } else {
      i := ThreadSound(rules, id, candidates[..n], fuel, r);
    }
  }

  lemma {:induction false} SeriesSound(rules: Rules, ids: seq<nat>, candidates: seq<string>, fuel: nat, r: string) returns (i: nat)
    requires SeriesFrom(ids, rules, candidates, fuel).Ok? && r in SeriesFrom(ids, rules, candidates, fuel).value
    ensures i < |candidates| && |r| <= |candidates[i]| && candidates[i][|candidates[i]| - |r|..] == r
    ensures DerivesSeries(rules, ids, candidates[i][..|candidates[i]| - |r|], fuel)
    decreases fuel, 2, |ids|
  {
    if ids == [] {
      i :| 0 <= i < |candidates| && candidates[i] == r;
    } else {
      var next := Thread(ids[0], rules, candidates, fuel).value;
      var j := SeriesSound(rules, ids[1..], next, fuel, r);
      var m := next[j];
      i := ThreadSound(rules, ids[0], candidates, fuel, m);
      var c := candidates[i];
      var w1 := c[..|c| - |m|];
      var w2 := m[..|m| - |r|];
      var w := c[..|c| - |r|];
      assert w == w1 + w2 by {
        assert c == w1 + m;
        assert m == w2 + r;
      }
      var k := |w1|;
      assert w[..k] == w1 && w[k..] == w2;
      assert Derives(rules, ids[0], w[..k], fuel) && DerivesSeries(rules, ids[1..], w[k..], fuel);
    }
  }

  /** Whenever matching succeeds, it leaves the remainder of every derivable prefix. */
  lemma {:induction false} MatchComplete(rules: Rules, id: nat, w: string, r: string, fuel: nat)
    requires Derives(rules, id, w, fuel) && Match(id, rules, w + r, fuel).Ok?
    ensures r in Match(id, rules, w + r, fuel).value
    decreases fuel, 0
  {
    match rules[id]
    case Lit(c) =>
      assert (w + r)[1..] == r;
    case Series(ids) =>
      SeriesComplete(rules, ids, w, r, [w + r], fuel - 1);
    case Or(a, b) =>
      if DerivesSeries(rules, a, w, fuel - 1) {
        SeriesComplete(rules, a, w, r, [w + r], fuel - 1);
      } else {
        SeriesComplete(rules, b, w, r, [w + r], fuel - 1);
      }
  }

  lemma {:induction false} ThreadComplete(rules: Rules, id: nat, w: string, r: string, candidates: seq<string>, fuel: nat)
    requires Derives(rules, id, w, fuel) && w + r in candidates && Thread(id, rules, candidates, fuel).Ok?
    ensures r in Thread(id, rules, candidates, fuel).value
    decreases fuel, 1, |candidates|
  {
    var n := |candidates| - 1;
    if candidates[n] == w + r {
      MatchComplete(rules, id, w, r, fuel);
    } else {
      assert candidates == candidates[..n] + [candidates[n]];
      ThreadComplete(rules, id, w, r, candidates[..n], fuel);
    }
  }

  lemma {:induction false} SeriesComplete(rules: Rules, ids: seq<nat>, w: string, r: string, candidates: seq<string>, fuel: nat)
    requires DerivesSeries(rules, ids, w, fuel) && w + r in candidates && SeriesFrom(ids, rules, candidates, fuel).Ok?
    ensures r in SeriesFrom(ids, rules, candidates, fuel).value
    decreases fuel, 2, |ids|
  {
    if ids == [] {
      assert w + r == r;
    } else {
      var k :| 0 <= k <= |w| && Derives(rules, ids[0], w[..k], fuel) && DerivesSeries(rules, ids[1..], w[k..], fuel);
      assert w[..k] + (w[k..] + r) == w + r by {
        assert w == w[..k] + w[k..];
      }
      ThreadComplete(rules, ids[0], w[..k], w[k..] + r, candidates, fuel);
      var next := Thread(ids[0], rules, candidates, fuel).value;
      SeriesComplete(rules, ids[1..], w[k..], r, next, fuel);
    }
  }

  /** More fuel changes nothing once the match has finished. */
  lemma {:induction false} MatchMore(rules: Rules, id: nat, msg: string, fuel: nat)
    requires Match(id, rules, msg, fuel) != OutOfFuel
    ensures Match(id, rules, msg, fuel + 1) == Match(id, rules, msg, fuel)
    decreases fuel, 0
  {
    if id in rules {
      match rules[id]
      case Lit(c) =>
      case Series(ids) =>
        SeriesMore(rules, ids, [msg], fuel - 1);
      case Or(a, b) =>
        SeriesMore(rules, a, [msg], fuel - 1);
        if SeriesFrom(a, rules, [msg], fuel - 1).Ok? {
          SeriesMore(rules, b, [msg], fuel - 1);
        }
    }
  }

  lemma {:induction false} ThreadMore(rules: Rules, id: nat, candidates: seq<string>, fuel: nat)
    requires Thread(id, rules, candidates, fuel) != OutOfFuel
    ensures Thread(id, rules, candidates, fuel + 1) == Thread(id, rules, candidates, fuel)
    decreases fuel, 1, |candidates|
  {
    if candidates != [] {
      var n := |candidates| - 1;
      MatchMore(rules, id, candidates[n], fuel);
      if Match(id, rules, candidates[n], fuel).Ok? {
        ThreadMore(rules, id, candidates[..n], fuel);
      }
    }
  }

  lemma {:induction false} SeriesMore(rules: Rules, ids: seq<nat>, candidates: seq<string>, fuel: nat)
    requires SeriesFrom(ids, rules, candidates, fuel) != OutOfFuel
    ensures SeriesFrom(ids, rules, candidates, fuel + 1) == SeriesFrom(ids, rules, candidates, fuel)
    decreases fuel, 2, |ids|
  {
    if ids != [] {
      ThreadMore(rules, ids[0], candidates, fuel);
      var t := Thread(ids[0], rules, candidates, fuel);
      if t.Ok? {
        SeriesMore(rules, ids[1..], t.value, fuel);
      }
    }
  }

  lemma {:induction false} MatchMoreUpTo(rules: Rules, id: nat, msg: string, fuel: nat, more: nat)
    requires Match(id, rules, msg, fuel) != OutOfFuel && fuel <= more
    ensures Match(id, rules, msg, more) == Match(id, rules, msg, fuel)
    decreases more - fuel
  {
    if fuel < more {
      MatchMore(rules, id, msg, fuel);
      MatchMoreUpTo(rules, id, msg, fuel + 1, more);
    }
  }

  /** A derivation within some depth is one within any larger depth. */
  lemma {:induction false} DerivesDeeper(rules: Rules, id: nat, w: string, depth: nat)
    requires Derives(rules, id, w, depth)
    ensures Derives(rules, id, w, depth + 1)
    decreases depth, 0
  {
    match rules[id]
    case Lit(c) =>
    case Series(ids) =>
      DerivesSeriesDeeper(rules, ids, w, depth - 1);
    case Or(a, b) =>
      if DerivesSeries(rules, a, w, depth - 1) {
        DerivesSeriesDeeper(rules, a, w, depth - 1);
      } else {
        DerivesSeriesDeeper(rules, b, w, depth - 1);
      }
  }

  lemma {:induction false} DerivesSeriesDeeper(rules: Rules, ids: seq<nat>, w: string, depth: nat)
    requires DerivesSeries(rules, ids, w, depth)
    ensures DerivesSeries(rules, ids, w, depth + 1)
    decreases depth, 1, |ids|
  {
    if ids != [] {
      var k :| 0 <= k <= |w| && Derives(rules, ids[0], w[..k], depth) && DerivesSeries(rules, ids[1..], w[k..], depth);
      DerivesDeeper(rules, ids[0], w[..k], depth);
      DerivesSeriesDeeper(rules, ids[1..], w[k..], depth);
      assert Derives(rules, ids[0], w[..k], depth + 1) && DerivesSeries(rules, ids[1..], w[k..], depth + 1);
    }
  }

  lemma {:induction false} DerivesUpTo(rules: Rules, id: nat, w: string, depth: nat, more: nat)
    requires Derives(rules, id, w, depth) && depth <= more
    ensures Derives(rules, id, w, more)
    decreases more - depth
  {
    if depth < more {
      DerivesDeeper(rules, id, w, depth);
      DerivesUpTo(rules, id, w, depth + 1, more);
    }
  }

  /** When matching finishes, the empty remainder is among its results exactly
      when the whole message is in the rule's language, at any depth. */
  lemma EmptyRemainderIffInLanguage(rules: Rules, id: nat, msg: string, fuel: nat)
    requires Match(id, rules, msg, fuel).Ok?
    ensures [] in Match(id, rules, msg, fuel).value <==> InLanguage(rules, id, msg)
  {
    if [] in Match(id, rules, msg, fuel).value {
      MatchSound(rules, id, msg, fuel, []);
      assert msg[..|msg|] == msg;
    }
    if InLanguage(rules, id, msg) {
      var d: nat :| Derives(rules, id, msg, d);
      assert msg + [] == msg;
      if d <= fuel {
        DerivesUpTo(rules, id, msg, d, fuel);
        MatchComplete(rules, id, msg, [], fuel);
      } else {
        MatchMoreUpTo(rules, id, msg, fuel, d);
        MatchComplete(rules, id, msg, [], d);
      }
    }
  }

  // ---------------------------------------------------------------------
  // part_1 / part_2

  /** The source's test: the last remainder popped from rule 0's results is empty. */
  predicate AcceptsAsWritten(o: Outcome<seq<string>>)
  {
    o.Ok? && |o.value| > 0 && o.value[|o.value| - 1] == []
  }

  /** The intended test: some remainder of rule 0 is empty. */
  predicate Accepts(o: Outcome<seq<string>>)
  {
    o.Ok? && [] in o.value
  }

  /** The number of messages accepted by rule 0, `lastOnly` choosing the
      source's test or the intended one; a panic or exhausted fuel on any
      message is the result. */
  function CountAccepted(rules: Rules, msgs: seq<string>, fuel: nat, lastOnly: bool): (r: Outcome<nat>)
    ensures r.Ok? ==> r.value <= |msgs|
  {
    if msgs == [] then Ok(0)
    else
      var o := Match(0, rules, msgs[0], fuel);
      if !o.Ok? then (if o.Panics? then Panics else OutOfFuel)
      else
        match CountAccepted(rules, msgs[1..], fuel, lastOnly)
        case Ok(n) => Ok(n + (if (if lastOnly then AcceptsAsWritten(o) else Accepts(o)) then 1 else 0))
        case Panics => Panics
        case OutOfFuel => OutOfFuel
  }

  /** `part_1` as written. */
  function Part1AsWritten(rules: Rules, msgs: seq<string>, fuel: nat): Outcome<nat>
  {
    CountAccepted(rules, msgs, fuel, true)
  }

  /** `part_1` with the intended test. */
  function Part1(rules: Rules, msgs: seq<string>, fuel: nat): Outcome<nat>
  {
    CountAccepted(rules, msgs, fuel, false)
  }

  /** `part_2`'s replacement of rules 8 and 11 by their looping forms. */
  function Loop(rules: Rules): (r: Rules)
    ensures r.Keys == rules.Keys + {8, 11}
    ensures r[8] == Or([42], [42, 8]) && r[11] == Or([42, 31], [42, 11, 31])
    ensures forall id :: id in rules && id != 8 && id != 11 ==> r[id] == rules[id]
  {
    rules[8 := Or([42], [42, 8])][11 := Or([42, 31], [42, 11, 31])]
  }

  function Part2AsWritten(rules: Rules, msgs: seq<string>, fuel: nat): Outcome<nat>
  {
    CountAccepted(Loop(rules), msgs, fuel, true)
  }

  function Part2(rules: Rules, msgs: seq<string>, fuel: nat): Outcome<nat>
  {
    CountAccepted(Loop(rules), msgs, fuel, false)
  }

  /** The messages in rule 0's language. */
  ghost function LanguageCount(rules: Rules, msgs: seq<string>): nat
  {
    if msgs == [] then 0
    else (if InLanguage(rules, 0, msgs[0]) then 1 else 0) + LanguageCount(rules, msgs[1..])
  }

  /** The intended count is the number of messages rule 0 derives. */
  lemma {:induction false} CountIsLanguage(rules: Rules, msgs: seq<string>, fuel: nat)
    requires CountAccepted(rules, msgs, fuel, false).Ok?
    ensures CountAccepted(rules, msgs, fuel, false).value == LanguageCount(rules, msgs)
  {
    if msgs != [] {
      EmptyRemainderIffInLanguage(rules, 0, msgs[0], fuel);
      CountIsLanguage(rules, msgs[1..], fuel);
    }
  }

  /** Both counts finish together, and the source never counts a message the
      intended test rejects. */
  lemma {:induction false} AsWrittenAtMost(rules: Rules, msgs: seq<string>, fuel: nat)
    ensures CountAccepted(rules, msgs, fuel, true).Ok? <==> CountAccepted(rules, msgs, fuel, false).Ok?
    ensures CountAccepted(rules, msgs, fuel, true).Ok? ==>
      CountAccepted(rules, msgs, fuel, true).value <= CountAccepted(rules, msgs, fuel, false).value
  {
    if msgs != [] {
      AsWrittenAtMost(rules, msgs[1..], fuel);
      var o := Match(0, rules, msgs[0], fuel);
      if AcceptsAsWritten(o) {
        assert o.value[|o.value| - 1] in o.value;
      }
    }
  }

  lemma Part1Language(rules: Rules, msgs: seq<string>, fuel: nat)
    requires Part1(rules, msgs, fuel).Ok?
    ensures Part1(rules, msgs, fuel).value == LanguageCount(rules, msgs)
    ensures Part1AsWritten(rules, msgs, fuel).Ok? && Part1AsWritten(rules, msgs, fuel).value <= Part1(rules, msgs, fuel).value
  {
    CountIsLanguage(rules, msgs, fuel);
    AsWrittenAtMost(rules, msgs, fuel);
  }

  lemma Part2Language(rules: Rules, msgs: seq<string>, fuel: nat)
    requires Part2(rules, msgs, fuel).Ok?
    ensures Part2(rules, msgs, fuel).value == LanguageCount(Loop(rules), msgs)
    ensures Part2AsWritten(rules, msgs, fuel).Ok? && Part2AsWritten(rules, msgs, fuel).value <= Part2(rules, msgs, fuel).value
  {
    CountIsLanguage(Loop(rules), msgs, fuel);
    AsWrittenAtMost(Loop(rules), msgs, fuel);
  }

  /** A choice whose first series consumes more than its second leaves the
      empty remainder first: rules `0: 1 1 | 1` and `1: "a"` derive "aa",
      but the last remainder is "a", so the source does not count it. */
  lemma AsWrittenMissesMatch(rules: Rules)
    requires rules == map[0 := Or([1, 1], [1]), 1 := Lit('a')]
    ensures Match(0, rules, "aa", 2) == Ok(["", "a"])
    ensures !AcceptsAsWritten(Match(0, rules, "aa", 2)) && Accepts(Match(0, rules, "aa", 2))
    ensures InLanguage(rules, 0, "aa")
    ensures Part1AsWritten(rules, ["aa"], 2) == Ok(0) && Part1(rules, ["aa"], 2) == Ok(1)
  {
    assert Match(1, rules, "aa", 1) == Ok(["a"]);
    assert Match(1, rules, "a", 1) == Ok([""]);
    assert ["aa"][..0] == [] && ["a"][..0] == [];
    assert ["a"] + [] == ["a"] && [""] + [] == [""];
    assert Thread(1, rules, [], 1) == Ok([]);
    assert Thread(1, rules, ["aa"], 1) == Ok(["a"]);
    assert Thread(1, rules, ["a"], 1) == Ok([""]);
    assert SeriesFrom([1], rules, ["a"], 1) == Ok([""]);
    assert SeriesFrom([1, 1], rules, ["aa"], 1) == Ok([""]);
    assert SeriesFrom([1], rules, ["aa"], 1) == Ok(["a"]);
    assert [""] + ["a"] == ["", "a"];
    assert Match(0, rules, "aa", 2) == Ok(["", "a"]);
    assert "" in ["", "a"];
    EmptyRemainderIffInLanguage(rules, 0, "aa", 2);
    assert ["aa"][1..] == [];
    assert CountAccepted(rules, [], 2, true) == Ok(0) && CountAccepted(rules, [], 2, false) == Ok(0);
    assert CountAccepted(rules, ["aa"], 2, true) == Ok(0);
    assert CountAccepted(rules, ["aa"], 2, false) == Ok(1);
  }
}
