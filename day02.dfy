/** Day 2: password policies. Each input line is "min-max c: password"; the
    part-1 policy bounds how often `c` occurs, the part-2 policy asks for `c` at
    exactly one of two 1-based positions. Passwords are byte strings; a byte is
    a `char` below 256 here. */
module Day02 {
  import opened Text
  import opened Seqs
  import opened Folds

  datatype Rule = Rule(min: nat, max: nat, letter: char)

  type Password = seq<char>

  /** `u8::from_str`. */
  function ParseByte(s: string): (r: Option<nat>)
    ensures r.Some? ==> r.value < 256 && ParseNat(s) == r
  {
    match ParseNat(s)
    case Some(n) => if n < 256 then Some(n) else None
    case None => None
  }

  /** One line; `None` where the source's `unwrap`, index or number parse fails. */
  function ParseLine(line: string): Option<(Rule, Password)>
  {
    match SplitOnce(line, ": ")
    case None => None
    case Some((rule, password)) =>
      match SplitOnce(rule, " ")
      case None => None
      case Some((range, ch)) =>
        match SplitOnce(range, "-")
        case None => None
        case Some((lo, hi)) =>
          match (ParseByte(lo), ParseByte(hi))
          case (Some(min), Some(max)) =>
            if ch == [] then None else Some((Rule(min, max, ch[0]), password))
          case _ => None
  }

  function Parse(lines: seq<string>): (r: Option<seq<(Rule, Password)>>)
    ensures r.Some? ==> |r.value| == |lines| && forall i :: 0 <= i < |lines| ==> ParseLine(lines[i]) == Some(r.value[i])
    ensures r.None? ==> exists i :: 0 <= i < |lines| && ParseLine(lines[i]).None?
  {
    ParseEach(lines, ParseLine)
  }

  /** The line a rule and password are written as. */
  function ShowLine(rule: Rule, password: Password): string
  {
    ShowNat(rule.min) + "-" + ShowNat(rule.max) + " " + [rule.letter] + ": " + password
  }

  lemma DigitsExclude(s: string, c: char)
    requires AllDigits(s) && !IsDigit(c)
    ensures c !in s
  {
    forall i | 0 <= i < |s| ensures s[i] != c {
      assert IsDigit(s[i]);
    }
  }

  /** `parse` reads back every line written by `ShowLine` (a rule character ':'
      would be read as the start of the separator, so it is excluded). */
  lemma ParseShowLine(rule: Rule, password: Password)
    requires rule.min < 256 && rule.max < 256 && rule.letter != ':'
    ensures ParseLine(ShowLine(rule, password)) == Some((rule, password))
  {
    var lo, hi := ShowNat(rule.min), ShowNat(rule.max);
    var range := lo + "-" + hi;
    var head := range + " " + [rule.letter];
    DigitsExclude(lo, ':');
    DigitsExclude(hi, ':');
    DigitsExclude(lo, ' ');
    DigitsExclude(hi, ' ');
    DigitsExclude(lo, '-');
    assert ':' !in head;
    assert ShowLine(rule, password) == head + ": " + password;
    SplitOnceAt(head, ": ", password);
    assert ' ' !in range;
    SplitOnceAt(range, " ", [rule.letter]);
    SplitOnceAt(lo, "-", hi);
    ParseShowNat(rule.min);
    ParseShowNat(rule.max);
  }

  /** The occurrence count of every byte of the password, as `char_count` builds it. */
  function Counts(password: Password): (m: map<char, nat>)
    ensures forall c :: c in m <==> c in password
    ensures forall c :: c in m ==> m[c] == multiset(password)[c]
  {
    if password == [] then map[]
    else
      var init := password[..|password| - 1];
      var c := password[|password| - 1];
      assert password == init + [c];
      var m := Counts(init);
      m[c := (if c in m then m[c] else 0) + 1]
  }

  /** `char_count`: the loop over the password that bumps one entry per byte. */
  method CharCount(password: Password) returns (count: map<char, nat>)
    ensures count == Counts(password)
  {
    count := map[];
    for i := 0 to |password|
      invariant count == Counts(password[..i])
    {
      var c := password[i];
      assert password[..i + 1] == password[..i] + [c];
      CountsSnoc(password[..i], c);
      count := count[c := (if c in count then count[c] else 0) + 1];
    }
    assert password[..|password|] == password;
  }

  /** One more byte bumps its own count. */
  lemma CountsSnoc(password: Password, c: char)
    ensures var m := Counts(password);
      Counts(password + [c]) == m[c := (if c in m then m[c] else 0) + 1]
  {
    assert (password + [c])[..|password|] == password;
  }

  /** The counts add up to the password's length. */
  lemma {:induction false} CountsTotal(password: Password)
    ensures ValueSum(Counts(password)) == |password|
  {
    if password != [] {
      var init := password[..|password| - 1];
      var c := password[|password| - 1];
      var m0 := Counts(init);
      var m := Counts(password);
      CountsTotal(init);
      var f0 := k => if k in m0 then m0[k] else 0;
      var f := k => if k in m then m[k] else 0;
      if c in m0 {
        assert m.Keys == m0.Keys;
        SetSumRemove(m0.Keys, f0, c);
        SetSumRemove(m.Keys, f, c);
        SetSumCongruent(m0.Keys - {c}, f0, f);
      } else {
        assert m.Keys == m0.Keys + {c};
        SetSumAdd(m0.Keys, f, c);
        SetSumCongruent(m0.Keys, f0, f);
      }
    }
  }

  /** `valid_part_1`: looks the rule's byte up in the count map; a missing
      byte fails the rule even when `min` is 0. */
  function ValidPart1(rule: Rule, password: Password): (ok: bool)
    ensures ok <==> rule.letter in password && rule.min <= multiset(password)[rule.letter] <= rule.max
  {
    var counts := Counts(password);
    if rule.letter in counts then rule.min <= counts[rule.letter] <= rule.max else false
  }

  /** `valid_part_2`: exactly one of the 1-based positions `min` and `max` holds
      the byte; the source indexes without a check, so both must be in range. */
  function ValidPart2(rule: Rule, password: Password): bool
    requires 1 <= rule.min <= |password| && 1 <= rule.max <= |password|
  {
    (password[rule.min - 1] == rule.letter) != (password[rule.max - 1] == rule.letter)
  }

  /** With a single position named twice, the part-2 rule can never hold; with
      two distinct positions it holds iff exactly one of them has the byte. */
  lemma ValidPart2Exactly(rule: Rule, password: Password)
    requires 1 <= rule.min <= |password| && 1 <= rule.max <= |password|
    ensures rule.min == rule.max ==> !ValidPart2(rule, password)
    ensures rule.min != rule.max ==>
      (ValidPart2(rule, password) <==>
        multiset{password[rule.min - 1], password[rule.max - 1]}[rule.letter] == 1)
  {
  }

  /** `count_valid`: how many entries satisfy the policy. */
  function CountValid(entries: seq<(Rule, Password)>, valid: (Rule, Password) --> bool): (n: nat)
    requires forall i :: 0 <= i < |entries| ==> valid.requires(entries[i].0, entries[i].1)
    ensures n <= |entries|
    ensures n == 0 <==> forall i :: 0 <= i < |entries| ==> !valid(entries[i].0, entries[i].1)
    ensures n == |entries| <==> forall i :: 0 <= i < |entries| ==> valid(entries[i].0, entries[i].1)
  {
    if entries == [] then 0
    else
      assert forall i :: 1 <= i < |entries| ==> entries[i] == entries[1..][i - 1];
      (if valid(entries[0].0, entries[0].1) then 1 else 0) + CountValid(entries[1..], valid)
  }

  lemma {:induction false} CountValidAppend(a: seq<(Rule, Password)>, b: seq<(Rule, Password)>, valid: (Rule, Password) --> bool)
    requires forall i :: 0 <= i < |a| ==> valid.requires(a[i].0, a[i].1)
    requires forall i :: 0 <= i < |b| ==> valid.requires(b[i].0, b[i].1)
    ensures forall i :: 0 <= i < |a + b| ==> valid.requires((a + b)[i].0, (a + b)[i].1)
    ensures CountValid(a + b, valid) == CountValid(a, valid) + CountValid(b, valid)
  {
    if a == [] {
      assert a + b == b;
    } else {
      assert (a + b)[1..] == a[1..] + b;
      CountValidAppend(a[1..], b, valid);
    }
  }

  function Part1(entries: seq<(Rule, Password)>): nat
  {
    CountValid(entries, ValidPart1)
  }

  predicate PositionsInRange(entries: seq<(Rule, Password)>)
  {
    forall i :: 0 <= i < |entries| ==> 1 <= entries[i].0.min <= |entries[i].1| && 1 <= entries[i].0.max <= |entries[i].1|
  }

  function Part2(entries: seq<(Rule, Password)>): nat
    requires PositionsInRange(entries)
  {
    CountValid(entries, ValidPart2)
  }

  lemma ExampleEntry0(p: Password)
    requires p == "abcde"
    ensures ValidPart1(Rule(1, 3, 'a'), p) && ValidPart2(Rule(1, 3, 'a'), p)
  {
    assert multiset(p)['a'] == 1;
  }

  lemma ExampleEntry1(p: Password)
    requires p == "cdefg"
    ensures !ValidPart1(Rule(1, 3, 'b'), p) && !ValidPart2(Rule(1, 3, 'b'), p)
  {
    assert 'b' !in p;
  }

  lemma ExampleEntry2(p: Password)
    requires p == "ccccccccc"
    ensures ValidPart1(Rule(2, 9, 'c'), p) && !ValidPart2(Rule(2, 9, 'c'), p)
  {
    assert multiset(p)['c'] == 9;
  }

  lemma CountValidThree(entries: seq<(Rule, Password)>, valid: (Rule, Password) --> bool)
    requires |entries| == 3
    requires forall i :: 0 <= i < 3 ==> valid.requires(entries[i].0, entries[i].1)
    ensures CountValid(entries, valid) ==
      (if valid(entries[0].0, entries[0].1) then 1 else 0) +
      (if valid(entries[1].0, entries[1].1) then 1 else 0) +
      (if valid(entries[2].0, entries[2].1) then 1 else 0)
  {
    var t1 := entries[1..];
    var t2 := t1[1..];
    assert t1[0] == entries[1] && t2[0] == entries[2] && t2[1..] == [];
  }

  predicate IsExample(entries: seq<(Rule, Password)>)
  {
    |entries| == 3
    && entries[0] == (Rule(1, 3, 'a'), "abcde")
    && entries[1] == (Rule(1, 3, 'b'), "cdefg")
    && entries[2] == (Rule(2, 9, 'c'), "ccccccccc")
  }

  /** The puzzle's example database: two passwords meet the part-1 policy. */
  lemma ExamplePart1(entries: seq<(Rule, Password)>)
    requires IsExample(entries)
    ensures Part1(entries) == 2
  {
    ExampleEntry0(entries[0].1);
    ExampleEntry1(entries[1].1);
    ExampleEntry2(entries[2].1);
    CountValidThree(entries, ValidPart1);
  }

  /** The puzzle's example database: one password meets the part-2 policy. */
  lemma ExamplePart2(entries: seq<(Rule, Password)>)
    requires IsExample(entries)
    ensures PositionsInRange(entries) && Part2(entries) == 1
  {
    ExampleEntry0(entries[0].1);
    ExampleEntry1(entries[1].1);
    ExampleEntry2(entries[2].1);
    forall i | 0 <= i < |entries|
      ensures 1 <= entries[i].0.min <= |entries[i].1| && 1 <= entries[i].0.max <= |entries[i].1|
    {
      assert i == 0 || i == 1 || i == 2;
    }
    CountValidThree(entries, ValidPart2);
  }
}
