/** Day 4: passport batches. Records are separated by empty lines and consist
    of "key:value" pairs separated by white space; part 1 counts the records
    holding the seven required fields, part 2 those whose fields also pass
    the value rules. */
module Day04 {
  import opened Text
  import opened Seqs

  datatype Height = Cm(cm: nat) | In(inches: nat) | NotSpecified(value: nat)

  datatype Passport = Passport(
    byr: nat, iyr: nat, eyr: nat, hgt: Height,
    hcl: string, ecl: string, pid: string, cid: Option<nat>)

  /** The fields read so far; `None` where a key has not been seen. */
  datatype Builder = Builder(
    byr: Option<nat>, iyr: Option<nat>, eyr: Option<nat>, hgt: Option<Height>,
    hcl: Option<string>, ecl: Option<string>, pid: Option<string>, cid: Option<nat>)

  const Empty: Builder := Builder(None, None, None, None, None, None, None, None)

  /** `Height::parse`: a "cm" or "in" suffix selects the unit, anything else
      reads the whole value as a bare number. A value shorter than two bytes
      makes the source's slice panic: `None`, like a number that does not parse. */
  function ParseHeight(value: string): (r: Option<Height>)
    ensures |value| < 2 ==> r.None?
    ensures |value| >= 2 && value[|value| - 2..] == "cm" ==>
      r == (match ParseNat(value[..|value| - 2]) case Some(n) => Some(Cm(n)) case None => None)
    ensures |value| >= 2 && value[|value| - 2..] == "in" ==>
      r == (match ParseNat(value[..|value| - 2]) case Some(n) => Some(In(n)) case None => None)
    ensures r.Some? && r.value.NotSpecified? ==> ParseNat(value) == Some(r.value.value)
  {
    if |value| < 2 then None
    else
      var number := value[..|value| - 2];
      var unit := value[|value| - 2..];
      if unit == "cm" then
        match ParseNat(number) case Some(n) => Some(Cm(n)) case None => None
      else if unit == "in" then
        match ParseNat(number) case Some(n) => Some(In(n)) case None => None
      else
        match ParseNat(value) case Some(n) => Some(NotSpecified(n)) case None => None
  }

  function Key(keyPair: string): string
    requires |keyPair| >= 4
  {
    keyPair[..3]
  }

  predicate KnownKey(key: string)
  {
    key in {"byr", "iyr", "eyr", "hgt", "hcl", "ecl", "pid", "cid"}
  }

  /** `PassportBuilder::parse`: the key is bytes 0-2, the value starts at byte 4
      (byte 3 is skipped). `None` where the source fails: a pair shorter than
      four bytes (slice panic), a number that does not parse, an unknown key
      (`unreachable!`). Only the named field changes; a repeated key overwrites. */
  function Apply(b: Builder, keyPair: string): (r: Option<Builder>)
    ensures (|keyPair| < 4 || !KnownKey(keyPair[..3])) ==> r.None?
    ensures r.Some? ==> |keyPair| >= 4 && KnownKey(Key(keyPair))
    ensures r.Some? && Key(keyPair) != "byr" ==> r.value.byr == b.byr
    ensures r.Some? && Key(keyPair) != "iyr" ==> r.value.iyr == b.iyr
    ensures r.Some? && Key(keyPair) != "eyr" ==> r.value.eyr == b.eyr
    ensures r.Some? && Key(keyPair) != "hgt" ==> r.value.hgt == b.hgt
    ensures r.Some? && Key(keyPair) != "hcl" ==> r.value.hcl == b.hcl
    ensures r.Some? && Key(keyPair) != "ecl" ==> r.value.ecl == b.ecl
    ensures r.Some? && Key(keyPair) != "pid" ==> r.value.pid == b.pid
    ensures r.Some? && Key(keyPair) != "cid" ==> r.value.cid == b.cid
    ensures |keyPair| >= 4 && Key(keyPair) in {"byr", "iyr", "eyr", "cid"} ==>
      (r.Some? <==> ParseNat(keyPair[4..]).Some?)
    ensures r.Some? && Key(keyPair) == "byr" ==> r.value.byr == ParseNat(keyPair[4..])
    ensures r.Some? && Key(keyPair) == "iyr" ==> r.value.iyr == ParseNat(keyPair[4..])
    ensures r.Some? && Key(keyPair) == "eyr" ==> r.value.eyr == ParseNat(keyPair[4..])
    ensures r.Some? && Key(keyPair) == "cid" ==> r.value.cid == ParseNat(keyPair[4..])
    ensures |keyPair| >= 4 && Key(keyPair) == "hgt" ==> (r.Some? <==> ParseHeight(keyPair[4..]).Some?)
    ensures r.Some? && Key(keyPair) == "hgt" ==> r.value.hgt == ParseHeight(keyPair[4..])
    ensures |keyPair| >= 4 && Key(keyPair) in {"hcl", "ecl", "pid"} ==> r.Some?
    ensures r.Some? && Key(keyPair) == "hcl" ==> r.value.hcl == Some(keyPair[4..])
    ensures r.Some? && Key(keyPair) == "ecl" ==> r.value.ecl == Some(keyPair[4..])
    ensures r.Some? && Key(keyPair) == "pid" ==> r.value.pid == Some(keyPair[4..])
  {
    if |keyPair| < 4 then None
    else
      var key := keyPair[..3];
      var value := keyPair[4..];
      if key == "byr" then (match ParseNat(value) case Some(n) => Some(b.(byr := Some(n))) case None => None)
      else if key == "iyr" then (match ParseNat(value) case Some(n) => Some(b.(iyr := Some(n))) case None => None)
      else if key == "eyr" then (match ParseNat(value) case Some(n) => Some(b.(eyr := Some(n))) case None => None)
      else if key == "hgt" then (match ParseHeight(value) case Some(h) => Some(b.(hgt := Some(h))) case None => None)
      else if key == "hcl" then Some(b.(hcl := Some(value)))
      else if key == "ecl" then Some(b.(ecl := Some(value)))
      else if key == "pid" then Some(b.(pid := Some(value)))
      else if key == "cid" then (match ParseNat(value) case Some(n) => Some(b.(cid := Some(n))) case None => None)
      else None
  }

  /** A repeated key overwrites: the earlier pair has no effect once the later one is applied. */
  lemma ApplyOverwrites(b: Builder, first: string, second: string)
    requires |first| >= 4 && |second| >= 4 && Key(first) == Key(second)
    requires Apply(b, first).Some?
    ensures Apply(Apply(b, first).value, second) == Apply(b, second)
  {
  }

  /** `PassportBuilder`: the record being read, updated in place pair by pair. */
  class PassportBuilder {
    var byr: Option<nat>
    var iyr: Option<nat>
    var eyr: Option<nat>
    var hgt: Option<Height>
    var hcl: Option<string>
    var ecl: Option<string>
    var pid: Option<string>
    var cid: Option<nat>

    /** The fields as a value: what `clone` copies into the batch. */
    function Snapshot(): Builder
      reads this
    {
      Builder(byr, iyr, eyr, hgt, hcl, ecl, pid, cid)
    }

    /** `PassportBuilder::new`: no field seen yet. */
    constructor ()
      ensures Snapshot() == Empty
    {
      byr, iyr, eyr, hgt := None, None, None, None;
      hcl, ecl, pid, cid := None, None, None, None;
    }

    /** `PassportBuilder::parse`: stores the pair's value in the field its key
        names, as `Apply` says; on failure no field is written. */
    method Parse(keyPair: string) returns (ok: bool)
      modifies this
      ensures ok <==> Apply(old(Snapshot()), keyPair).Some?
      ensures ok ==> Snapshot() == Apply(old(Snapshot()), keyPair).value
      ensures !ok ==> Snapshot() == old(Snapshot())
    {
      if |keyPair| < 4 {
        return false;
      }
      var key := keyPair[..3];
      var value := keyPair[4..];
      ok := true;
      if key == "byr" {
        var n := ParseNat(value);
        if n.None? { return false; }
        byr := n;
      } else if key == "iyr" {
        var n := ParseNat(value);
        if n.None? { return false; }
        iyr := n;
      } else if key == "eyr" {
        var n := ParseNat(value);
        if n.None? { return false; }
        eyr := n;
      } else if key == "hgt" {
        var h := ParseHeight(value);
        if h.None? { return false; }
        hgt := h;
      } else if key == "hcl" {
        hcl := Some(value);
      } else if key == "ecl" {
        ecl := Some(value);
      } else if key == "pid" {
        pid := Some(value);
      } else if key == "cid" {
        var n := ParseNat(value);
        if n.None? { return false; }
        cid := n;
      } else {
        ok := false;
      }
    }
  }

  /** The pairs of one line, left to right; the first failing pair fails the line. */
  function ApplyWords(b: Builder, words: seq<string>): (r: Option<Builder>)
  {
    if words == [] then Some(b)
    else
      match ApplyWords(b, words[..|words| - 1])
      case None => None
      case Some(b') => Apply(b', words[|words| - 1])
  }

  /** The lines of one record, top to bottom. */
  function ApplyLines(b: Builder, lines: seq<string>): (r: Option<Builder>)
  {
    if lines == [] then Some(b)
    else
      match ApplyLines(b, lines[..|lines| - 1])
      case None => None
      case Some(b') => ApplyWords(b', SplitWhitespace(lines[|lines| - 1]))
  }

  /** Once a record has failed, more lines cannot repair it. */
  lemma {:induction false} ApplyLinesFailed(b: Builder, lines: seq<string>, more: seq<string>)
    requires ApplyLines(b, lines).None?
    ensures ApplyLines(b, lines + more).None?
    decreases |more|
  {
    if more == [] {
      assert lines + more == lines;
    } else {
      var init := more[..|more| - 1];
      assert (lines + more)[..|lines + more| - 1] == lines + init;
      ApplyLinesFailed(b, lines, init);
    }
  }

  /** The reference reading of a batch: each record between empty lines is
      built from scratch; any failing pair fails the whole batch. */
  function Records(records: seq<seq<string>>): (r: Option<seq<Builder>>)
    ensures r.Some? <==> forall k :: 0 <= k < |records| ==> ApplyLines(Empty, records[k]).Some?
    ensures r.Some? ==> |r.value| == |records| && forall k :: 0 <= k < |records| ==> Some(r.value[k]) == ApplyLines(Empty, records[k])
  {
    if records == [] then Some([])
    else
      match Records(records[..|records| - 1])
      case None => None
      case Some(done) =>
        match ApplyLines(Empty, records[|records| - 1])
        case None => None
        case Some(b) => Some(done + [b])
  }

  /** The inner loop of `parse`: the pairs of one line handed to the builder
      in turn, stopping at the first that fails. */
  method ParseLine(pb: PassportBuilder, line: string) returns (ok: bool)
    modifies pb
    ensures var r := ApplyWords(old(pb.Snapshot()), SplitWhitespace(line));
      ok == r.Some? && (ok ==> pb.Snapshot() == r.value)
  {
    var words := SplitWhitespace(line);
    ghost var start := pb.Snapshot();
    for j := 0 to |words|
      invariant ApplyWords(start, words[..j]) == Some(pb.Snapshot())
    {
      ApplyWordsSnoc(start, words, j);
      ok := pb.Parse(words[j]);
      if !ok {
        WordsFailed(start, words, j + 1);
        return false;
      }
    }
    assert words[..|words|] == words;
    return true;
  }

  /** One more pair of the line. */
  lemma ApplyWordsSnoc(b: Builder, words: seq<string>, j: nat)
    requires j < |words|
    ensures ApplyWords(b, words[..j + 1])
      == match ApplyWords(b, words[..j]) case None => None case Some(b') => Apply(b', words[j])
  {
    assert words[..j + 1][..j] == words[..j];
  }

  lemma {:induction false} WordsFailed(b: Builder, words: seq<string>, j: nat)
    requires j <= |words| && ApplyWords(b, words[..j]).None?
    ensures ApplyWords(b, words).None?
    decreases |words| - j
  {
    if j < |words| {
      assert words[..j + 1][..j] == words[..j];
      WordsFailed(b, words, j + 1);
    } else {
      assert words[..j] == words;
    }
  }

  /** What the loop of `parse` keeps after the first `i` lines: the builders
      pushed so far are the finished records, `pb` is the open one. */
  predicate ParseState(lines: seq<string>, i: nat, builders: seq<Builder>, pb: Builder)
    requires i <= |lines|
  {
    var p := Paragraphs(lines[..i]);
    Records(p[..|p| - 1]) == Some(builders) && ApplyLines(Empty, p[|p| - 1]) == Some(pb)
  }

  /** An empty line closes the open record and starts a new one. */
  lemma ParseStepEmpty(lines: seq<string>, i: nat, builders: seq<Builder>, pb: Builder)
    requires i < |lines| && lines[i] == [] && ParseState(lines, i, builders, pb)
    ensures ParseState(lines, i + 1, builders + [pb], Empty)
  {
    assert lines[..i + 1][..i] == lines[..i];
    var p := Paragraphs(lines[..i]);
    var p' := Paragraphs(lines[..i + 1]);
    assert p' == p + [[]];
    assert p'[..|p'| - 1] == p;
    assert p[..|p| - 1] == p'[..|p'| - 1][..|p| - 1];
  }

  /** A line of pairs extends the open record. */
  lemma ParseStepLine(lines: seq<string>, i: nat, builders: seq<Builder>, pb: Builder)
    requires i < |lines| && lines[i] != [] && ParseState(lines, i, builders, pb)
    ensures var p' := Paragraphs(lines[..i + 1]);
      Records(p'[..|p'| - 1]) == Some(builders)
      && ApplyLines(Empty, p'[|p'| - 1]) == ApplyWords(pb, SplitWhitespace(lines[i]))
  {
    assert lines[..i + 1][..i] == lines[..i];
    var p := Paragraphs(lines[..i]);
    var p' := Paragraphs(lines[..i + 1]);
    assert p' == p[..|p| - 1] + [p[|p| - 1] + [lines[i]]];
    assert (p[|p| - 1] + [lines[i]])[..|p[|p| - 1]|] == p[|p| - 1];
    assert p'[..|p'| - 1] == p[..|p| - 1];
  }

  /** The whole batch read: the finished records and the open one. */
  lemma ParseEnd(lines: seq<string>, builders: seq<Builder>, pb: Builder)
    requires ParseState(lines, |lines|, builders, pb)
    ensures Records(Paragraphs(lines)) == Some(builders + [pb])
  {
    assert lines[..|lines|] == lines;
    RecordsLast(Paragraphs(lines), builders, pb);
  }

  /** The records of a batch are those before its last paragraph and the last one. */
  lemma RecordsLast(p: seq<seq<string>>, builders: seq<Builder>, pb: Builder)
    requires |p| > 0 && Records(p[..|p| - 1]) == Some(builders) && ApplyLines(Empty, p[|p| - 1]) == Some(pb)
    ensures Records(p) == Some(builders + [pb])
  {
  }

  /** `parse`: the loop over the lines that applies each pair to the current
      builder, pushes a copy at every empty line and pushes the last one at the end. */
  method ParseBatch(lines: seq<string>) returns (r: Option<seq<Builder>>)
    ensures r == Records(Paragraphs(lines))
  {
    var pb := new PassportBuilder();
    var builders: seq<Builder> := [];
    for i := 0 to |lines|
      invariant fresh(pb)
      invariant ParseState(lines, i, builders, pb.Snapshot())
    {
      var line := lines[i];
      if line == [] {
        ParseStepEmpty(lines, i, builders, pb.Snapshot());
        builders := builders + [pb.Snapshot()];
        pb := new PassportBuilder();
      } else {
        ParseStepLine(lines, i, builders, pb.Snapshot());
        var ok := ParseLine(pb, line);
        if !ok {
          BatchFailed(lines, i + 1);
          return None;
        }
      }
    }
    ParseEnd(lines, builders, pb.Snapshot());
    r := Some(builders + [pb.Snapshot()]);
  }

  /** A record that has failed by line `i` fails the whole batch. */
  lemma BatchFailed(lines: seq<string>, i: nat)
    requires 0 < i <= |lines|
    requires var p := Paragraphs(lines[..i]); ApplyLines(Empty, p[|p| - 1]).None?
    ensures Records(Paragraphs(lines)).None?
  {
    var p, q := Paragraphs(lines[..i]), Paragraphs(lines);
    ParagraphsPrefix(lines, i);
    var k := |p| - 1;
    var last := p[k];
    assert q[k] == last + q[k][|last|..];
    ApplyLinesFailed(Empty, last, q[k][|last|..]);
  }

  /** `build`: succeeds iff the seven required fields are present; `cid` may be missing. */
  function Build(b: Builder): (r: Option<Passport>)
    ensures r.Some? <==> b.byr.Some? && b.iyr.Some? && b.eyr.Some? && b.hgt.Some? && b.hcl.Some? && b.ecl.Some? && b.pid.Some?
    ensures r.Some? ==> r.value.cid == b.cid
  {
    if b.byr.Some? && b.iyr.Some? && b.eyr.Some? && b.hgt.Some? && b.hcl.Some? && b.ecl.Some? && b.pid.Some? then
      Some(Passport(b.byr.value, b.iyr.value, b.eyr.value, b.hgt.value, b.hcl.value, b.ecl.value, b.pid.value, b.cid))
    else None
  }

  predicate IsHexByte(c: char) { '0' <= c <= '9' || 'a' <= c <= 'f' }

  /** The byte loop of the `hcl` check, from position `i`, returning at the first non-hex byte. */
  function HexFrom(s: string, i: nat): (ok: bool)
    requires i <= |s|
    decreases |s| - i
    ensures ok <==> forall j :: i <= j < |s| ==> IsHexByte(s[j])
  {
    if i == |s| then true else if !IsHexByte(s[i]) then false else HexFrom(s, i + 1)
  }

  /** The byte loop of the `pid` check. */
  function DigitsFrom(s: string, i: nat): (ok: bool)
    requires i <= |s|
    decreases |s| - i
    ensures ok <==> forall j :: i <= j < |s| ==> IsDigit(s[j])
  {
    if i == |s| then true else if !IsDigit(s[i]) then false else DigitsFrom(s, i + 1)
  }

  const EyeColours: set<string> := {"amb", "blu", "brn", "gry", "grn", "hzl", "oth"}

  /** `Passport::valid`, with its early returns in source order. */
  function Valid(p: Passport): (ok: bool)
    ensures ok <==>
      1920 <= p.byr <= 2002 && 2010 <= p.iyr <= 2020 && 2020 <= p.eyr <= 2030
      && (match p.hgt case Cm(n) => 150 <= n <= 193 case In(n) => 59 <= n <= 76 case NotSpecified(_) => false)
      && |p.hcl| == 7 && p.hcl[0] == '#' && (forall j :: 1 <= j < 7 ==> IsHexByte(p.hcl[j]))
      && p.ecl in EyeColours
      && |p.pid| == 9 && AllDigits(p.pid)
  {
    if !(1920 <= p.byr <= 2002) then false
    else if !(2010 <= p.iyr <= 2020) then false
    else if !(2020 <= p.eyr <= 2030) then false
    else if !(match p.hgt case Cm(n) => 150 <= n <= 193 case In(n) => 59 <= n <= 76 case NotSpecified(_) => false) then false
    else if !(|p.hcl| == 7 && p.hcl[0] == '#') then false
    else if !HexFrom(p.hcl, 1) then false
    else if p.ecl !in EyeColours then false
    else if |p.pid| != 9 then false
    else DigitsFrom(p.pid, 0)
  }

  /** `part_1`: the records that build. */
  function Part1(builders: seq<Builder>): (n: nat)
    ensures n <= |builders|
  {
    if builders == [] then 0 else (if Build(builders[0]).Some? then 1 else 0) + Part1(builders[1..])
  }

  /** `part_2`: the records that build into a valid passport. */
  function Part2(builders: seq<Builder>): (n: nat)
  {
    if builders == [] then 0
    else (match Build(builders[0]) case Some(p) => if Valid(p) then 1 else 0 case None => 0) + Part2(builders[1..])
  }

  /** Every passport counted by part 2 is also counted by part 1. */
  lemma {:induction false} Part2AtMostPart1(builders: seq<Builder>)
    ensures Part2(builders) <= Part1(builders)
  {
    if builders != [] {
      Part2AtMostPart1(builders[1..]);
    }
  }
}
