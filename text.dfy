/** Text handling shared by the puzzle parsers: Rust's `str::parse` for
    integers, `split_once`, `split` on a character and `split_whitespace`,
    each stated on `string` (= `seq<char>`). */
module Text {

  datatype Option<T> = None | Some(value: T)

  predicate IsDigit(c: char) { '0' <= c <= '9' }

  function DigitValue(c: char): (d: nat)
    requires IsDigit(c)
    ensures d < 10
  {
    c as int - '0' as int
  }

  function DigitChar(d: nat): (c: char)
    requires d < 10
    ensures IsDigit(c) && DigitValue(c) == d
  {
    ('0' as int + d) as char
  }

  predicate AllDigits(s: string)
  {
    forall i :: 0 <= i < |s| ==> IsDigit(s[i])
  }

  /** The value of a string of decimal digits, most significant digit first. */
  function DecimalValue(s: string): nat
    requires AllDigits(s)
  {
    if s == [] then 0 else 10 * DecimalValue(s[..|s| - 1]) + DigitValue(s[|s| - 1])
  }

  /** Rust's `str::parse` for an unsigned integer: one optional leading '+',
      then one or more decimal digits and nothing else. Values too wide for
      the Rust integer type are not rejected here (integers are unbounded). */
  function ParseNat(s: string): Option<nat>
  {
    var digits := if |s| > 0 && s[0] == '+' then s[1..] else s;
    if digits != [] && AllDigits(digits) then Some(DecimalValue(digits)) else None
  }

  /** Rust's `str::parse` for a signed integer: one optional '+' or '-', then
      one or more decimal digits. */
  function ParseInt(s: string): Option<int>
  {
    if |s| > 0 && s[0] == '-' then
      var digits := s[1..];
      if digits != [] && AllDigits(digits) then Some(-(DecimalValue(digits) as int)) else None
    else
      match ParseNat(s)
      case Some(n) => Some(n)
      case None => None
  }

  /** Decimal rendering of a natural number without leading zeros (Rust's `{}`). */
  function ShowNat(n: nat): (s: string)
    ensures |s| > 0 && AllDigits(s)
  {
    if n < 10 then [DigitChar(n)] else ShowNat(n / 10) + [DigitChar(n % 10)]
  }

  lemma {:induction false} ShowNatValue(n: nat)
    ensures DecimalValue(ShowNat(n)) == n
  {
    if n >= 10 {
      var s := ShowNat(n);
      assert s[..|s| - 1] == ShowNat(n / 10);
      ShowNatValue(n / 10);
    }
  }

  /** Parsing undoes rendering. */
  lemma ParseShowNat(n: nat)
    ensures ParseNat(ShowNat(n)) == Some(n)
    ensures ParseInt(ShowNat(n)) == Some(n)
  {
    ShowNatValue(n);
  }

  /** Whether `sep` occurs in `s` at position `j`. */
  predicate OccursAt(s: string, sep: string, j: int)
  {
    0 <= j && j + |sep| <= |s| && s[j..j + |sep|] == sep
  }

  /** The first position at or after `i` where `sep` occurs. */
  function FindFrom(s: string, sep: string, i: nat): (r: Option<nat>)
    requires i <= |s|
    decreases |s| - i
    ensures r.Some? ==> i <= r.value && OccursAt(s, sep, r.value)
    ensures r.Some? ==> forall j :: i <= j < r.value ==> !OccursAt(s, sep, j)
    ensures r.None? ==> forall j :: i <= j ==> !OccursAt(s, sep, j)
  {
    if i + |sep| > |s| then None
    else if s[i..i + |sep|] == sep then Some(i)
    else FindFrom(s, sep, i + 1)
  }

  /** Rust's `str::split_once`: the text before and after the first occurrence of `sep`. */
  function SplitOnce(s: string, sep: string): (r: Option<(string, string)>)
    ensures r.Some? ==> s == r.value.0 + sep + r.value.1
    ensures r.Some? ==> forall j :: j < |r.value.0| ==> !OccursAt(s, sep, j)
    ensures r.None? ==> forall j :: !OccursAt(s, sep, j)
  {
    match FindFrom(s, sep, 0)
    case None => None
    case Some(k) =>
      assert s == s[..k] + sep + s[k + |sep|..] by {
        assert s[k..k + |sep|] == sep;
        assert s == s[..k] + s[k..k + |sep|] + s[k + |sep|..];
      }
      Some((s[..k], s[k + |sep|..]))
  }

  /** `split_once` finds the separator the text was built around when it does not
      occur earlier. */
  lemma SplitOnceJoin(a: string, sep: string, b: string)
    requires forall j :: j < |a| ==> !OccursAt(a + sep + b, sep, j)
    ensures SplitOnce(a + sep + b, sep) == Some((a, b))
  {
    var s := a + sep + b;
    assert OccursAt(s, sep, |a|) by {
      assert s[|a|..|a| + |sep|] == sep;
    }
    var r := FindFrom(s, sep, 0);
    assert r == Some(|a|);
    assert s[..|a|] == a;
    assert s[|a| + |sep|..] == b;
  }

  /** The common case of `SplitOnceJoin`: the separator's first character does
      not occur in the text before it. */
  lemma SplitOnceAt(a: string, sep: string, b: string)
    requires |sep| > 0 && sep[0] !in a
    ensures SplitOnce(a + sep + b, sep) == Some((a, b))
  {
    var s := a + sep + b;
    forall j | 0 <= j < |a| ensures !OccursAt(s, sep, j) {
      assert s[j] == a[j];
      if j + |sep| <= |s| {
        assert s[j..j + |sep|][0] == a[j];
      }
    }
    SplitOnceJoin(a, sep, b);
  }

  /** Rust's `str::split` on one character: the pieces between its occurrences
      (always at least one piece). */
  function Split(s: string, c: char): (r: seq<string>)
    decreases |s|
    ensures |r| > 0
    ensures forall i :: 0 <= i < |r| ==> c !in r[i]
  {
    match FindFrom(s, [c], 0)
    case None =>
      assert forall j :: 0 <= j < |s| ==> s[j] != c by {
        forall j | 0 <= j < |s| ensures s[j] != c {
          assert !OccursAt(s, [c], j);
          assert s[j..j + 1] == [s[j]];
        }
      }
      [s]
    case Some(k) =>
      assert c !in s[..k] by {
        forall j | 0 <= j < k ensures s[j] != c {
          assert !OccursAt(s, [c], j);
          assert s[j..j + 1] == [s[j]];
        }
      }
      [s[..k]] + Split(s[k + 1..], c)
  }

  /** Joining pieces with a separator, the inverse of `Split`. */
  function Join(pieces: seq<string>, c: char): string
    requires |pieces| > 0
  {
    if |pieces| == 1 then pieces[0] else pieces[0] + [c] + Join(pieces[1..], c)
  }

  lemma {:induction false} SplitJoin(pieces: seq<string>, c: char)
    requires |pieces| > 0
    requires forall i :: 0 <= i < |pieces| ==> c !in pieces[i]
    ensures Split(Join(pieces, c), c) == pieces
  {
    var s := Join(pieces, c);
    if |pieces| == 1 {
      forall j | 0 <= j < |s| ensures !OccursAt(s, [c], j) {
        assert s[j..j + 1] == [s[j]];
      }
      assert FindFrom(s, [c], 0).None?;
    } else {
      var a := pieces[0];
      var rest := Join(pieces[1..], c);
      assert s == a + [c] + rest;
      forall j | 0 <= j < |a| ensures !OccursAt(s, [c], j) {
        assert s[j..j + 1] == [a[j]];
      }
      SplitOnceJoin(a, [c], rest);
      assert FindFrom(s, [c], 0) == Some(|a|);
      assert s[..|a|] == a;
      assert s[|a| + 1..] == rest;
      SplitJoin(pieces[1..], c);
    }
  }

  /** ASCII white space, the part of Rust's `char::is_whitespace` that puzzle
      inputs use. */
  predicate IsSpace(c: char)
  {
    c == ' ' || c == '\t' || c == '\n' || c == '\r' || c == 11 as char || c == 12 as char
  }

  /** Length of the run of non-space characters at the start of `s`. */
  function WordLength(s: string): (k: nat)
    ensures k <= |s|
    ensures forall i :: 0 <= i < k ==> !IsSpace(s[i])
    ensures k < |s| ==> IsSpace(s[k])
  {
    if s == [] || IsSpace(s[0]) then 0 else 1 + WordLength(s[1..])
  }

  /** Rust's `str::split_whitespace`: the maximal runs of non-space characters. */
  function SplitWhitespace(s: string): (words: seq<string>)
    decreases |s|
    ensures forall i :: 0 <= i < |words| ==> |words[i]| > 0
    ensures forall i, j :: 0 <= i < |words| && 0 <= j < |words[i]| ==> !IsSpace(words[i][j])
  {
    if s == [] then []
    else if IsSpace(s[0]) then SplitWhitespace(s[1..])
    else
      var k := WordLength(s);
      [s[..k]] + SplitWhitespace(s[k..])
  }

  /** Words separated by single spaces. */
  function Unwords(words: seq<string>): string
  {
    if words == [] then [] else if |words| == 1 then words[0] else words[0] + " " + Unwords(words[1..])
  }

  predicate IsWord(w: string)
  {
    |w| > 0 && forall j :: 0 <= j < |w| ==> !IsSpace(w[j])
  }

  lemma WordLengthOfWord(w: string, rest: string)
    requires IsWord(w)
    requires rest == [] || IsSpace(rest[0])
    ensures WordLength(w + rest) == |w|
  {
    if |w| > 1 {
      assert (w + rest)[1..] == w[1..] + rest;
      WordLengthOfWord(w[1..], rest);
    } else {
      assert (w + rest)[1..] == rest;
    }
  }

  /** `split_whitespace` recovers the words of a space-separated line. */
  lemma {:induction false} SplitUnwords(words: seq<string>)
    requires forall i :: 0 <= i < |words| ==> IsWord(words[i])
    ensures SplitWhitespace(Unwords(words)) == words
  {
    if |words| == 1 {
      WordLengthOfWord(words[0], []);
      assert words[0][..|words[0]|] == words[0];
      assert words[0][|words[0]|..] == [];
    } else if |words| > 1 {
      var w := words[0];
      var rest := Unwords(words[1..]);
      var s := w + " " + rest;
      assert Unwords(words) == s;
      WordLengthOfWord(w, " " + rest);
      assert s == w + (" " + rest);
      assert s[..|w|] == w;
      assert s[|w|..] == " " + rest;
      assert (" " + rest)[1..] == rest;
      SplitUnwords(words[1..]);
    }
  }

  /** The records of a text whose records are separated by empty lines: the
      runs of lines between empty lines, the last one always included (it is
      empty after a trailing empty line). */
  function Paragraphs(lines: seq<string>): (r: seq<seq<string>>)
    ensures |r| > 0
  {
    if lines == [] then [[]]
    else
      var init := Paragraphs(lines[..|lines| - 1]);
      var line := lines[|lines| - 1];
      if line == [] then init + [[]]
      else init[..|init| - 1] + [init[|init| - 1] + [line]]
  }

  /** Writing records back with an empty line between each two. */
  function Unparagraphs(records: seq<seq<string>>): seq<string>
    requires |records| > 0
  {
    if |records| == 1 then records[0]
    else Unparagraphs(records[..|records| - 1]) + [[]] + records[|records| - 1]
  }

  /** No record contains an empty line. */
  lemma {:induction false} ParagraphsNoBlank(lines: seq<string>)
    ensures forall k, i :: 0 <= k < |Paragraphs(lines)| && 0 <= i < |Paragraphs(lines)[k]| ==> Paragraphs(lines)[k][i] != []
  {
    if lines != [] {
      var init := lines[..|lines| - 1];
      var line := lines[|lines| - 1];
      ParagraphsNoBlank(init);
      var p := Paragraphs(init);
      var q := Paragraphs(lines);
      if line == [] {
        assert q == p + [[]];
      } else {
        assert q == p[..|p| - 1] + [p[|p| - 1] + [line]];
        forall k, i | 0 <= k < |q| && 0 <= i < |q[k]| ensures q[k][i] != [] {
          if k < |p| - 1 {
            assert q[k] == p[k];
          } else if i < |p[|p| - 1]| {
            assert q[k][i] == p[|p| - 1][i];
          }
        }
      }
    }
  }

  /** Joining the records with empty lines gives the text back. */
  lemma {:induction false} ParagraphsJoin(lines: seq<string>)
    ensures Unparagraphs(Paragraphs(lines)) == lines
  {
    if lines != [] {
      var init := lines[..|lines| - 1];
      var line := lines[|lines| - 1];
      assert lines == init + [line];
      ParagraphsJoin(init);
      var p := Paragraphs(init);
      var q := Paragraphs(lines);
      if line == [] {
        assert q == p + [[]];
        assert q[..|p|] == p;
      } else {
        assert q == p[..|p| - 1] + [p[|p| - 1] + [line]];
        if |p| == 1 {
          assert q == [p[0] + [line]];
        } else {
          var pi := p[..|p| - 1];
          assert q[..|q| - 1] == pi;
          assert Unparagraphs(p) == Unparagraphs(pi) + [[]] + p[|p| - 1];
        }
      }
    }
  }

  /** Splitting after a longer text only extends the last record started so far. */
  lemma {:induction false} ParagraphsPrefix(lines: seq<string>, i: nat)
    requires i <= |lines|
    ensures var p, q := Paragraphs(lines[..i]), Paragraphs(lines);
      |p| <= |q| && p[..|p| - 1] == q[..|p| - 1] && p[|p| - 1] <= q[|p| - 1]
    decreases |lines|
  {
    if i < |lines| {
      var init := lines[..|lines| - 1];
      assert init[..i] == lines[..i];
      ParagraphsPrefix(init, i);
    } else {
      assert lines[..i] == lines;
    }
  }

  /** Every piece of a comma-separated list must be a number; a piece that is
      not makes the source's `parse().unwrap()` panic, modelled as `None`. */
  function ParseNumbers(pieces: seq<string>): (r: Option<seq<nat>>)
    ensures r.Some? ==> |r.value| == |pieces| && forall i :: 0 <= i < |pieces| ==> ParseNat(pieces[i]) == Some(r.value[i])
    ensures r.None? <==> exists i :: 0 <= i < |pieces| && ParseNat(pieces[i]).None?
  {
    ParseEach(pieces, ParseNat)
  }

  /** Numbers written as a comma-separated list. */
  function ShowNumbers(ns: seq<nat>): string
    requires |ns| > 0
  {
    Join(seq(|ns|, i requires 0 <= i < |ns| => ShowNat(ns[i])), ',')
  }

  /** A comma-separated list of numbers reads back. */
  lemma ParseShowNumbers(ns: seq<nat>)
    requires |ns| > 0
    ensures ParseNumbers(Split(ShowNumbers(ns), ',')) == Some(ns)
  {
    var pieces := seq(|ns|, i requires 0 <= i < |ns| => ShowNat(ns[i]));
    forall i | 0 <= i < |pieces| ensures ',' !in pieces[i] && ParseNat(pieces[i]) == Some(ns[i]) {
      ParseShowNat(ns[i]);
      assert AllDigits(pieces[i]);
    }
    SplitJoin(pieces, ',');
    var r := ParseNumbers(pieces);
    assert r.Some?;
    assert r.value == ns;
  }

  /** Rust's `str::split` on a separator string: the pieces between its
      occurrences, searched from the left (always at least one piece). */
  function SplitOn(s: string, sep: string): (r: seq<string>)
    requires |sep| > 0
    decreases |s|
    ensures |r| > 0
  {
    match SplitOnce(s, sep)
    case None => [s]
    case Some((a, b)) => [a] + SplitOn(b, sep)
  }

  /** The first piece ends where the separator first occurs. */
  lemma SplitOnCons(a: string, sep: string, b: string)
    requires |sep| > 0
    requires forall j :: j < |a| ==> !OccursAt(a + sep + b, sep, j)
    ensures SplitOn(a + sep + b, sep) == [a] + SplitOn(b, sep)
  {
    SplitOnceJoin(a, sep, b);
  }

  /** A text without the separator is one piece. */
  lemma SplitOnWhole(s: string, sep: string)
    requires |sep| > 0
    requires forall j :: !OccursAt(s, sep, j)
    ensures SplitOn(s, sep) == [s]
  {
    assert SplitOnce(s, sep).None?;
  }

  /** `String::pop`: the text without its last character (the final newline). */
  function Pop(s: string): (r: string)
    ensures |s| > 0 ==> s == r + [s[|s| - 1]]
    ensures |s| == 0 ==> r == s
  {
    if |s| == 0 then s else s[..|s| - 1]
  }

  /** `BufRead::read_line`: the text up to and including the first newline,
      or all of it when there is none, and what is left to read. */
  function ReadLine(s: string): (r: (string, string))
    ensures r.0 + r.1 == s
    ensures '\n' in s ==> |r.0| > 0 && r.0[|r.0| - 1] == '\n' && '\n' !in r.0[..|r.0| - 1]
    ensures '\n' !in s ==> r == (s, [])
  {
    match SplitOnce(s, "\n")
    case None =>
      assert '\n' !in s by {
        forall j | 0 <= j < |s| ensures s[j] != '\n' {
          assert !OccursAt(s, "\n", j);
          assert s[j..j + 1] == [s[j]];
        }
      }
      (s, [])
    case Some((line, rest)) =>
      assert '\n' !in line by {
        forall j | 0 <= j < |line| ensures line[j] != '\n' {
          assert !OccursAt(s, "\n", j);
          assert s[j..j + 1] == [line[j]];
        }
      }
      assert (line + "\n")[..|line|] == line;
      (line + "\n", rest)
  }

  /** A line without a newline inside, followed by one, is read whole. */
  lemma ReadLineAt(line: string, rest: string)
    requires '\n' !in line
    ensures ReadLine(line + "\n" + rest) == (line + "\n", rest)
  {
    SplitOnceAt(line, "\n", rest);
  }

  /** A separator other than the newline puts no newline in a join. */
  lemma {:induction false} JoinNoNewline(pieces: seq<string>, c: char)
    requires |pieces| > 0 && c != '\n'
    requires forall i :: 0 <= i < |pieces| ==> '\n' !in pieces[i]
    ensures '\n' !in Join(pieces, c)
  {
    if |pieces| > 1 {
      JoinNoNewline(pieces[1..], c);
    }
  }

  /** Rust's `str::lines` on text with `\n` line ends: the pieces between
      newlines, without the empty piece after a final newline. */
  function Lines(s: string): (r: seq<string>)
    ensures forall i :: 0 <= i < |r| ==> '\n' !in r[i]
  {
    if s == [] then []
    else
      var pieces := Split(s, '\n');
      if pieces[|pieces| - 1] == [] then pieces[..|pieces| - 1] else pieces
  }

  /** Lines joined with newlines read back when the last one is not empty. */
  lemma LinesJoin(lines: seq<string>)
    requires |lines| > 0 && lines[|lines| - 1] != []
    requires forall i :: 0 <= i < |lines| ==> '\n' !in lines[i]
    ensures Lines(Join(lines, '\n')) == lines
  {
    SplitJoin(lines, '\n');
    if Join(lines, '\n') == [] {
      JoinEmpty(lines, '\n');
    }
  }

  /** A join is empty only when it joins one empty piece. */
  lemma {:induction false} JoinEmpty(pieces: seq<string>, c: char)
    requires |pieces| > 0 && Join(pieces, c) == []
    ensures |pieces| == 1 && pieces[0] == []
  {
  }

  /** Parsing every piece with `f`, as `map(f).collect::<Option<Vec<_>>>()` or
      a `map(..unwrap())` that panics on the first failure. */
  function ParseEach<T>(pieces: seq<string>, f: string -> Option<T>): (r: Option<seq<T>>)
    ensures r.Some? ==> |r.value| == |pieces| && forall i :: 0 <= i < |pieces| ==> f(pieces[i]) == Some(r.value[i])
    ensures r.None? <==> exists i :: 0 <= i < |pieces| && f(pieces[i]).None?
  {
    if pieces == [] then Some([])
    else
      match f(pieces[0])
      case None => None
      case Some(x) =>
        match ParseEach(pieces[1..], f)
        case None =>
          assert forall i :: 1 <= i < |pieces| ==> pieces[i] == pieces[1..][i - 1];
          None
        case Some(rest) => Some([x] + rest)
  }

  /** Pieces that parse one by one parse together. */
  lemma {:induction false} ParseEachAll<T>(pieces: seq<string>, f: string -> Option<T>, xs: seq<T>)
    requires |pieces| == |xs|
    requires forall i :: 0 <= i < |pieces| ==> f(pieces[i]) == Some(xs[i])
    ensures ParseEach(pieces, f) == Some(xs)
  {
    var r := ParseEach(pieces, f);
    assert r.Some?;
    assert r.value == xs;
  }
}
