/** Day 13: bus schedules. Bus `b` leaves at every multiple of `b`. Part 1
    finds the bus to catch first after the earliest departure time; part 2
    the first time at which every listed bus leaves as many minutes after it
    as its position in the list. Numbers are `u64`, modelled as `nat`. */
module Day13 {
  import opened Text
  import opened Arith

  /** A position in the list: a bus id, or `x` for no constraint. */
  type Buses = seq<Option<nat>>

  /** One comma-separated entry: `x`, or a number that the source's `unwrap`
      demands (`None` here when it is not one). */
  function ParseBus(s: string): (r: Option<Option<nat>>)
    ensures r == Some(None) <==> s == "x"
    ensures s != "x" ==> (r.Some? <==> ParseNat(s).Some?)
    ensures s != "x" && r.Some? ==> r.value == ParseNat(s)
  {
    if s == "x" then Some(None)
    else
      match ParseNat(s)
      case None => None
      case Some(n) => Some(Some(n))
  }

  function ParseBuses(entries: seq<string>): (r: Option<Buses>)
    ensures r.Some? <==> forall i :: 0 <= i < |entries| ==> ParseBus(entries[i]).Some?
    ensures r.Some? ==> |r.value| == |entries| && forall i :: 0 <= i < |entries| ==> ParseBus(entries[i]) == Some(r.value[i])
  {
    if entries == [] then Some([])
    else
      match ParseBus(entries[0])
      case None => None
      case Some(b) =>
        match ParseBuses(entries[1..])
        case None =>
          assert forall i :: 1 <= i < |entries| ==> entries[i] == entries[1..][i - 1];
          None
        case Some(rest) => Some([b] + rest)
  }

  /** `parse`: `read_line` twice, `pop` each line's last character (meant to
      be its newline), then the earliest time from the first line and the
      comma-separated list from the second. `None` where an `unwrap` panics. */
  function Parse(input: string): (r: Option<(nat, Buses)>)
    ensures input == [] ==> r.None?
    ensures r.Some? ==> |r.value.1| > 0
  {
    var (first, rest) := ReadLine(input);
    var (second, _) := ReadLine(rest);
    match ParseNat(Pop(first))
    case None => None
    case Some(earliest) =>
      match ParseBuses(Split(Pop(second), ','))
      case None => None
      case Some(buses) => Some((earliest, buses))
  }

  function ShowBus(b: Option<nat>): string
  {
    match b
    case None => "x"
    case Some(n) => ShowNat(n)
  }

  /** The list as the second line writes it. */
  function ShowBuses(buses: Buses): string
    requires |buses| > 0
  {
    Join(seq(|buses|, i requires 0 <= i < |buses| => ShowBus(buses[i])), ',')
  }

  /** The input file: the earliest time, then the list, each line ended by a newline. */
  function Show(earliest: nat, buses: Buses): string
    requires |buses| > 0
  {
    ShowNat(earliest) + "\n" + ShowBuses(buses) + "\n"
  }

  /** A written list reads back, and it holds no newline. */
  lemma ParseShowBuses(buses: Buses)
    requires |buses| > 0
    ensures '\n' !in ShowBuses(buses)
    ensures ParseBuses(Split(ShowBuses(buses), ',')) == Some(buses)
  {
    var pieces := seq(|buses|, i requires 0 <= i < |buses| => ShowBus(buses[i]));
    forall i | 0 <= i < |pieces|
      ensures ',' !in pieces[i] && '\n' !in pieces[i] && ParseBus(pieces[i]) == Some(buses[i])
    {
      match buses[i]
      case None =>
      case Some(n) =>
        ParseShowNat(n);
        assert AllDigits(pieces[i]) && pieces[i][0] != 'x';
    }
    JoinNoNewline(pieces, ',');
    SplitJoin(pieces, ',');
    var r := ParseBuses(pieces);
    assert r.Some?;
    assert r.value == buses;
  }

  /** A written input file reads back. */
  lemma ParseShow(earliest: nat, buses: Buses)
    requires |buses| > 0
    ensures Parse(Show(earliest, buses)) == Some((earliest, buses))
  {
    var list := ShowBuses(buses);
    ParseShowBuses(buses);
    var e := ShowNat(earliest);
    assert '\n' !in e by { assert AllDigits(e); }
    assert Show(earliest, buses) == e + "\n" + (list + "\n");
    ReadLineAt(e, list + "\n");
    ReadLineAt(list, []);
    assert list + "\n" + [] == list + "\n";
    assert Pop(e + "\n") == e;
    assert Pop(list + "\n") == list;
    ParseShowNat(earliest);
  }

  /** `pop` drops the last character whether or not it is a newline: when the
      list line has no final newline, the last digit of the last id is lost. */
  lemma LastLineWithoutNewline()
    ensures Parse("939\n7,13") == Some((939, [Some(7), Some(1)]))
  {
    ShortInputLines();
    ShortInputFields();
  }

  lemma ShortInputLines()
    ensures ReadLine("939\n7,13") == ("939\n", "7,13")
    ensures ReadLine("7,13") == ("7,13", [])
  {
    assert "939\n7,13" == "939" + "\n" + "7,13";
    assert "939" + "\n" == "939\n";
    ReadLineAt("939", "7,13");
    assert '\n' !in "7,13";
  }

  lemma ShortInputFields()
    ensures ParseNat(Pop("939\n")) == Some(939)
    ensures ParseBuses(Split(Pop("7,13"), ',')) == Some([Some(7), Some(1)])
  {
    assert Pop("939\n") == ShowNat(939) by {
      assert ShowNat(9) == "9" && ShowNat(93) == "93";
    }
    ParseShowNat(939);
    ShortInputList();
  }

  lemma ShortInputList()
    ensures ParseBuses(Split(Pop("7,13"), ',')) == Some([Some(7), Some(1)])
  {
    var buses: Buses := [Some(7), Some(1)];
    assert Pop("7,13") == ShowBuses(buses) by {
      assert DigitChar(7) == '7' && DigitChar(1) == '1';
      assert ShowBus(buses[0]) == "7" && ShowBus(buses[1]) == "1";
      assert Join(["7", "1"], ',') == "7,1";
      assert seq(|buses|, i requires 0 <= i < |buses| => ShowBus(buses[i])) == ["7", "1"];
    }
    ParseShowBuses(buses);
  }

  /** The minutes from `earliest` until bus `b` leaves, as `b - earliest % b`
      computes them: from 1 to `b`, so a bus leaving exactly at `earliest`
      waits a full round. */
  function Wait(earliest: nat, b: nat): (w: nat)
    requires b > 0
    ensures 1 <= w <= b
    ensures (earliest + w) % b == 0
  {
    var q := earliest / b;
    assert earliest == q * b + earliest % b;
    assert earliest + (b - earliest % b) == (q + 1) * b + 0;
    ModUnique(earliest + (b - earliest % b), b, q + 1, 0);
    b - earliest % b
  }

  predicate NoZeroBus(buses: Buses)
  {
    forall i :: 0 <= i < |buses| ==> buses[i] != Some(0)
  }

  /** `min_by_key` over the listed buses and their waits. */
  function Soonest(earliest: nat, buses: Buses): (r: Option<(nat, nat)>)
    requires NoZeroBus(buses)
    ensures r.Some? ==> r.value.0 > 0 && r.value.1 == Wait(earliest, r.value.0)
  {
    if buses == [] then None
    else
      var rest := Soonest(earliest, buses[1..]);
      match buses[0]
      case None => rest
      case Some(b) =>
        var w := Wait(earliest, b);
        if rest.None? || w <= rest.value.1 then Some((b, w)) else rest
  }

  /** The first bus at position `i` with the least wait. */
  predicate FirstSoonest(earliest: nat, buses: Buses, i: nat)
    requires NoZeroBus(buses)
  {
    0 <= i < |buses| && buses[i].Some?
    && (forall j :: 0 <= j < |buses| && buses[j].Some? ==> Wait(earliest, buses[i].value) <= Wait(earliest, buses[j].value))
    && (forall j :: 0 <= j < i && buses[j].Some? ==> Wait(earliest, buses[i].value) < Wait(earliest, buses[j].value))
  }

  /** `Soonest` finds nothing exactly when no bus is listed, and otherwise the
      first bus with the least wait, as `min_by_key` keeps the first of equal keys. */
  lemma {:induction false} SoonestFirst(earliest: nat, buses: Buses)
    requires NoZeroBus(buses)
    ensures Soonest(earliest, buses).None? <==> forall i :: 0 <= i < |buses| ==> buses[i].None?
    ensures Soonest(earliest, buses).Some? ==>
      exists i: nat :: FirstSoonest(earliest, buses, i) && Soonest(earliest, buses).value.0 == buses[i].value
  {
    if buses != [] {
      var tail := buses[1..];
      assert forall i :: 1 <= i < |buses| ==> buses[i] == tail[i - 1];
      SoonestFirst(earliest, tail);
      var rest := Soonest(earliest, tail);
      if buses[0].None? || (rest.Some? && Wait(earliest, buses[0].value) > rest.value.1) {
        if rest.Some? {
          var i: nat :| FirstSoonest(earliest, tail, i) && rest.value.0 == tail[i].value;
          SoonestLater(earliest, buses, i);
        }
      } else {
        SoonestHead(earliest, buses);
      }
    }
  }

  /** The head wins when no later bus leaves sooner. */
  lemma SoonestHead(earliest: nat, buses: Buses)
    requires NoZeroBus(buses) && |buses| > 0 && buses[0].Some?
    requires var rest := Soonest(earliest, buses[1..]);
      rest.None? || Wait(earliest, buses[0].value) <= rest.value.1
    requires Soonest(earliest, buses[1..]).None? <==> forall i :: 0 <= i < |buses[1..]| ==> buses[1..][i].None?
    requires Soonest(earliest, buses[1..]).Some? ==>
      exists i: nat :: FirstSoonest(earliest, buses[1..], i) && Soonest(earliest, buses[1..]).value.0 == buses[1..][i].value
    ensures FirstSoonest(earliest, buses, 0) && Soonest(earliest, buses).value.0 == buses[0].value
  {
    var tail := buses[1..];
    var rest := Soonest(earliest, tail);
    var w := Wait(earliest, buses[0].value);
    forall j | 0 <= j < |buses| && buses[j].Some? ensures w <= Wait(earliest, buses[j].value) {
      if j > 0 {
        assert buses[j] == tail[j - 1];
        var i: nat :| FirstSoonest(earliest, tail, i) && rest.value.0 == tail[i].value;
      }
    }
  }

  /** A later bus wins when it leaves sooner than the head, or the head is `x`. */
  lemma SoonestLater(earliest: nat, buses: Buses, i: nat)
    requires NoZeroBus(buses) && |buses| > 0
    requires FirstSoonest(earliest, buses[1..], i)
    requires Soonest(earliest, buses[1..]) == Some((buses[1..][i].value, Wait(earliest, buses[1..][i].value)))
    requires buses[0].None? || Wait(earliest, buses[0].value) > Wait(earliest, buses[1..][i].value)
    ensures FirstSoonest(earliest, buses, i + 1) && Soonest(earliest, buses).value.0 == buses[i + 1].value
  {
    var tail := buses[1..];
    assert forall j :: 1 <= j < |buses| ==> buses[j] == tail[j - 1];
  }

  /** `part_1`: the soonest bus times its wait; the source's `unwrap` panics
      when no bus is listed, modelled as `None`. */
  function Part1(earliest: nat, buses: Buses): (r: Option<nat>)
    requires NoZeroBus(buses)
    ensures r.Some? <==> exists i :: 0 <= i < |buses| && buses[i].Some?
    ensures r.Some? ==> exists i: nat :: FirstSoonest(earliest, buses, i) && r.value == buses[i].value * Wait(earliest, buses[i].value)
  {
    SoonestFirst(earliest, buses);
    match Soonest(earliest, buses)
    case None => None
    case Some((b, w)) => Some(b * w)
  }

  const ExampleBuses: Buses := [Some(7), Some(13), None, None, Some(59), None, Some(31), Some(19)]

  /** On the example, bus 59 leaves 5 minutes after 939: 295. */
  lemma ExamplePart1(e: Buses)
    requires e == ExampleBuses
    ensures Part1(939, e) == Some(295)
  {
    assert Wait(939, 7) == 6 && Wait(939, 13) == 10 && Wait(939, 59) == 5 && Wait(939, 31) == 22 && Wait(939, 19) == 11;
    assert e[7..][1..] == [];
    assert Soonest(939, e[7..]) == Some((19, 11));
    assert e[6..][1..] == e[7..];
    assert Soonest(939, e[6..]) == Some((19, 11));
    assert e[5..][1..] == e[6..];
    assert Soonest(939, e[5..]) == Some((19, 11));
    assert e[4..][1..] == e[5..];
    assert Soonest(939, e[4..]) == Some((59, 5));
    assert e[3..][1..] == e[4..];
    assert Soonest(939, e[3..]) == Some((59, 5));
    assert e[2..][1..] == e[3..];
    assert Soonest(939, e[2..]) == Some((59, 5));
    assert e[1..][1..] == e[2..];
    assert Soonest(939, e[1..]) == Some((59, 5));
    assert Soonest(939, e) == Some((59, 5));
  }

  /** The product of the listed ids. */
  function Period(buses: Buses): nat
  {
    if buses == [] then 1
    else
      var p := Period(buses[..|buses| - 1]);
      match buses[|buses| - 1]
      case None => p
      case Some(b) => p * b
  }

  /** Departure `offset` plus `k` periods lines up with the bus at position `i`. */
  predicate Hits(offset: nat, period: nat, i: nat, b: nat, k: nat)
    requires b > 0
  {
    (offset + k * period + i) % b == 0
  }

  /** The inner `while` of `part_2`: the number of periods added, from `k` on,
      until the bus at position `i` lines up, giving up at `bound`. */
  function Search(offset: nat, period: nat, i: nat, b: nat, k: nat, bound: nat): (r: nat)
    requires b > 0
    ensures k <= r
    ensures forall m :: k <= m < r ==> !Hits(offset, period, i, b, m)
    ensures r < bound ==> Hits(offset, period, i, b, r)
    decreases bound - k
  {
    if k >= bound || Hits(offset, period, i, b, k) then k else Search(offset, period, i, b, k + 1, bound)
  }

  /** The fold of `part_2` over the first positions: the offset it reaches. */
  function Schedule(buses: Buses, bound: nat): nat
    requires NoZeroBus(buses)
  {
    if buses == [] then 0
    else
      var init := buses[..|buses| - 1];
      var offset := Schedule(init, bound);
      match buses[|buses| - 1]
      case None => offset
      case Some(b) => offset + Search(offset, Period(init), |buses| - 1, b, 0, bound) * Period(init)
  }

  /** Every inner loop of the fold stops within `bound` periods. The source's
      comment counts on the ids being pairwise coprime, under which `bound` =
      the largest id does; with a common factor the loop may never stop. */
  predicate Lines(buses: Buses, bound: nat)
    requires NoZeroBus(buses)
  {
    forall i :: 0 <= i < |buses| ==> buses[i].Some? ==>
      Search(Schedule(buses[..i], bound), Period(buses[..i]), i, buses[i].value, 0, bound) < bound
  }

  /** Adding a multiple of the period keeps every earlier bus lined up. */
  lemma {:induction false} KeepsAligned(offset: nat, k: nat, period: nat, j: nat, b: nat)
    requires b > 0 && period % b == 0 && (offset + j) % b == 0
    ensures (offset + k * period + j) % b == 0
  {
    var q := period / b;
    assert period == q * b;
    assert k * period == (k * q) * b;
    ModMultiple(offset + j, k * q, b);
  }

  lemma PrefixNoZero(buses: Buses, n: nat)
    requires NoZeroBus(buses) && n <= |buses|
    ensures NoZeroBus(buses[..n])
  {
  }

  /** Every listed bus leaves `i` minutes after `offset` and divides `period`. */
  predicate Aligned(buses: Buses, offset: nat, period: nat)
    requires NoZeroBus(buses)
  {
    forall i :: 0 <= i < |buses| && buses[i].Some? ==> (offset + i) % buses[i].value == 0 && period % buses[i].value == 0
  }

  /** One step of the fold keeps the invariant. */
  lemma AlignedStep(init: Buses, x: Option<nat>, offset: nat, period: nat, k: nat)
    requires NoZeroBus(init) && NoZeroBus(init + [x]) && x != Some(0) && Aligned(init, offset, period)
    requires x.Some? ==> Hits(offset, period, |init|, x.value, k)
    ensures x.None? ==> Aligned(init + [x], offset, period)
    ensures x.Some? ==> Aligned(init + [x], offset + k * period, period * x.value)
  {
    var buses := init + [x];
    assert forall i :: 0 <= i < |init| ==> buses[i] == init[i];
    if x.Some? {
      var c := x.value;
      forall i | 0 <= i < |buses| && buses[i].Some?
        ensures (offset + k * period + i) % buses[i].value == 0 && (period * c) % buses[i].value == 0
      {
        var b := buses[i].value;
        if i < |init| {
          KeepsAligned(offset, k, period, i, b);
          var q := period / b;
          assert period == q * b;
          assert period * c == (q * c) * b;
          ModMultiple(0, q * c, b);
        } else {
          ModMultiple(0, period, c);
        }
      }
    }
  }

  /** The fold keeps its invariant: every processed bus leaves `i` minutes
      after the offset, and divides the period, the product of those ids. */
  lemma {:induction false} ScheduleAligned(buses: Buses, bound: nat)
    requires NoZeroBus(buses) && Lines(buses, bound)
    ensures Aligned(buses, Schedule(buses, bound), Period(buses))
  {
    if buses != [] {
      var n := |buses| - 1;
      LinesPrefix(buses, bound);
      ScheduleAligned(buses[..n], bound);
      AlignedSnoc(buses, bound);
    }
  }

  /** The step of the fold for the last position keeps the invariant. */
  lemma AlignedSnoc(buses: Buses, bound: nat)
    requires NoZeroBus(buses) && |buses| > 0
    requires var init := buses[..|buses| - 1];
      Aligned(init, Schedule(init, bound), Period(init)) &&
      (buses[|buses| - 1].Some? ==>
        Search(Schedule(init, bound), Period(init), |buses| - 1, buses[|buses| - 1].value, 0, bound) < bound)
    ensures Aligned(buses, Schedule(buses, bound), Period(buses))
  {
    var n := |buses| - 1;
    var init := buses[..n];
    var x := buses[n];
    assert buses == init + [x];
    var offset := Schedule(init, bound);
    var p := Period(init);
    assert buses[..|buses| - 1] == init && buses[|buses| - 1] == x;
    if x.Some? {
      var k := Search(offset, p, n, x.value, 0, bound);
      assert Schedule(buses, bound) == offset + k * p;
      assert Period(buses) == p * x.value;
      AlignedStep(init, x, offset, p, k);
    } else {
      assert Schedule(buses, bound) == offset;
      assert Period(buses) == p;
      AlignedStep(init, x, offset, p, 0);
    }
  }

  /** The inner loops of a prefix of the fold stop as they do in the whole. */
  lemma LinesPrefix(buses: Buses, bound: nat)
    requires NoZeroBus(buses) && Lines(buses, bound) && |buses| > 0
    ensures NoZeroBus(buses[..|buses| - 1]) && Lines(buses[..|buses| - 1], bound)
  {
    var init := buses[..|buses| - 1];
    forall i | 0 <= i < |init| && init[i].Some?
      ensures Search(Schedule(init[..i], bound), Period(init[..i]), i, init[i].value, 0, bound) < bound
    {
      assert init[..i] == buses[..i] && init[i] == buses[i];
    }
  }

  /** The inner `while` of `part_2`: add the period until the bus at
      position `i` lines up. */
  method LineUp(offset: nat, period: nat, i: nat, b: nat, ghost bound: nat) returns (r: nat)
    requires b > 0 && Search(offset, period, i, b, 0, bound) < bound
    ensures r == offset + Search(offset, period, i, b, 0, bound) * period
    ensures (r + i) % b == 0
  {
    r := offset;
    ghost var k: nat := 0;
    ghost var target := Search(offset, period, i, b, 0, bound);
    while (r + i) % b != 0
      invariant r == offset + k * period && k <= target
      decreases target - k
    {
      assert !Hits(offset, period, i, b, k);
      assert (k + 1) * period == k * period + period;
      r := r + period;
      k := k + 1;
    }
    assert Hits(offset, period, i, b, k);
  }

  /** The fold's value on one more position. */
  lemma ScheduleSnoc(buses: Buses, i: nat, bound: nat)
    requires NoZeroBus(buses) && i < |buses|
    ensures NoZeroBus(buses[..i]) && NoZeroBus(buses[..i + 1])
    ensures Period(buses[..i + 1]) == match buses[i] case None => Period(buses[..i]) case Some(b) => Period(buses[..i]) * b
    ensures buses[i].Some? ==> (Schedule(buses[..i + 1], bound) ==
      Schedule(buses[..i], bound) + Search(Schedule(buses[..i], bound), Period(buses[..i]), i, buses[i].value, 0, bound) * Period(buses[..i]))
    ensures buses[i].None? ==> Schedule(buses[..i + 1], bound) == Schedule(buses[..i], bound)
  {
    assert buses[..i + 1][..i] == buses[..i] && buses[..i + 1][i] == buses[i];
  }

  /** `part_2`: the fold over the listed buses with their positions, each
      inner loop adding the period until that bus lines up. */
  method Part2(buses: Buses, ghost bound: nat) returns (offset: nat)
    requires NoZeroBus(buses) && Lines(buses, bound)
    ensures offset == Schedule(buses, bound)
    ensures forall i :: 0 <= i < |buses| && buses[i].Some? ==> (offset + i) % buses[i].value == 0
  {
    offset := 0;
    var period := 1;
    for i := 0 to |buses|
      invariant NoZeroBus(buses[..i])
      invariant offset == Schedule(buses[..i], bound) && period == Period(buses[..i])
    {
      ScheduleSnoc(buses, i, bound);
      match buses[i]
      case None =>
      case Some(b) =>
        offset := LineUp(offset, period, i, b, bound);
        period := period * b;
    }
    assert buses[..|buses|] == buses;
    ScheduleAligned(buses, bound);
  }

  /** The second example's answer lines up every bus of the example. */
  lemma ExamplePart2(e: Buses)
    requires e == ExampleBuses
    ensures NoZeroBus(e) && Aligned(e, 1068781, 7 * 13 * 59 * 31 * 19)
  {
    assert e[0] == Some(7) && e[1] == Some(13) && e[4] == Some(59) && e[6] == Some(31) && e[7] == Some(19);
    assert e[2].None? && e[3].None? && e[5].None?;
  }
}
