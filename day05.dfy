/** Day 5: boarding passes. A pass is ten bytes naming a seat in binary, 'B'
    and 'R' for 1 and 'F' and 'L' for 0, most significant first. */
module Day05 {
  import opened Text
  import opened Seqs
  import opened Bits

  /** `type Seat = u16`; every seat a pass can name is below 1024, so the
      16-bit width never matters and the model uses `nat`. */
  type Seat = nat

  predicate IsSeatByte(c: char) { c == 'F' || c == 'B' || c == 'L' || c == 'R' }

  predicate IsOne(c: char) { c == 'B' || c == 'R' }

  /** The value of `current` after `i` shifts: it starts at 1 << 10 and is
      halved once per byte, reaching 0 after the eleventh. */
  function Current(i: nat): (c: nat)
  {
    if i == 0 then 1024 else Current(i - 1) / 2
  }

  lemma {:induction false} CurrentIs(i: nat)
    ensures i <= 10 ==> Current(i) == Pow2(10 - i)
    ensures i > 10 ==> Current(i) == 0
  {
    if i > 0 {
      CurrentIs(i - 1);
      if i <= 10 {
        assert Pow2(10 - (i - 1)) == 2 * Pow2(10 - i);
      }
    } else {
      assert Pow2(10) == 1024 by {
        assert Pow2(5) == 32;
      }
    }
  }

  /** The seat the bytes of `s` select: each 1-byte sets the bit `current` holds at its turn. */
  function SeatBits(s: string): Seat
  {
    if s == [] then 0
    else Or(SeatBits(s[..|s| - 1]), if IsOne(s[|s| - 1]) then Current(|s|) else 0)
  }

  /** What `parse_seat` returns: `None` as soon as any byte is not one of F, B, L, R. */
  function SeatSpec(s: string): Option<Seat>
  {
    if forall i :: 0 <= i < |s| ==> IsSeatByte(s[i]) then Some(SeatBits(s)) else None
  }

  /** `parse_seat`: the byte loop shifting `current` and or-ing it into `seat`. */
  method ParseSeat(input: string) returns (r: Option<Seat>)
    ensures r == SeatSpec(input)
  {
    var seat: nat := 0;
    var current: nat := 1024;
    for i := 0 to |input|
      invariant current == Current(i)
      invariant seat == SeatBits(input[..i])
      invariant forall j :: 0 <= j < i ==> IsSeatByte(input[j])
    {
      assert input[..i + 1][..i] == input[..i];
      current := current / 2;
      var byte := input[i];
      if byte == 'F' {
        assert Or(seat, 0) == seat;
      } else if byte == 'B' {
        seat := Or(seat, current);
      } else if byte == 'L' {
        assert Or(seat, 0) == seat;
      } else if byte == 'R' {
        seat := Or(seat, current);
      } else {
        return None;
      }
    }
    assert input[..|input|] == input;
    return Some(seat);
  }

  /** Byte `i` of the pass is bit 9 - i of the seat, a 1 exactly for 'B' and
      'R'; bits 10 and above stay clear, and bytes after the tenth are ignored. */
  lemma {:induction false} SeatBitsBit(s: string, k: nat)
    ensures Bit(SeatBits(s), k) <==> (k <= 9 && 9 - k < |s| && IsOne(s[9 - k]))
  {
    if s == [] {
      ZeroBit(k);
    } else {
      var n := |s|;
      var init := s[..n - 1];
      SeatBitsBit(init, k);
      CurrentIs(n);
      var c := if IsOne(s[n - 1]) then Current(n) else 0;
      OrBit(SeatBits(init), c, k);
      ZeroBit(k);
      if n <= 10 {
        Pow2Bit(10 - n, k);
      }
      if k <= 9 && 9 - k < n - 1 {
        assert s[9 - k] == init[9 - k];
      }
    }
  }

  /** Every seat number has at most ten bits: a value below 1024. */
  lemma {:induction false} SeatBitsBound(s: string)
    ensures SeatBits(s) < 1024
  {
    CurrentIs(0);
    if s != [] {
      SeatBitsBound(s[..|s| - 1]);
      CurrentIs(|s|);
      OrBound(SeatBits(s[..|s| - 1]), if IsOne(s[|s| - 1]) then Current(|s|) else 0, 10);
    }
  }

  /** The bytes of `s` read as a binary number, most significant first. */
  function Binary(s: string): (n: nat)
    ensures n < Pow2(|s|)
  {
    if s == [] then 0 else 2 * Binary(s[..|s| - 1]) + (if IsOne(s[|s| - 1]) then 1 else 0)
  }

  /** `x << m` */
  function Shl(x: nat, m: nat): nat
  {
    if m == 0 then x else 2 * Shl(x, m - 1)
  }

  lemma {:induction false} ShlDouble(x: nat, m: nat)
    ensures Shl(x, m + 1) == Shl(2 * x, m)
  {
    if m > 0 {
      ShlDouble(x, m - 1);
    }
  }

  lemma {:induction false} Pow2Shl(m: nat)
    ensures Pow2(m) == Shl(1, m)
  {
    if m > 0 {
      Pow2Shl(m - 1);
    }
  }

  /** Shifting both operands shifts their `Or`. */
  lemma {:induction false} OrShl(a: nat, b: nat, m: nat)
    ensures Or(Shl(a, m), Shl(b, m)) == Shl(Or(a, b), m)
  {
    if m > 0 {
      OrShl(a, b, m - 1);
      OrDouble(Shl(a, m - 1), Shl(b, m - 1));
    }
  }

  /** A pass of up to ten bytes selects its binary value, shifted to the top of
      the ten bits: a full pass of ten bytes gives exactly its binary value. */
  lemma {:induction false} SeatValue(s: string)
    requires |s| <= 10
    ensures SeatBits(s) == Shl(Binary(s), 10 - |s|)
    ensures |s| == 10 ==> SeatBits(s) == Binary(s)
  {
    if s != [] {
      var n := |s|;
      var m := 10 - n;
      var init := s[..n - 1];
      var x := Binary(init);
      SeatValue(init);
      ShlDouble(x, m);
      assert SeatBits(init) == Shl(2 * x, m);
      if IsOne(s[n - 1]) {
        CurrentIs(n);
        Pow2Shl(m);
        assert Current(n) == Shl(1, m);
        OrShl(2 * x, 1, m);
        OrOdd(x);
        assert Binary(s) == 2 * x + 1;
      } else {
        assert Or(Shl(2 * x, m), 0) == Shl(2 * x, m);
        assert Binary(s) == 2 * x;
      }
    }
  }

  lemma OrOdd(x: nat)
    ensures Or(2 * x, 1) == 2 * x + 1
  {
    if x != 0 {
      assert (2 * x) / 2 == x;
    }
  }

  /** The puzzle's example pass: row 44, column 5, seat 44 * 8 + 5. */
  lemma ExampleSeat(s: string)
    requires s == "FBFBBFFRLR"
    ensures SeatSpec(s) == Some(357)
  {
    SeatValue(s);
    assert s[..1] == "F";
    assert s[..2][..1] == s[..1];
    assert s[..3][..2] == s[..2];
    assert s[..4][..3] == s[..3];
    assert s[..5][..4] == s[..4];
    assert s[..6][..5] == s[..5];
    assert s[..7][..6] == s[..6];
    assert s[..8][..7] == s[..7];
    assert s[..9][..8] == s[..8];
    assert Binary(s[..1]) == 0;
    assert Binary(s[..2]) == 1;
    assert Binary(s[..3]) == 2;
    assert Binary(s[..4]) == 5;
    assert Binary(s[..5]) == 11;
    assert Binary(s[..6]) == 22;
    assert Binary(s[..7]) == 44;
    assert Binary(s[..8]) == 89;
    assert Binary(s[..9]) == 178;
  }

  /** `parse`: every line must be a pass. */
  function Parse(lines: seq<string>): (r: Option<seq<int>>)
    ensures r.Some? <==> forall i :: 0 <= i < |lines| ==> SeatSpec(lines[i]).Some?
    ensures r.Some? ==> |r.value| == |lines| && forall i :: 0 <= i < |lines| ==> r.value[i] == SeatSpec(lines[i]).value as int
  {
    if lines == [] then Some([])
    else
      match (SeatSpec(lines[0]), Parse(lines[1..]))
      case (Some(s), Some(rest)) => Some([s as int] + rest)
      case (None, _) => None
      case (_, None) =>
        assert forall i :: 1 <= i < |lines| ==> lines[i] == lines[1..][i - 1];
        None
  }

  /** `part_1`: the highest seat, `None` on an empty list. */
  function Part1(seats: seq<int>): (r: Option<int>)
    ensures r.None? <==> seats == []
    ensures r.Some? ==> r.value in seats && forall i :: 0 <= i < |seats| ==> seats[i] <= r.value
  {
    if seats == [] then None else Some(Max(seats))
  }

  /** A consecutive pair of the sorted list with exactly one number missing between them. */
  predicate GapAt(sorted: seq<int>, k: int)
  {
    1 <= k < |sorted| && sorted[k - 1] == sorted[k] - 2
  }

  /** The `while let` loop of `part_2`, with `current` the element at index `j`
      and the elements below it still on the stack. */
  function GapBelow(sorted: seq<int>, j: nat): Option<int>
    requires j < |sorted|
  {
    if j == 0 then None
    else if sorted[j - 1] == sorted[j] - 2 then Some(sorted[j] - 1)
    else GapBelow(sorted, j - 1)
  }

  /** The scan from index `j` down returns the middle of the highest gap pair
      at or below `j`, and `None` iff there is no such pair. */
  lemma {:induction false} GapBelowFinds(sorted: seq<int>, j: nat)
    requires j < |sorted|
    ensures var r := GapBelow(sorted, j);
      (r.Some? ==> exists k :: 1 <= k <= j && GapAt(sorted, k) && r.value == sorted[k] - 1
                              && forall k' :: k < k' <= j ==> !GapAt(sorted, k'))
      && (r.None? <==> forall k :: 1 <= k <= j ==> !GapAt(sorted, k))
  {
    if j > 0 {
      if GapAt(sorted, j) {
        assert GapBelow(sorted, j) == Some(sorted[j] - 1);
      } else {
        GapBelowFinds(sorted, j - 1);
        var r := GapBelow(sorted, j - 1);
        assert GapBelow(sorted, j) == r;
        if r.Some? {
          var k :| 1 <= k <= j - 1 && GapAt(sorted, k) && r.value == sorted[k] - 1
                   && forall k' :: k < k' <= j - 1 ==> !GapAt(sorted, k');
          assert forall k' :: k < k' <= j ==> !GapAt(sorted, k');
        }
      }
    }
  }

  function Gap(sorted: seq<int>): Option<int>
  {
    if sorted == [] then None else GapBelow(sorted, |sorted| - 1)
  }

  /** The scan from the top reaches index `j`: no gap pair lies above it. */
  predicate Reached(sorted: seq<int>, j: nat)
  {
    forall k :: j < k < |sorted| ==> !GapAt(sorted, k)
  }

  /** Every `current` the scan compares, at index 1 or above of the sorted
      list and reached before a gap pair is found, is at least 2. */
  predicate NoUnderflow(sorted: seq<int>)
  {
    forall j :: 1 <= j < |sorted| && Reached(sorted, j) ==> sorted[j] >= 2
  }

  /** `part_2`: sorts, then pops from the top looking for the first pair two
      apart. The source's `current - 2` is a `u16` subtraction that panics
      below 2, so the precondition keeps every `current` it computes at 2 or
      more. */
  method Part2(seats: seq<int>) returns (r: Option<int>)
    requires NoUnderflow(SortAsc(seats))
    ensures r == Gap(SortAsc(seats))
  {
    r := PopScan(SortAsc(seats));
  }

  /** The `while let` loop of `part_2` on the sorted list. */
  method PopScan(sorted: seq<int>) returns (r: Option<int>)
    ensures r == Gap(sorted)
  {
    // `len` is the vector's length: `pop` shortens it and yields `sorted[len]`.
    var len := |sorted|;
    if len == 0 {
      return None;
    }
    len := len - 1;
    var current := sorted[len];
    while len > 0
      invariant len < |sorted| && current == sorted[len]
      invariant Gap(sorted) == GapBelow(sorted, len)
    {
      len := len - 1;
      var next := sorted[len];
      if next == current - 2 {
        return Some(current - 1);
      }
      current := next;
    }
    return None;
  }

  /** A missing seat whose two neighbours are taken. */
  predicate IsGap(seats: seq<int>, s: int)
  {
    s - 1 in seats && s + 1 in seats && s !in seats
  }

  /** Between the two numbers of a gap pair nothing lies. */
  lemma GapAtMissing(sorted: seq<int>, k: int)
    requires Sorted(sorted) && GapAt(sorted, k)
    ensures IsGap(sorted, sorted[k] - 1)
  {
    forall i | 0 <= i < |sorted| ensures sorted[i] != sorted[k] - 1 {
      if i < k {
        assert sorted[i] <= sorted[k - 1];
      } else {
        assert sorted[k] <= sorted[i];
      }
    }
  }

  /** When no neighbour pair of the sorted list jumps from t - 1 to t + 1,
      a seat t between two present seats is itself present. */
  lemma NoPairFilled(sorted: seq<int>, t: int)
    requires Sorted(sorted) && t - 1 in sorted && t + 1 in sorted
    requires forall k :: 1 <= k < |sorted| && sorted[k] == t + 1 ==> !GapAt(sorted, k)
    ensures t in sorted
  {
    var a :| 0 <= a < |sorted| && sorted[a] == t - 1;
    var b :| 0 <= b < |sorted| && sorted[b] == t + 1;
    var m := FirstAbove(sorted, t - 1, 0, b);
    assert a < m;
    assert sorted[m - 1] >= sorted[a];
    assert sorted[m] <= sorted[b];
    assert sorted[m] == t;
  }

  /** The first index from `i` on whose element is above `s`, given one at `b`. */
  lemma {:induction false} FirstAbove(sorted: seq<int>, s: int, i: nat, b: nat) returns (m: nat)
    requires i <= b < |sorted| && sorted[b] > s
    requires forall j :: 0 <= j < i ==> sorted[j] <= s
    ensures i <= m <= b && sorted[m] > s && forall j :: 0 <= j < m ==> sorted[j] <= s
    decreases b - i
  {
    if sorted[i] > s {
      m := i;
    } else {
      m := FirstAbove(sorted, s, i + 1, b);
    }
  }

  /** Above the highest gap pair every seat between two present seats is present. */
  lemma HighestGap(sorted: seq<int>, k: int)
    requires Sorted(sorted) && GapAt(sorted, k)
    requires forall k' :: k < k' < |sorted| ==> !GapAt(sorted, k')
    ensures forall t :: t > sorted[k] - 1 ==> !IsGap(sorted, t)
  {
    forall t | t > sorted[k] - 1 && t - 1 in sorted && t + 1 in sorted ensures t in sorted {
      forall k' | 1 <= k' < |sorted| && sorted[k'] == t + 1 ensures !GapAt(sorted, k') {
        assert k' > k;
      }
      NoPairFilled(sorted, t);
    }
  }

  /** Without any gap pair there is no gap. */
  lemma NoGap(sorted: seq<int>)
    requires Sorted(sorted)
    requires forall k :: 1 <= k < |sorted| ==> !GapAt(sorted, k)
    ensures forall t :: !IsGap(sorted, t)
  {
    forall t | t - 1 in sorted && t + 1 in sorted ensures t in sorted {
      NoPairFilled(sorted, t);
    }
  }

  /** On a sorted list, `Gap` finds a missing seat with both neighbours
      present, the highest such one, and `None` exactly when there is none. */
  lemma GapCorrect(sorted: seq<int>)
    requires Sorted(sorted)
    ensures var r := Gap(sorted);
      (r.Some? ==> IsGap(sorted, r.value) && forall t :: t > r.value ==> !IsGap(sorted, t))
      && (r.None? <==> forall t :: !IsGap(sorted, t))
  {
    var r := Gap(sorted);
    if sorted == [] {
      NoGap(sorted);
    } else {
      var j := |sorted| - 1;
      GapBelowFinds(sorted, j);
      if r.Some? {
        var k :| 1 <= k <= j && GapAt(sorted, k) && r.value == sorted[k] - 1
                 && forall k' :: k < k' <= j ==> !GapAt(sorted, k');
        GapAtMissing(sorted, k);
        HighestGap(sorted, k);
      } else {
        NoGap(sorted);
      }
    }
  }

  /** `part_2` finds a missing seat whose neighbours are both taken, the
      highest such one; it returns `None` exactly when there is no such seat. */
  lemma Part2Correct(seats: seq<int>)
    ensures var r := Gap(SortAsc(seats));
      (r.Some? ==> IsGap(seats, r.value) && forall t :: t > r.value ==> !IsGap(seats, t))
      && (r.None? <==> forall t :: !IsGap(seats, t))
  {
    var sorted := SortAsc(seats);
    assert forall x :: x in sorted <==> x in seats by {
      assert forall x :: x in sorted <==> x in multiset(sorted);
      assert forall x :: x in seats <==> x in multiset(seats);
    }
    assert forall t :: IsGap(sorted, t) <==> IsGap(seats, t);
    GapCorrect(sorted);
  }

  /** A list with low seats below its gap: the scan stops at the gap 5, 7
      before it computes `1 - 2`. */
  lemma Part2StopsAbove(sorted: seq<int>)
    requires sorted == [0, 1, 5, 7]
    ensures NoUnderflow(sorted) && Gap(sorted) == Some(6)
  {
    assert GapAt(sorted, 3);
    assert GapBelow(sorted, 3) == Some(6);
  }
}
