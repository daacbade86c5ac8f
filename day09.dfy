/** Day 9: an encoding where every number after a preamble must be the sum
    of two of the `preamble_size` numbers before it. Part 1 finds the first
    number that is not; part 2 a contiguous run summing to it. Numbers are
    `u64`, modelled as `nat`. */
module Day09 {
  import opened Text
  import opened Seqs

  /** `u64::from_str` rejects numbers of 64 bits or more. */
  predicate IsU64(n: nat) { n < 0x1_0000_0000_0000_0000 }

  /** `u64::from_str` on one line. */
  function ParseU64(line: string): (r: Option<nat>)
    ensures r.Some? <==> ParseNat(line).Some? && IsU64(ParseNat(line).value)
    ensures r.Some? ==> ParseNat(line) == r
  {
    match ParseNat(line)
    case None => None
    case Some(n) => if IsU64(n) then Some(n) else None
  }

  /** `parse`: one number per line; a line that is not a `u64` makes the
      source's `unwrap` panic, modelled as `None`. */
  function Parse(lines: seq<string>): (r: Option<seq<nat>>)
    ensures r.Some? ==> |r.value| == |lines|
    ensures r.Some? ==> forall i :: 0 <= i < |lines| ==> ParseNat(lines[i]) == Some(r.value[i])
    ensures r.None? <==> exists i :: 0 <= i < |lines| && (ParseNat(lines[i]).None? || !IsU64(ParseNat(lines[i]).value))
  {
    var r := ParseEach(lines, ParseU64);
    assert r.None? ==> exists i :: 0 <= i < |lines| && ParseU64(lines[i]).None?;
    r
  }

  /** The loop of `SortedVec::find` over `[lo, hi)`. Its comparisons only
      make sense for a vector sorted in descending order, which `insert` does
      not keep. */
  function FindLoop(v: seq<nat>, x: nat, lo: nat, hi: nat): (r: nat)
    requires lo <= hi <= |v|
    ensures lo == hi ==> r == lo
    ensures lo < hi ==> lo <= r < hi
    decreases hi - lo
  {
    if hi - lo > 1 then
      var mid := (hi - lo) / 2 + lo;
      if v[mid] < x then FindLoop(v, x, lo, mid)
      else if v[mid] == x then mid
      else FindLoop(v, x, mid, hi)
    else lo
  }

  /** `SortedVec::contains` as written. */
  function ContainsSpec(v: seq<nat>, x: nat): (b: bool)
    ensures b ==> x in v
  {
    |v| > 0 && v[FindLoop(v, x, 0, |v|)] == x
  }

  /** `SortedVec::insert` as written: at the index `find` returns. */
  function InsertSpec(v: seq<nat>, x: nat): (r: seq<nat>)
    ensures |r| == |v| + 1
    ensures multiset(r) == multiset(v) + multiset{x}
  {
    var i := FindLoop(v, x, 0, |v|);
    assert v == v[..i] + v[i..];
    v[..i] + [x] + v[i..]
  }

  /** `x` is the sum of two of the preamble's numbers at different positions,
      both below `x`, or the preamble is not full yet: what `is_valid` is
      evidently meant to decide. */
  predicate IsValidIntended(preamble: seq<nat>, size: nat, x: nat)
  {
    |preamble| < size || exists i, j :: 0 <= i < j < |preamble| && preamble[i] < x && preamble[j] < x && preamble[i] + preamble[j] == x
  }

  /** The loop of `is_valid` from position `j`, with the working set `ws` as
      the as-written `SortedVec` keeps it. */
  function ScanAsWritten(preamble: seq<nat>, x: nat, ws: seq<nat>, j: nat): bool
    requires j <= |preamble|
    decreases |preamble| - j
  {
    if j == |preamble| then false
    else if preamble[j] < x then
      if ContainsSpec(ws, x - preamble[j]) then true
      else ScanAsWritten(preamble, x, InsertSpec(ws, preamble[j]), j + 1)
    else ScanAsWritten(preamble, x, ws, j + 1)
  }

  /** `is_valid` as written. */
  predicate ValidAsWritten(preamble: seq<nat>, size: nat, x: nat)
  {
    |preamble| < size || ScanAsWritten(preamble, x, [], 0)
  }

  /** The working set of the scan at position `j` holds earlier preamble
      numbers below `x`. */
  predicate EarlierBelow(preamble: seq<nat>, x: nat, ws: seq<nat>, j: nat)
    requires j <= |preamble|
  {
    forall v :: v in ws ==> exists i :: 0 <= i < j && preamble[i] < x && preamble[i] == v
  }

  lemma {:induction false} ScanSound(preamble: seq<nat>, x: nat, ws: seq<nat>, j: nat)
    requires j <= |preamble| && EarlierBelow(preamble, x, ws, j)
    requires ScanAsWritten(preamble, x, ws, j)
    ensures exists i, k :: 0 <= i < k < |preamble| && preamble[i] < x && preamble[k] < x && preamble[i] + preamble[k] == x
    decreases |preamble| - j
  {
    if preamble[j] < x {
      if ContainsSpec(ws, x - preamble[j]) {
        var i :| 0 <= i < j && preamble[i] < x && preamble[i] == x - preamble[j];
        assert preamble[i] + preamble[j] == x;
      } else {
        var ws' := InsertSpec(ws, preamble[j]);
        forall v | v in ws' ensures exists i :: 0 <= i < j + 1 && preamble[i] < x && preamble[i] == v {
          assert v in multiset(ws');
          if v == preamble[j] {
            assert 0 <= j < j + 1 && preamble[j] < x && preamble[j] == v;
          } else {
            assert v in multiset(ws);
            assert v in ws;
            var i :| 0 <= i < j && preamble[i] < x && preamble[i] == v;
            assert 0 <= i < j + 1;
          }
        }
        ScanSound(preamble, x, ws', j + 1);
      }
    } else {
      ScanSound(preamble, x, ws, j + 1);
    }
  }

  /** Whatever the as-written check accepts is a genuine sum: `contains` is sound. */
  lemma AsWrittenSound(preamble: seq<nat>, size: nat, x: nat)
    requires ValidAsWritten(preamble, size, x)
    ensures IsValidIntended(preamble, size, x)
  {
    if |preamble| >= size {
      ScanSound(preamble, x, [], 0);
    }
  }

  /** But it misses sums: with the preamble 5, 3, 4 the working set becomes
      [3, 5], `find(3)` looks at index 1 only, and 3 + 4 = 7 is rejected. */
  lemma AsWrittenMisses()
    ensures !ValidAsWritten([5, 3, 4], 3, 7)
    ensures IsValidIntended([5, 3, 4], 3, 7)
  {
    var p: seq<nat> := [5, 3, 4];
    assert p[1] + p[2] == 7;
    assert !ContainsSpec([], 2);
    assert InsertSpec([], 5) == [5];
    assert !ContainsSpec([5], 4);
    assert FindLoop([5], 3, 0, 1) == 0;
    assert InsertSpec([5], 3) == [3, 5];
    assert FindLoop([3, 5], 3, 0, 2) == 1;
    assert !ContainsSpec([3, 5], 3);
    assert !ScanAsWritten(p, 7, InsertSpec([3, 5], 4), 3);
  }

  /** The vector behind the working set. */
  class SortedVec {
    var items: seq<nat>

    /** `SortedVec::with_capacity` */
    constructor ()
      ensures items == []
    {
      items := [];
    }

    method Clear()
      modifies this
      ensures items == []
    {
      items := [];
    }

    /** `SortedVec::find` as written: 0 on an empty vector, an index of it otherwise. */
    method Find(x: nat) returns (idx: nat)
      ensures idx == FindLoop(items, x, 0, |items|)
      ensures |items| == 0 ==> idx == 0
      ensures |items| > 0 ==> idx < |items|
    {
      var lo, hi := 0, |items|;
      while hi - lo > 1
        invariant lo <= hi <= |items|
        invariant FindLoop(items, x, lo, hi) == FindLoop(items, x, 0, |items|)
        decreases hi - lo
      {
        var mid := (hi - lo) / 2 + lo;
        if items[mid] < x {
          hi := mid;
        } else if items[mid] == x {
          return mid;
        } else {
          lo := mid;
        }
      }
      return lo;
    }

    /** `SortedVec::contains` as written: false on an empty vector and sound. */
    method Contains(x: nat) returns (b: bool)
      ensures b == ContainsSpec(items, x)
      ensures b ==> x in items
      ensures |items| == 0 ==> !b
    {
      if |items| == 0 {
        return false;
      }
      var idx := Find(x);
      b := items[idx] == x;
    }

    /** `SortedVec::insert` as written: one more occurrence of `x`. */
    method Insert(x: nat)
      modifies this
      ensures items == InsertSpec(old(items), x)
      ensures multiset(items) == multiset(old(items)) + multiset{x}
      ensures |items| == |old(items)| + 1
    {
      var idx := Find(x);
      items := items[..idx] + [x] + items[idx..];
    }

    /** The search `find` evidently means, on an ascending vector: the
        first index whose value is not below `x`. */
    method FindSorted(x: nat) returns (idx: nat)
      requires Sorted(items)
      ensures idx <= |items|
      ensures forall k :: 0 <= k < idx ==> items[k] < x
      ensures forall k :: idx <= k < |items| ==> items[k] >= x
    {
      var lo, hi := 0, |items|;
      while lo < hi
        invariant 0 <= lo <= hi <= |items|
        invariant forall k :: 0 <= k < lo ==> items[k] < x
        invariant forall k :: hi <= k < |items| ==> items[k] >= x
        decreases hi - lo
      {
        var mid := (lo + hi) / 2;
        if items[mid] < x {
          lo := mid + 1;
        } else {
          hi := mid;
        }
      }
      return lo;
    }

    /** `contains` on the ascending vector: exactly membership. */
    method ContainsSorted(x: nat) returns (b: bool)
      requires Sorted(items)
      ensures b <==> x in items
    {
      var idx := FindSorted(x);
      b := idx < |items| && items[idx] == x;
    }

    /** `insert` at the position `FindSorted` gives keeps the vector ascending. */
    method InsertSorted(x: nat)
      requires Sorted(items)
      modifies this
      ensures Sorted(items)
      ensures multiset(items) == multiset(old(items)) + multiset{x}
    {
      var idx := FindSorted(x);
      assert items == items[..idx] + items[idx..];
      items := items[..idx] + [x] + items[idx..];
    }
  }

  /** The preamble after pushing `x`: the oldest number drops out once
      there are more than `size`. */
  function Push(preamble: seq<nat>, size: nat, x: nat): (r: seq<nat>)
    ensures |preamble| <= size ==> |r| <= size
    ensures r == preamble + [x] || r == (preamble + [x])[1..]
  {
    var p := preamble + [x];
    if |p| > size then p[1..] else p
  }

  class CipherCheck {
    var preamble: seq<nat>
    var preambleSize: nat
    var workingSet: SortedVec

    /** `CipherCheck::new` */
    constructor (size: nat)
      ensures preamble == [] && preambleSize == size && fresh(workingSet)
    {
      preamble := [];
      preambleSize := size;
      workingSet := new SortedVec();
    }

    /** `is_valid` as written, over the as-written working set. */
    method IsValidAsWritten(x: nat) returns (b: bool)
      modifies workingSet
      ensures b == ValidAsWritten(preamble, preambleSize, x)
    {
      if |preamble| < preambleSize {
        return true;
      }
      workingSet.Clear();
      for j := 0 to |preamble|
        invariant ScanAsWritten(preamble, x, workingSet.items, j) == ScanAsWritten(preamble, x, [], 0)
      {
        var y := preamble[j];
        if y < x {
          var found := workingSet.Contains(x - y);
          if found {
            return true;
          }
          workingSet.Insert(y);
        }
      }
      return false;
    }

    /** `is_valid` with the working set kept ascending: true iff the
        preamble is not full or two of its numbers below `x` sum to it. */
    method IsValid(x: nat) returns (b: bool)
      modifies workingSet
      ensures b == IsValidIntended(preamble, preambleSize, x)
    {
      if |preamble| < preambleSize {
        return true;
      }
      workingSet.Clear();
      for j := 0 to |preamble|
        invariant Sorted(workingSet.items)
        invariant forall v :: v in workingSet.items <==> exists i :: 0 <= i < j && preamble[i] < x && preamble[i] == v
        invariant !exists i, k :: 0 <= i < k < j && preamble[i] < x && preamble[k] < x && preamble[i] + preamble[k] == x
      {
        var y := preamble[j];
        if y < x {
          var found := workingSet.ContainsSorted(x - y);
          if found {
            var i :| 0 <= i < j && preamble[i] < x && preamble[i] == x - y;
            assert preamble[i] + preamble[j] == x;
            return true;
          }
          ghost var before := workingSet.items;
          workingSet.InsertSorted(y);
          forall v ensures v in workingSet.items <==> v in before || v == y {
            assert v in workingSet.items <==> v in multiset(workingSet.items);
            assert v in before <==> v in multiset(before);
          }
        }
      }
      return false;
    }

    /** `advance`: an invalid number changes nothing; a valid one is pushed
        and the oldest dropped beyond `preamble_size`. */
    method Advance(x: nat) returns (ok: bool)
      modifies this, workingSet
      ensures ok == IsValidIntended(old(preamble), old(preambleSize), x)
      ensures preamble == if ok then Push(old(preamble), old(preambleSize), x) else old(preamble)
      ensures preambleSize == old(preambleSize) && workingSet == old(workingSet)
    {
      ok := IsValid(x);
      if !ok {
        return;
      }
      preamble := preamble + [x];
      if |preamble| > preambleSize {
        preamble := preamble[1..];
      }
    }

    /** `advance` as written, over the as-written `is_valid`. */
    method AdvanceAsWritten(x: nat) returns (ok: bool)
      modifies this, workingSet
      ensures ok == ValidAsWritten(old(preamble), old(preambleSize), x)
      ensures preamble == if ok then Push(old(preamble), old(preambleSize), x) else old(preamble)
      ensures preambleSize == old(preambleSize) && workingSet == old(workingSet)
    {
      ok := IsValidAsWritten(x);
      if !ok {
        return;
      }
      preamble := preamble + [x];
      if |preamble| > preambleSize {
        preamble := preamble[1..];
      }
    }
  }

  /** The `size` numbers before position `i` (fewer at the start). */
  function Window(cipher: seq<nat>, size: nat, i: nat): seq<nat>
    requires i <= |cipher|
  {
    cipher[if i >= size then i - size else 0..i]
  }

  lemma PushWindow(cipher: seq<nat>, size: nat, i: nat)
    requires i < |cipher|
    ensures Push(Window(cipher, size, i), size, cipher[i]) == Window(cipher, size, i + 1)
  {
    var lo := if i >= size then i - size else 0;
    assert Window(cipher, size, i) + [cipher[i]] == cipher[lo..i + 1];
  }

  /** The numbers from position `i` on are checked against `preamble`, each valid one pushed. */
  function Check(cipher: seq<nat>, size: nat, preamble: seq<nat>, i: nat): Option<nat>
    requires i <= |cipher|
    decreases |cipher| - i
  {
    if i == |cipher| then None
    else if !IsValidIntended(preamble, size, cipher[i]) then Some(cipher[i])
    else Check(cipher, size, Push(preamble, size, cipher[i]), i + 1)
  }

  /** The number at `k` is not the sum of two of the `size` numbers before it. */
  predicate Invalid(cipher: seq<nat>, size: nat, k: nat)
    requires k < |cipher|
  {
    !IsValidIntended(Window(cipher, size, k), size, cipher[k])
  }

  /** A number the check reports is the first invalid one from `i` on. */
  lemma {:induction false} CheckFound(cipher: seq<nat>, size: nat, i: nat)
    requires i <= |cipher| && Check(cipher, size, Window(cipher, size, i), i).Some?
    ensures exists k :: (i <= k < |cipher| && Invalid(cipher, size, k) && Check(cipher, size, Window(cipher, size, i), i).value == cipher[k]
      && forall j :: i <= j < k ==> !Invalid(cipher, size, j))
    decreases |cipher| - i
  {
    if !Invalid(cipher, size, i) {
      PushWindow(cipher, size, i);
      assert Check(cipher, size, Window(cipher, size, i), i) == Check(cipher, size, Window(cipher, size, i + 1), i + 1);
      CheckFound(cipher, size, i + 1);
      var k :| i + 1 <= k < |cipher| && Invalid(cipher, size, k) && Check(cipher, size, Window(cipher, size, i + 1), i + 1).value == cipher[k]
        && forall j :: i + 1 <= j < k ==> !Invalid(cipher, size, j);
      assert forall j :: i <= j < k ==> !Invalid(cipher, size, j);
    }
  }

  /** The check reports nothing only when every number from `i` on is valid. */
  lemma {:induction false} CheckNone(cipher: seq<nat>, size: nat, i: nat)
    requires i <= |cipher| && Check(cipher, size, Window(cipher, size, i), i).None?
    ensures forall k :: i <= k < |cipher| ==> !Invalid(cipher, size, k)
    decreases |cipher| - i
  {
    if i < |cipher| {
      PushWindow(cipher, size, i);
      assert !Invalid(cipher, size, i);
      CheckNone(cipher, size, i + 1);
    }
  }

  /** `part_1`: the first number `advance` rejects, or `None` where the
      source panics because there is none. */
  method Part1(cipher: seq<nat>, size: nat) returns (r: Option<nat>)
    ensures r == Check(cipher, size, [], 0)
  {
    var cc := new CipherCheck(size);
    for i := 0 to |cipher|
      invariant fresh(cc) && fresh(cc.workingSet)
      invariant cc.preambleSize == size && cc.preamble == Window(cipher, size, i)
      invariant Check(cipher, size, Window(cipher, size, i), i) == Check(cipher, size, [], 0)
    {
      var ok := cc.Advance(cipher[i]);
      if !ok {
        return Some(cipher[i]);
      }
      PushWindow(cipher, size, i);
    }
    return None;
  }

  /** Part 1's answer is the first number, past the preamble, that is not a
      sum of two of the numbers before it. */
  lemma Part1Correct(cipher: seq<nat>, size: nat)
    ensures Check(cipher, size, [], 0).Some? <==> exists k :: 0 <= k < |cipher| && Invalid(cipher, size, k)
    ensures Check(cipher, size, [], 0).Some? ==>
      exists k :: size <= k < |cipher| && Invalid(cipher, size, k) && Check(cipher, size, [], 0).value == cipher[k]
        && forall j :: 0 <= j < k ==> !Invalid(cipher, size, j)
  {
    assert Window(cipher, size, 0) == [];
    if Check(cipher, size, [], 0).Some? {
      CheckFound(cipher, size, 0);
      var k :| 0 <= k < |cipher| && Invalid(cipher, size, k) && Check(cipher, size, [], 0).value == cipher[k]
        && forall j :: 0 <= j < k ==> !Invalid(cipher, size, j);
      assert |Window(cipher, size, k)| >= size;
      assert |Window(cipher, size, k)| == if k >= size then size else k;
    } else {
      CheckNone(cipher, size, 0);
    }
  }

  /** A reported number is one of the numbers. */
  lemma {:induction false} CheckIn(cipher: seq<nat>, size: nat, preamble: seq<nat>, i: nat)
    requires i <= |cipher| && Check(cipher, size, preamble, i).Some?
    ensures exists k :: i <= k < |cipher| && cipher[k] == Check(cipher, size, preamble, i).value
    decreases |cipher| - i
  {
    if IsValidIntended(preamble, size, cipher[i]) {
      CheckIn(cipher, size, Push(preamble, size, cipher[i]), i + 1);
    }
  }

  /** The check as the source performs it, with the as-written `is_valid`. */
  function CheckAsWritten(cipher: seq<nat>, size: nat, preamble: seq<nat>, i: nat): Option<nat>
    requires i <= |cipher|
    decreases |cipher| - i
  {
    if i == |cipher| then None
    else if !ValidAsWritten(preamble, size, cipher[i]) then Some(cipher[i])
    else CheckAsWritten(cipher, size, Push(preamble, size, cipher[i]), i + 1)
  }

  /** `part_1` as written: the first number the as-written `advance` rejects. */
  method Part1AsWritten(cipher: seq<nat>, size: nat) returns (r: Option<nat>)
    ensures r == CheckAsWritten(cipher, size, [], 0)
  {
    var cc := new CipherCheck(size);
    for i := 0 to |cipher|
      invariant fresh(cc) && fresh(cc.workingSet)
      invariant cc.preambleSize == size && cc.preamble == Window(cipher, size, i)
      invariant CheckAsWritten(cipher, size, Window(cipher, size, i), i) == CheckAsWritten(cipher, size, [], 0)
    {
      var ok := cc.AdvanceAsWritten(cipher[i]);
      if !ok {
        return Some(cipher[i]);
      }
      PushWindow(cipher, size, i);
    }
    return None;
  }

  /** The as-written check stops no later than the intended one: since it
      accepts only genuine sums, whenever the intended check reports a
      number, the as-written one reports one too. */
  lemma {:induction false} AsWrittenStopsFirst(cipher: seq<nat>, size: nat, preamble: seq<nat>, i: nat)
    requires i <= |cipher|
    ensures Check(cipher, size, preamble, i).Some? ==> CheckAsWritten(cipher, size, preamble, i).Some?
    decreases |cipher| - i
  {
    if i < |cipher| && ValidAsWritten(preamble, size, cipher[i]) {
      AsWrittenSound(preamble, size, cipher[i]);
      AsWrittenStopsFirst(cipher, size, Push(preamble, size, cipher[i]), i + 1);
    }
  }

  /** A number the as-written check reports is one of the numbers. */
  lemma {:induction false} CheckAsWrittenIn(cipher: seq<nat>, size: nat, preamble: seq<nat>, i: nat)
    requires i <= |cipher| && CheckAsWritten(cipher, size, preamble, i).Some?
    ensures exists k :: i <= k < |cipher| && cipher[k] == CheckAsWritten(cipher, size, preamble, i).value
    decreases |cipher| - i
  {
    if ValidAsWritten(preamble, size, cipher[i]) {
      CheckAsWrittenIn(cipher, size, Push(preamble, size, cipher[i]), i + 1);
    }
  }

  /** On the cipher 5, 3, 4, 7 with a preamble of three the source reports 7,
      although 7 = 3 + 4 and the intended check reports nothing. */
  lemma AsWrittenReportsSum()
    ensures CheckAsWritten([5, 3, 4, 7], 3, [], 0) == Some(7)
    ensures Check([5, 3, 4, 7], 3, [], 0) == None
  {
    var c: seq<nat> := [5, 3, 4, 7];
    AsWrittenMisses();
    assert Push([], 3, 5) == [5];
    assert Push([5], 3, 3) == [5, 3];
    assert Push([5, 3], 3, 4) == [5, 3, 4];
    assert ValidAsWritten([], 3, 5) && ValidAsWritten([5], 3, 3) && ValidAsWritten([5, 3], 3, 4);
    assert CheckAsWritten(c, 3, [5, 3, 4], 3) == Some(7);
    assert IsValidIntended([], 3, 5) && IsValidIntended([5], 3, 3) && IsValidIntended([5, 3], 3, 4);
    assert Push([5, 3, 4], 3, 7) == [3, 4, 7];
    assert Check(c, 3, [3, 4, 7], 4) == None;
    assert Check(c, 3, [5, 3, 4], 3) == None;
  }

  /** A sum of numbers is at least its last one. */
  lemma SumLast(s: seq<nat>)
    requires s != []
    ensures Sum(s) >= s[|s| - 1]
  {
    var init := s[..|s| - 1];
    assert s == init + [s[|s| - 1]];
    SumAppend(init, [s[|s| - 1]]);
    SumNonNegative(init);
  }

  /** The window read newest first holds the same numbers as the run. */
  lemma MinMaxReversed(w: seq<nat>, run: seq<nat>)
    requires |w| == |run| > 0 && forall t :: 0 <= t < |w| ==> w[t] == run[|run| - 1 - t]
    ensures Min(w) == Min(run) && Max(w) == Max(run)
  {
    assert forall t :: 0 <= t < |run| ==> run[t] == w[|w| - 1 - t];
    var lo, hi := Min(run), Max(run);
    assert Min(w) <= lo && Max(w) >= hi;
    assert lo <= Min(w) && hi >= Max(w);
  }

  /** The window of `part_2`: the run `cipher[a..i]` read newest first, and its running sum. */
  predicate WindowState(cipher: seq<nat>, a: nat, i: nat, window: seq<nat>, sum: int)
  {
    && a <= i <= |cipher|
    && sum == Sum(cipher[a..i])
    && |window| == i - a
    && forall t :: 0 <= t < |window| ==> window[t] == cipher[i - 1 - t]
  }

  /** `push_front` of the next number, with `sum += x`. */
  lemma PushFront(cipher: seq<nat>, a: nat, i: nat, window: seq<nat>, sum: int)
    requires WindowState(cipher, a, i, window, sum) && i < |cipher|
    ensures WindowState(cipher, a, i + 1, [cipher[i]] + window, sum + cipher[i])
  {
    SumAppend(cipher[a..i], [cipher[i]]);
    assert cipher[a..i + 1] == cipher[a..i] + [cipher[i]];
  }

  /** `pop_back` of the oldest number, with `sum -= y`. */
  lemma PopBack(cipher: seq<nat>, a: nat, i: nat, window: seq<nat>, sum: int)
    requires WindowState(cipher, a, i, window, sum) && window != []
    ensures window[|window| - 1] == cipher[a]
    ensures WindowState(cipher, a + 1, i, window[..|window| - 1], sum - cipher[a])
  {
    assert cipher[a..i] == [cipher[a]] + cipher[a + 1..i];
  }

  /** A window holding position `k` sums to at least `cipher[k]`, so with
      the newest number `k` a single-number window cannot exceed it. */
  lemma NewestBound(cipher: seq<nat>, a: nat, i: nat, window: seq<nat>, sum: int)
    requires WindowState(cipher, a, i, window, sum) && a < i
    ensures sum >= cipher[i - 1]
    ensures a == i - 1 ==> sum == cipher[i - 1]
  {
    SumLast(cipher[a..i]);
    if a == i - 1 {
      assert cipher[a..i] == [cipher[a]];
    }
  }

  /** A run's sum splits at any point inside it. */
  lemma SumSplit(c: seq<nat>, s: nat, m: nat, e: nat)
    requires s <= m <= e <= |c|
    ensures Sum(c[s..e]) == Sum(c[s..m]) + Sum(c[m..e])
  {
    assert c[s..e] == c[s..m] + c[m..e];
    SumAppend(c[s..m], c[m..e]);
  }

  /** Over natural numbers, a run sums to at least any run inside it. */
  lemma SumInside(c: seq<nat>, s: nat, s': nat, e': nat, e: nat)
    requires s <= s' <= e' <= e <= |c|
    ensures Sum(c[s'..e']) <= Sum(c[s..e])
  {
    SumSplit(c, s, s', e);
    SumSplit(c, s', e', e);
    SumNonNegative(c[s..s']);
    SumNonNegative(c[e'..e]);
  }

  /** The sum of the run `c[s..e]`, as a function of its ends. */
  function RunSum(c: seq<nat>, s: nat, e: nat): int
  {
    if s <= e <= |c| then Sum(c[s..e]) else 0
  }

  /** Where the window loop of `part_2` stops for the goal: after reading
      `b` numbers, the first count at which some run ending there sums to the
      goal, with `a` the least start of such a run. The window then holds
      `cipher[a..b]`, which is empty only when the goal is 0. */
  ghost predicate StopsAt(cipher: seq<nat>, goal: nat, a: nat, b: nat)
  {
    && 1 <= b <= |cipher| && a <= b
    && Sum(cipher[a..b]) == goal
    && (forall e: nat, s: nat :: 1 <= e < b && s <= e ==> RunSum(cipher, s, e) != goal)
    && (forall s: nat :: s < a ==> RunSum(cipher, s, b) != goal)
  }

  /** The stopping window is determined by the numbers and the goal. */
  lemma StopsAtUnique(cipher: seq<nat>, goal: nat, a: nat, b: nat, a': nat, b': nat)
    requires StopsAt(cipher, goal, a, b) && StopsAt(cipher, goal, a', b')
    ensures a == a' && b == b'
  {
    assert RunSum(cipher, a, b) == goal && RunSum(cipher, a', b') == goal;
    assert b == b';
    assert RunSum(cipher, a', b) == goal;
  }

  /** The inner loop of `part_2`: `pop_back` of the oldest number while the
      running sum is above the goal. Every start dropped gives a run above
      the goal, and the position `k` of the goal stays in the window. */
  method Shrink(cipher: seq<nat>, goal: nat, ghost a: nat, i: nat, window: seq<nat>, sum: int, ghost k: nat)
    returns (ghost a': nat, window': seq<nat>, sum': int)
    requires WindowState(cipher, a, i, window, sum)
    requires k < |cipher| && cipher[k] == goal && (i - 1 == k ==> a <= k)
    requires forall s: nat :: s < a ==> RunSum(cipher, s, i) > goal
    ensures WindowState(cipher, a', i, window', sum') && sum' <= goal && a <= a'
    ensures i - 1 == k ==> a' <= k
    ensures forall s: nat :: s < a' ==> RunSum(cipher, s, i) > goal
  {
    a', window', sum' := a, window, sum;
    while sum' > goal
      invariant WindowState(cipher, a', i, window', sum') && a <= a'
      invariant i - 1 == k ==> a' <= k
      invariant forall s: nat :: s < a' ==> RunSum(cipher, s, i) > goal
      decreases |window'|
    {
      if window' != [] {
        if i - 1 == k {
          NewestBound(cipher, a', i, window', sum');
        }
        var y := window'[|window'| - 1];
        PopBack(cipher, a', i, window', sum');
        window' := window'[..|window'| - 1];
        sum' := sum' - y;
        a' := a' + 1;
      }
    }
  }

  /** The window loop of `part_2` for the goal `goal`: a window over the
      numbers, newest at the front, growing by one number and shrinking from
      the oldest while its running sum is above the goal, until the sum meets
      it. The answer is the window's smallest plus largest number; `None`
      where the source's `unwrap` panics on an empty window. The goal is
      part 1's answer, always one of the numbers. */
  method Part2From(cipher: seq<nat>, goal: nat) returns (r: Option<nat>)
    requires goal in cipher
    ensures exists a: nat, b: nat :: (StopsAt(cipher, goal, a, b) && (r.Some? <==> a < b)
      && (r.Some? ==> a < b && r.value == Min(cipher[a..b]) + Max(cipher[a..b])))
    ensures goal > 0 ==> r.Some?
  {
    ghost var k :| 0 <= k < |cipher| && cipher[k] == goal;
    var window: seq<nat> := [];
    var sum: int := 0;
    ghost var a: nat := 0;
    var i := 0;
    var done := false;
    while i < |cipher| && !done
      invariant WindowState(cipher, a, i, window, sum)
      invariant sum <= goal
      invariant forall s: nat :: s < a ==> RunSum(cipher, s, i) > goal
      invariant !done ==> forall e: nat, s: nat :: 1 <= e <= i && s <= e ==> RunSum(cipher, s, e) != goal
      invariant done ==> StopsAt(cipher, goal, a, i)
      invariant !done ==> i <= k
      decreases |cipher| - i
    {
      var x := cipher[i];
      PushFront(cipher, a, i, window, sum);
      ghost var j := i + 1;
      forall s: nat | s < a ensures RunSum(cipher, s, j) > goal {
        assert RunSum(cipher, s, i) > goal;
        SumInside(cipher, s, s, i, j);
      }
      sum := sum + x;
      window := [x] + window;
      i := i + 1;
      a, window, sum := Shrink(cipher, goal, a, i, window, sum, k);
      if i - 1 == k {
        NewestBound(cipher, a, i, window, sum);
      }
      if sum == goal {
        done := true;
      } else {
        forall s: nat | a <= s <= i ensures RunSum(cipher, s, i) < goal {
          SumInside(cipher, a, s, i, i);
        }
      }
    }
    assert done;
    assert StopsAt(cipher, goal, a, i);
    if window == [] {
      return None;
    }
    MinMaxReversed(window, cipher[a..i]);
    r := Some(Min(window) + Max(window));
  }

  /** `part_2` over the intended part 1: `None` also where part 1 finds
      nothing (the source panics there). */
  method Part2(cipher: seq<nat>, size: nat) returns (r: Option<nat>)
    ensures r.Some? ==> Check(cipher, size, [], 0).Some?
    ensures Check(cipher, size, [], 0).Some? ==> exists a: nat, b: nat ::
      (StopsAt(cipher, Check(cipher, size, [], 0).value, a, b) && (r.Some? <==> a < b)
       && (r.Some? ==> a < b && r.value == Min(cipher[a..b]) + Max(cipher[a..b])))
    ensures Check(cipher, size, [], 0).Some? && Check(cipher, size, [], 0).value > 0 ==> r.Some?
  {
    var part1 := Part1(cipher, size);
    if part1.None? {
      return None;
    }
    CheckIn(cipher, size, [], 0);
    r := Part2From(cipher, part1.value);
  }

  /** `part_2` as written, over the as-written part 1. */
  method Part2AsWritten(cipher: seq<nat>, size: nat) returns (r: Option<nat>)
    ensures r.Some? ==> CheckAsWritten(cipher, size, [], 0).Some?
    ensures CheckAsWritten(cipher, size, [], 0).Some? ==> exists a: nat, b: nat ::
      (StopsAt(cipher, CheckAsWritten(cipher, size, [], 0).value, a, b) && (r.Some? <==> a < b)
       && (r.Some? ==> a < b && r.value == Min(cipher[a..b]) + Max(cipher[a..b])))
    ensures CheckAsWritten(cipher, size, [], 0).Some? && CheckAsWritten(cipher, size, [], 0).value > 0 ==> r.Some?
  {
    var part1 := Part1AsWritten(cipher, size);
    if part1.None? {
      return None;
    }
    CheckAsWrittenIn(cipher, size, [], 0);
    r := Part2From(cipher, part1.value);
  }

  const Example: seq<nat> := [35, 20, 15, 25, 47, 40, 62, 55, 65, 95, 102, 117, 150, 182, 127, 219, 299, 277, 309, 576]

  /** A number past the preamble with a witnessing pair in its window is valid. */
  lemma ExampleValid(j: nat, p: nat, q: nat)
    requires 5 <= j < |Example| && p < q < 5
    requires Example[j - 5 + p] < Example[j] && Example[j - 5 + q] < Example[j] && Example[j - 5 + p] + Example[j - 5 + q] == Example[j]
    ensures !Invalid(Example, 5, j)
  {
    var w := Window(Example, 5, j);
    assert w[p] == Example[j - 5 + p] && w[q] == Example[j - 5 + q];
  }

  /** 127 is not a sum of two of 95, 102, 117, 150 and 182. */
  lemma ExampleInvalid()
    ensures Invalid(Example, 5, 14)
  {
    var w := Window(Example, 5, 14);
    assert w == [95, 102, 117, 150, 182];
    forall t | 0 <= t < 5 ensures w[t] >= 95 {
      if t == 0 {} else if t == 1 {} else if t == 2 {} else if t == 3 {} else {}
    }
  }

  /** Every number of the example before 127 is valid: within the preamble,
      or a sum of two of the five before it (40 = 15 + 25, 62 = 15 + 47, ...). */
  lemma ExampleBefore()
    ensures forall j :: 0 <= j < 14 ==> !Invalid(Example, 5, j)
  {
    ExamplePreamble();
    forall j | 5 <= j < 14 ensures !Invalid(Example, 5, j) {
      if j < 10 {
        ExampleValidLow(j);
      } else {
        ExampleValidHigh(j);
      }
    }
  }

  lemma ExampleValidLow(j: nat)
    requires 5 <= j < 10
    ensures !Invalid(Example, 5, j)
  {
    if j == 5 {
      ExampleValid(j, 2, 3);
    } else if j == 6 {
      ExampleValid(j, 1, 3);
    } else if j == 7 {
      ExampleValid(j, 0, 3);
    } else if j == 8 {
      ExampleValid(j, 0, 2);
    } else {
      ExampleValid(j, 1, 3);
    }
  }

  lemma ExampleValidHigh(j: nat)
    requires 10 <= j < 14
    ensures !Invalid(Example, 5, j)
  {
    if j == 10 || j == 11 {
      ExampleValid(j, 0, 1);
    } else if j == 12 {
      ExampleValid(j, 0, 2);
    } else {
      ExampleValid(j, 0, 3);
    }
  }

  /** The preamble of five numbers. */
  lemma ExamplePreamble()
    ensures forall j :: 0 <= j < 5 ==> !Invalid(Example, 5, j)
  {
    forall j | 0 <= j < 5 ensures !Invalid(Example, 5, j) {
      assert |Window(Example, 5, j)| < 5;
    }
  }

  /** On the example with a preamble of five, part 1 reports 127. */
  lemma ExamplePart1()
    ensures Check(Example, 5, [], 0) == Some(127)
  {
    ExampleBefore();
    ExampleInvalid();
    Part1Correct(Example, 5);
    assert Check(Example, 5, [], 0).Some?;
    var k :| 5 <= k < |Example| && Invalid(Example, 5, k) && Check(Example, 5, [], 0).value == Example[k]
      && forall j :: 0 <= j < k ==> !Invalid(Example, 5, j);
  }

  /** The runs of the example ending before its sixth number all sum to
      something other than 127: those within the first four numbers reach
      at most 95, and those ending at the fifth are 142 or at most 107. */
  lemma ExampleEarlyRuns()
    ensures forall e: nat, s: nat :: 1 <= e < 6 && s <= e ==> RunSum(Example, s, e) != 127
  {
    var c := Example;
    assert c[0..4] == [35, 20, 15, 25];
    assert Sum([35, 20, 15, 25]) == 95;
    SumSplit(c, 0, 4, 5);
    assert c[4..5] == [47];
    assert Sum(c[0..5]) == 142;
    SumSplit(c, 0, 1, 5);
    assert c[0..1] == [35];
    assert Sum(c[1..5]) == 107;
    forall e: nat, s: nat | 1 <= e < 6 && s <= e ensures RunSum(c, s, e) != 127 {
      if e <= 4 {
        SumInside(c, 0, s, e, 4);
        assert RunSum(c, s, e) <= 95;
      } else if s > 0 {
        SumInside(c, 1, s, e, 5);
        assert RunSum(c, s, e) <= 107;
      } else {
        assert RunSum(c, s, e) == 142;
      }
    }
  }

  /** On the example, the window loop for 127 stops after six numbers with
      the run 15, 25, 47, 40. */
  lemma ExampleStops()
    ensures StopsAt(Example, 127, 2, 6)
  {
    ExampleEarlyRuns();
    assert Example[2..6] == [15, 25, 47, 40];
    assert Example[0..6] == [35, 20, 15, 25, 47, 40];
    assert Example[1..6] == [20, 15, 25, 47, 40];
    assert RunSum(Example, 0, 6) == 182 && RunSum(Example, 1, 6) == 147;
  }

  /** Part 2 of the example: wherever the window loop for 127 stops, the
      answer is 15 + 47 = 62. */
  lemma ExamplePart2(a: nat, b: nat)
    requires StopsAt(Example, 127, a, b)
    ensures a < b && Min(Example[a..b]) + Max(Example[a..b]) == 62
  {
    ExampleStops();
    StopsAtUnique(Example, 127, a, b, 2, 6);
    var w := Example[2..6];
    assert w == [15, 25, 47, 40];
    assert Min(w) == 15 && Max(w) == 47;
  }
}
