/** Day 14: a docking program writing 36-bit values to memory under a mask.
    A mask is a string of '0', '1' and 'X', most significant bit first. In the
    first version the mask rewrites the stored value; in the second it rewrites
    the address, an 'X' standing for both bit values, so one write fills
    2^(number of 'X') cells. Memory is a `HashMap<usize, usize>`, a `map` here;
    each answer is the sum of the values in memory. */
module Day14 {
  import opened Text
  import opened Seqs
  import opened Bits
  import opened Folds

  /** One more than the largest `usize` on a 64-bit target. */
  const Word: nat := 0x1_0000_0000_0000_0000

  lemma WordIsPow2()
    ensures Pow2(64) == Word
  {
    assert Pow2(8) == 256;
    assert Pow2(16) == 256 * Pow2(8) by { Pow2Add(8, 8); }
    assert Pow2(32) == Pow2(16) * Pow2(16) by { Pow2Add(16, 16); }
    assert Pow2(64) == Pow2(32) * Pow2(32) by { Pow2Add(32, 32); }
  }

  /** `str::parse::<usize>`: a number that fits the word. */
  function ParseUsize(s: string): (r: Option<nat>)
    ensures r.Some? <==> ParseNat(s).Some? && ParseNat(s).value < Word
    ensures r.Some? ==> r == ParseNat(s)
  {
    match ParseNat(s)
    case None => None
    case Some(n) => if n < Word then Some(n) else None
  }

  datatype Instr = Write(addr: nat, value: nat) | Mask(mask: string)

  /** `Instr::parse`: `mask = <bytes>` or `mem[<addr>] = <value>`; every
      `unwrap` that would panic gives `None`. The mask's bytes are not
      checked here: a byte other than '0', '1' or 'X' panics when the mask is
      decoded. */
  function ParseInstr(line: string): (r: Option<Instr>)
    ensures r.Some? && r.value.Mask? ==> SplitOnce(line, " = ") == Some(("mask", r.value.mask))
    ensures r.Some? && r.value.Write? ==> r.value.addr < Word && r.value.value < Word
  {
    match SplitOnce(line, " = ")
    case None => None
    case Some((target, payload)) =>
      if target == "mask" then Some(Mask(payload))
      else if |target| >= 5 && target[..4] == "mem[" && target[|target| - 1] == ']' then
        match ParseUsize(target[4..|target| - 1])
        case None => None
        case Some(addr) =>
          match ParseUsize(payload)
          case None => None
          case Some(value) => Some(Write(addr, value))
      else None
  }

  /** The line an instruction is written as. */
  function ShowInstr(instr: Instr): string
  {
    match instr
    case Mask(mask) => "mask = " + mask
    case Write(addr, value) => "mem[" + ShowNat(addr) + "] = " + ShowNat(value)
  }

  /** Every instruction whose numbers fit the word reads back from its line. */
  lemma ParseShowInstr(instr: Instr)
    requires instr.Write? ==> instr.addr < Word && instr.value < Word
    ensures ParseInstr(ShowInstr(instr)) == Some(instr)
  {
    match instr
    case Mask(mask) =>
      assert "mask = " + mask == "mask" + " = " + mask;
      SplitOnceAt("mask", " = ", mask);
    case Write(addr, value) => ParseShowWrite(addr, value);
  }

  lemma ParseShowWrite(addr: nat, value: nat)
    requires addr < Word && value < Word
    ensures ParseInstr(ShowInstr(Write(addr, value))) == Some(Write(addr, value))
  {
    var digits := ShowNat(addr);
    var target := "mem[" + digits + "]";
    TargetSplit(digits, ShowNat(value));
    assert ShowInstr(Write(addr, value)) == target + " = " + ShowNat(value);
    ParseShowNat(addr);
    ParseShowNat(value);
    assert target[4..|target| - 1] == digits;
  }

  /** The text before " = " in a write is `mem[<digits>]`. */
  lemma TargetSplit(digits: string, payload: string)
    requires AllDigits(digits)
    ensures var target := "mem[" + digits + "]";
      SplitOnce(target + " = " + payload, " = ") == Some((target, payload)) &&
      target != "mask" && |target| >= 5 && target[..4] == "mem[" && target[|target| - 1] == ']'
  {
    var target := "mem[" + digits + "]";
    assert ' ' !in target by {
      forall j | 0 <= j < |target| ensures target[j] != ' ' {
        if 4 <= j < |target| - 1 {
          assert target[j] == digits[j - 4];
        }
      }
    }
    SplitOnceAt(target, " = ", payload);
    assert target[4] != 'k' by {
      if |digits| > 0 {
        assert target[4] == digits[0];
      }
    }
  }

  /** `parse`: one instruction per line. */
  function Parse(lines: seq<string>): (r: Option<seq<Instr>>)
    ensures r.Some? ==> |r.value| == |lines| && forall i :: 0 <= i < |lines| ==> ParseInstr(lines[i]) == Some(r.value[i])
    ensures r.None? <==> exists i :: 0 <= i < |lines| && ParseInstr(lines[i]).None?
  {
    ParseEach(lines, ParseInstr)
  }

  predicate IsMaskByte(c: char) { c == '0' || c == '1' || c == 'X' }

  /** The masks the decoders accept; any other byte is `unreachable!()`. */
  predicate ValidMask(mask: string)
  {
    forall i :: 0 <= i < |mask| ==> IsMaskByte(mask[i])
  }

  /** All masks of a program are decodable. */
  predicate ValidProgram(instrs: seq<Instr>)
  {
    forall i :: 0 <= i < |instrs| ==> instrs[i].Mask? ==> ValidMask(instrs[i].mask)
  }

  /** `x <<= 1` on a `usize`: the top bit is shifted out. */
  function Shl1(x: nat): nat
  {
    (2 * x) % Word
  }

  /* ---------------- Version 1: the mask rewrites values ---------------- */

  /** The `or` mask `decode_mask` builds: shift in a 1 for each '1'. */
  function OrOf(mask: string): nat
  {
    if mask == [] then 0
    else Or(Shl1(OrOf(mask[..|mask| - 1])), if mask[|mask| - 1] == '1' then 1 else 0)
  }

  /** The `and` mask `decode_mask` builds: shift in a 1 for each '1' or 'X'. */
  function AndOf(mask: string): nat
  {
    if mask == [] then 0
    else
      var c := mask[|mask| - 1];
      Or(Shl1(AndOf(mask[..|mask| - 1])), if c == '1' || c == 'X' then 1 else 0)
  }

  /** The effect of a mask on a value, bit by bit from the lowest: the last
      byte of the mask decides bit 0, a '1' sets the bit, a '0' clears it, an
      'X' keeps the value's bit, and no bit above the mask survives. */
  function Apply(mask: string, v: nat): (r: nat)
    ensures r < Pow2(|mask|)
  {
    if mask == [] then 0
    else
      var c := mask[|mask| - 1];
      2 * Apply(mask[..|mask| - 1], v / 2) + (if c == '1' then 1 else if c == 'X' then v % 2 else 0)
  }

  /** Bit `k` of a masked value, counting the mask's bytes from its end. */
  lemma {:induction false} ApplyBit(mask: string, v: nat, k: nat)
    ensures Bit(Apply(mask, v), k) <==> (k < |mask| &&
      (mask[|mask| - 1 - k] == '1' || (mask[|mask| - 1 - k] == 'X' && Bit(v, k))))
    decreases k
  {
    if mask == [] {
      ZeroBit(k);
    } else {
      var n := |mask| - 1;
      var init := mask[..n];
      var c := mask[n];
      var b := if c == '1' then 1 else if c == 'X' then v % 2 else 0;
      assert (2 * Apply(init, v / 2) + b) / 2 == Apply(init, v / 2);
      assert (2 * Apply(init, v / 2) + b) % 2 == b;
      if k > 0 {
        ApplyBit(init, v / 2, k - 1);
        if k - 1 < |init| {
          assert init[|init| - 1 - (k - 1)] == mask[|mask| - 1 - k];
        }
      }
    }
  }

  /** Both masks of a decoded mask fit in its length. */
  lemma {:induction false} MaskBounds(mask: string)
    requires |mask| <= 64
    ensures OrOf(mask) < Pow2(|mask|) && AndOf(mask) < Pow2(|mask|)
  {
    if mask != [] {
      var init := mask[..|mask| - 1];
      MaskBounds(init);
      NoWrap(OrOf(init), |init|);
      NoWrap(AndOf(init), |init|);
    }
  }

  /** Below 2^63 nothing is shifted out, and or-ing in a low bit adds it. */
  lemma NoWrap(x: nat, m: nat)
    requires m < 64 && x < Pow2(m)
    ensures Shl1(x) == 2 * x
    ensures Or(2 * x, 0) == 2 * x && Or(2 * x, 1) == 2 * x + 1
    ensures 2 * x + 1 < Pow2(m + 1)
  {
    Pow2Mono(m, 63);
    WordIsPow2();
    OrStep(2 * x, 1);
    assert (2 * x) / 2 == x && (2 * x) % 2 == 0;
    OrStep(2 * x, 0);
  }

  /** One low bit of `(v | or) & and`. */
  lemma MaskBit(v: nat, o: nat, a: nat, ob: nat, ab: nat)
    requires ob < 2 && ab < 2
    ensures And(Or(v, 2 * o + ob), 2 * a + ab) == 2 * And(Or(v / 2, o), a) + (if (v % 2 == 1 || ob == 1) && ab == 1 then 1 else 0)
  {
    assert (2 * o + ob) / 2 == o && (2 * o + ob) % 2 == ob;
    assert (2 * a + ab) / 2 == a && (2 * a + ab) % 2 == ab;
    OrStep(v, 2 * o + ob);
    var x := Or(v, 2 * o + ob);
    var xb := if v % 2 == 1 || ob == 1 then 1 else 0;
    assert x / 2 == Or(v / 2, o) && x % 2 == xb;
    AndStep(x, 2 * a + ab);
  }

  /** `(v | or) & and` with the decoded masks is `Apply`: the meaning of a
      version 1 write, for masks of up to 64 bytes. */
  lemma {:induction false} MaskedValue(mask: string, v: nat)
    requires |mask| <= 64
    ensures And(Or(v, OrOf(mask)), AndOf(mask)) == Apply(mask, v)
  {
    if mask != [] {
      var n := |mask| - 1;
      var init := mask[..n];
      var c := mask[n];
      MaskedValue(init, v / 2);
      MaskBounds(init);
      NoWrap(OrOf(init), n);
      NoWrap(AndOf(init), n);
      var ob := if c == '1' then 1 else 0;
      var ab := if c == '1' || c == 'X' then 1 else 0;
      assert mask[..|mask| - 1] == init;
      assert OrOf(mask) == 2 * OrOf(init) + ob;
      assert AndOf(mask) == 2 * AndOf(init) + ab;
      var b := if c == '1' then 1 else if c == 'X' then v % 2 else 0;
      assert Apply(mask, v) == 2 * Apply(init, v / 2) + b;
      MaskStep(v, OrOf(init), AndOf(init), ob, ab, Apply(init, v / 2), OrOf(mask), AndOf(mask));
    } else {
      assert Or(v, 0) == v;
    }
  }

  /** The masks one byte longer act on one more low bit. */
  lemma MaskStep(v: nat, o: nat, a: nat, ob: nat, ab: nat, r: nat, o': nat, a': nat)
    requires ob < 2 && ab < 2 && And(Or(v / 2, o), a) == r
    requires o' == 2 * o + ob && a' == 2 * a + ab
    ensures And(Or(v, o'), a') == 2 * r + (if (v % 2 == 1 || ob == 1) && ab == 1 then 1 else 0)
  {
    MaskBit(v, o, a, ob, ab);
  }

  /** Before any mask, `and` is `usize::MAX` and `or` is 0: a write stores its value unchanged. */
  lemma UnmaskedValue(v: nat)
    requires v < Word
    ensures And(Or(v, 0), Word - 1) == v
  {
    WordIsPow2();
    AndOnes(v, 64);
  }

  /** The state of `State1`, as the specification of its methods. */
  datatype Machine1 = Machine1(mem: map<nat, nat>, andMask: nat, orMask: nat)

  const Init1: Machine1 := Machine1(map[], Word - 1, 0)

  /** `State1::step`. */
  function Step1(m: Machine1, instr: Instr): Machine1
  {
    match instr
    case Mask(mask) => Machine1(m.mem, AndOf(mask), OrOf(mask))
    case Write(addr, value) => m.(mem := m.mem[addr := And(Or(value, m.orMask), m.andMask)])
  }

  /** `State1::run`. */
  function Run1(m: Machine1, instrs: seq<Instr>): Machine1
  {
    if instrs == [] then m else Step1(Run1(m, instrs[..|instrs| - 1]), instrs[|instrs| - 1])
  }

  /** The mask in force after a program: its last `Mask`, if any. */
  function LastMask(instrs: seq<Instr>): (r: Option<string>)
    ensures r.Some? ==> exists i :: 0 <= i < |instrs| && instrs[i] == Mask(r.value)
  {
    if instrs == [] then None
    else if instrs[|instrs| - 1].Mask? then Some(instrs[|instrs| - 1].mask)
    else LastMask(instrs[..|instrs| - 1])
  }

  /** Running a program leaves the masks of its last `Mask`, or the initial
      masks when it has none. */
  lemma {:induction false} Run1Masks(instrs: seq<Instr>)
    ensures var m := Run1(Init1, instrs);
      match LastMask(instrs)
      case None => m.andMask == Word - 1 && m.orMask == 0
      case Some(mask) => m.andMask == AndOf(mask) && m.orMask == OrOf(mask)
  {
    if instrs != [] {
      Run1Masks(instrs[..|instrs| - 1]);
    }
  }

  /** A version 1 write changes only its own cell, which then holds the value
      as the mask in force rewrites it (the value itself before any mask). */
  lemma Run1Write(instrs: seq<Instr>, addr: nat, value: nat)
    requires value < Word
    requires LastMask(instrs).Some? ==> |LastMask(instrs).value| <= 64
    ensures var before := Run1(Init1, instrs).mem;
      var after := Run1(Init1, instrs + [Write(addr, value)]).mem;
      after.Keys == before.Keys + {addr} &&
      (forall k :: k in before && k != addr ==> after[k] == before[k]) &&
      after[addr] == match LastMask(instrs) case None => value case Some(mask) => Apply(mask, value)
  {
    var all := instrs + [Write(addr, value)];
    assert all[..|all| - 1] == instrs;
    Run1Masks(instrs);
    match LastMask(instrs)
    case None => UnmaskedValue(value);
    case Some(mask) => MaskedValue(mask, value);
  }

  class State1 {
    var mem: map<nat, nat>
    var andMask: nat
    var orMask: nat

    function State(): Machine1
      reads this
    {
      Machine1(mem, andMask, orMask)
    }

    /** `State1::new`: empty memory, `and` = `usize::MAX`, `or` = 0. */
    constructor()
      ensures State() == Init1
    {
      mem := map[];
      andMask := Word - 1;
      orMask := 0;
    }

    /** `decode_mask`: both masks rebuilt from 0, one shifted-in bit per byte. */
    method DecodeMask(mask: string)
      requires ValidMask(mask)
      modifies this
      ensures andMask == AndOf(mask) && orMask == OrOf(mask) && mem == old(mem)
    {
      andMask := 0;
      orMask := 0;
      for i := 0 to |mask|
        invariant andMask == AndOf(mask[..i]) && orMask == OrOf(mask[..i]) && mem == old(mem)
      {
        assert mask[..i + 1][..i] == mask[..i];
        andMask := Shl1(andMask);
        orMask := Shl1(orMask);
        if mask[i] == '1' {
          orMask := Or(orMask, 1);
          andMask := Or(andMask, 1);
        } else if mask[i] == '0' {
          andMask := Or(andMask, 0);
          orMask := Or(orMask, 0);
        } else {
          andMask := Or(andMask, 1);
          orMask := Or(orMask, 0);
        }
      }
      assert mask[..|mask|] == mask;
    }

    method Step(instr: Instr)
      requires instr.Mask? ==> ValidMask(instr.mask)
      modifies this
      ensures State() == Step1(old(State()), instr)
    {
      match instr
      case Mask(mask) => DecodeMask(mask);
      case Write(addr, value) =>
        var v := Or(value, orMask);
        v := And(v, andMask);
        mem := mem[addr := v];
    }

    method Run(instrs: seq<Instr>)
      requires ValidProgram(instrs)
      modifies this
      ensures State() == Run1(old(State()), instrs)
    {
      for i := 0 to |instrs|
        invariant State() == Run1(old(State()), instrs[..i])
      {
        assert instrs[..i + 1][..i] == instrs[..i];
        Step(instrs[i]);
      }
      assert instrs[..|instrs|] == instrs;
    }
  }

  /** `part_1`: the sum of memory after running the program. The sum is
      unbounded here; the source's `usize` sum would overflow only on
      programs far larger than the puzzle's. */
  method Part1(instrs: seq<Instr>) returns (r: nat)
    requires ValidProgram(instrs)
    ensures r == ValueSum(Run1(Init1, instrs).mem)
  {
    var state := new State1();
    state.Run(instrs);
    r := SumValues(state.mem);
  }

  /* ---------------- Version 2: the mask rewrites addresses ---------------- */

  /** Each pair of `State2::masks` is (`or`, `and`). */
  function Shifted(ms: seq<(nat, nat)>): (r: seq<(nat, nat)>)
    ensures |r| == |ms|
  {
    seq(|ms|, i requires 0 <= i < |ms| => (Shl1(ms[i].0), Shl1(ms[i].1)))
  }

  function OrAll(ms: seq<(nat, nat)>, o: nat, a: nat): (r: seq<(nat, nat)>)
    ensures |r| == |ms|
  {
    seq(|ms|, i requires 0 <= i < |ms| => (Or(ms[i].0, o), Or(ms[i].1, a)))
  }

  /** The pairs `decode_masks` builds: all pairs are shifted for each byte; a
      '1' sets both low bits, a '0' sets the `and` bit, and an 'X' keeps the
      pairs with both bits clear and appends copies with both bits set. */
  function Pairs(mask: string): seq<(nat, nat)>
  {
    if mask == [] then [(0, 0)]
    else
      var s := Shifted(Pairs(mask[..|mask| - 1]));
      var c := mask[|mask| - 1];
      if c == '1' then OrAll(s, 1, 1)
      else if c == '0' then OrAll(s, 0, 1)
      else
        var low := OrAll(s, 0, 0);
        low + OrAll(low, 1, 1)
  }

  /** `(addr & and) | or` */
  function Address(addr: nat, pair: (nat, nat)): nat
  {
    Or(And(addr, pair.1), pair.0)
  }

  function Addresses(ms: seq<(nat, nat)>, addr: nat): (r: seq<nat>)
    ensures |r| == |ms|
  {
    seq(|ms|, i requires 0 <= i < |ms| => Address(addr, ms[i]))
  }

  /** The addresses a mask makes of `addr`, bit by bit from the lowest: a '1'
      sets the bit, a '0' keeps the address's bit, an 'X' allows either, and
      no bit above the mask is set. */
  predicate Floats(mask: string, addr: nat, x: nat)
  {
    if mask == [] then x == 0
    else
      var c := mask[|mask| - 1];
      Floats(mask[..|mask| - 1], addr / 2, x / 2) && (c == '1' ==> x % 2 == 1) && (c == '0' ==> x % 2 == addr % 2)
  }

  /** A mask with `n` floating bits decodes into 2^n pairs. */
  lemma {:induction false} PairsCount(mask: string)
    requires ValidMask(mask)
    ensures |Pairs(mask)| == Pow2(Count(mask, 'X'))
  {
    if mask != [] {
      var init := mask[..|mask| - 1];
      assert mask == init + [mask[|mask| - 1]];
      PairsCount(init);
    }
  }

  /** Both halves of every pair fit in the mask's length. */
  lemma {:induction false} PairsBound(mask: string)
    requires |mask| <= 64
    ensures forall i :: 0 <= i < |Pairs(mask)| ==> Pairs(mask)[i].0 < Pow2(|mask|) && Pairs(mask)[i].1 < Pow2(|mask|)
  {
    if mask != [] {
      var init := mask[..|mask| - 1];
      PairsBound(init);
      var p := Pairs(init);
      forall i | 0 <= i < |p| ensures 2 * p[i].0 + 1 < Pow2(|mask|) && 2 * p[i].1 + 1 < Pow2(|mask|) {
        NoWrap(p[i].0, |init|);
        NoWrap(p[i].1, |init|);
      }
      forall i | 0 <= i < |p| ensures Shl1(p[i].0) == 2 * p[i].0 && Shl1(p[i].1) == 2 * p[i].1 {
        NoWrap(p[i].0, |init|);
        NoWrap(p[i].1, |init|);
      }
      forall i | 0 <= i < |p| ensures Or(2 * p[i].0, 0) == 2 * p[i].0 && Or(2 * p[i].0, 1) == 2 * p[i].0 + 1 {
        NoWrap(p[i].0, |init|);
      }
      forall i | 0 <= i < |p| ensures Or(2 * p[i].1, 0) == 2 * p[i].1 && Or(2 * p[i].1, 1) == 2 * p[i].1 + 1 {
        NoWrap(p[i].1, |init|);
      }
    }
  }

  /** The pairs of a mask one byte longer by a '0' or a '1': each pair
      doubled, with the byte's low bits. */
  lemma PairsFixed(p: string, c: char)
    requires |p| < 64 && (c == '0' || c == '1')
    ensures |Pairs(p + [c])| == |Pairs(p)|
    ensures forall i :: 0 <= i < |Pairs(p)| ==>
      Pairs(p + [c])[i] == (2 * Pairs(p)[i].0 + (if c == '1' then 1 else 0), 2 * Pairs(p)[i].1 + 1)
  {
    var mask := p + [c];
    assert mask[..|p|] == p;
    var ps := Pairs(p);
    PairsBound(p);
    forall i | 0 <= i < |ps|
      ensures Shl1(ps[i].0) == 2 * ps[i].0 && Shl1(ps[i].1) == 2 * ps[i].1
      ensures Or(2 * ps[i].0, 0) == 2 * ps[i].0 && Or(2 * ps[i].0, 1) == 2 * ps[i].0 + 1
      ensures Or(2 * ps[i].1, 1) == 2 * ps[i].1 + 1
    {
      NoWrap(ps[i].0, |p|);
      NoWrap(ps[i].1, |p|);
    }
  }

  /** The pairs of a mask one byte longer by an 'X': each pair doubled, first
      all with both low bits clear, then all with both set. */
  lemma PairsX(p: string)
    requires |p| < 64
    ensures |Pairs(p + ['X'])| == 2 * |Pairs(p)|
    ensures forall i :: 0 <= i < |Pairs(p)| ==>
      Pairs(p + ['X'])[i] == (2 * Pairs(p)[i].0, 2 * Pairs(p)[i].1) &&
      Pairs(p + ['X'])[|Pairs(p)| + i] == (2 * Pairs(p)[i].0 + 1, 2 * Pairs(p)[i].1 + 1)
  {
    var mask := p + ['X'];
    assert mask[..|p|] == p;
    var ps := Pairs(p);
    var low := OrAll(Shifted(ps), 0, 0);
    assert Pairs(mask) == low + OrAll(low, 1, 1);
    PairsBound(p);
    ShiftedHalves(ps, |p|);
  }

  /** The pairs an 'X' makes of pairs that fit in `m` bits. */
  lemma ShiftedHalves(ps: seq<(nat, nat)>, m: nat)
    requires m < 64
    requires forall i :: 0 <= i < |ps| ==> ps[i].0 < Pow2(m) && ps[i].1 < Pow2(m)
    ensures var low := OrAll(Shifted(ps), 0, 0);
      var qs := low + OrAll(low, 1, 1);
      |qs| == 2 * |ps| &&
      forall i :: 0 <= i < |ps| ==> qs[i] == (2 * ps[i].0, 2 * ps[i].1) && qs[|ps| + i] == (2 * ps[i].0 + 1, 2 * ps[i].1 + 1)
  {
    forall i | 0 <= i < |ps|
      ensures Shl1(ps[i].0) == 2 * ps[i].0 && Shl1(ps[i].1) == 2 * ps[i].1
      ensures Or(2 * ps[i].0, 0) == 2 * ps[i].0 && Or(2 * ps[i].0, 1) == 2 * ps[i].0 + 1
      ensures Or(2 * ps[i].1, 0) == 2 * ps[i].1 && Or(2 * ps[i].1, 1) == 2 * ps[i].1 + 1
    {
      NoWrap(ps[i].0, m);
      NoWrap(ps[i].1, m);
    }
  }

  /** One decoded byte adds one low bit to an address. */
  lemma PairStep(addr: nat, o: nat, a: nat, ob: nat, ab: nat)
    requires ob < 2 && ab < 2
    ensures Address(addr, (2 * o + ob, 2 * a + ab)) ==
      2 * Address(addr / 2, (o, a)) + (if (addr % 2 == 1 && ab == 1) || ob == 1 then 1 else 0)
  {
    assert (2 * a + ab) / 2 == a && (2 * a + ab) % 2 == ab;
    assert (2 * o + ob) / 2 == o && (2 * o + ob) % 2 == ob;
    AndStep(addr, 2 * a + ab);
    var y := And(addr, 2 * a + ab);
    var yb := if addr % 2 == 1 && ab == 1 then 1 else 0;
    assert y / 2 == And(addr / 2, a) && y % 2 == yb;
    OrStep(y, 2 * o + ob);
  }

  /** The addresses of a mask one byte longer, from those of the shorter one. */
  lemma AddressesSnoc(p: string, c: char, addr: nat)
    requires |p| < 64 && IsMaskByte(c)
    ensures var xs := Addresses(Pairs(p), addr / 2);
      var ys := Addresses(Pairs(p + [c]), addr);
      (c == '1' ==> |ys| == |xs| && forall i :: 0 <= i < |xs| ==> ys[i] == 2 * xs[i] + 1) &&
      (c == '0' ==> |ys| == |xs| && forall i :: 0 <= i < |xs| ==> ys[i] == 2 * xs[i] + addr % 2) &&
      (c == 'X' ==> |ys| == 2 * |xs| && forall i :: 0 <= i < |xs| ==> ys[i] == 2 * xs[i] && ys[|xs| + i] == 2 * xs[i] + 1)
  {
    if c == 'X' {
      AddressesX(p, addr);
    } else {
      AddressesFixed(p, c, addr);
    }
  }

  lemma AddressesFixed(p: string, c: char, addr: nat)
    requires |p| < 64 && (c == '0' || c == '1')
    ensures var xs := Addresses(Pairs(p), addr / 2);
      var ys := Addresses(Pairs(p + [c]), addr);
      |ys| == |xs| && forall i :: 0 <= i < |xs| ==> ys[i] == 2 * xs[i] + (if c == '1' then 1 else addr % 2)
  {
    PairsFixed(p, c);
    var ps := Pairs(p);
    var ob := if c == '1' then 1 else 0;
    forall i | 0 <= i < |ps|
      ensures Address(addr, Pairs(p + [c])[i]) == 2 * Address(addr / 2, ps[i]) + (if c == '1' then 1 else addr % 2)
    {
      PairStep(addr, ps[i].0, ps[i].1, ob, 1);
    }
  }

  lemma AddressesX(p: string, addr: nat)
    requires |p| < 64
    ensures var xs := Addresses(Pairs(p), addr / 2);
      var ys := Addresses(Pairs(p + ['X']), addr);
      |ys| == 2 * |xs| && forall i :: 0 <= i < |xs| ==> ys[i] == 2 * xs[i] && ys[|xs| + i] == 2 * xs[i] + 1
  {
    PairsX(p);
    var ps := Pairs(p);
    var qs := Pairs(p + ['X']);
    forall i | 0 <= i < |ps|
      ensures Address(addr, qs[i]) == 2 * Address(addr / 2, ps[i])
      ensures Address(addr, qs[|ps| + i]) == 2 * Address(addr / 2, ps[i]) + 1
    {
      PairStep(addr, ps[i].0, ps[i].1, 0, 0);
      PairStep(addr, ps[i].0, ps[i].1, 1, 1);
    }
  }

  function Doubled(xs: seq<nat>, b: nat): (ys: seq<nat>)
    ensures |ys| == |xs|
  {
    seq(|xs|, i requires 0 <= i < |xs| => 2 * xs[i] + b)
  }

  /** `Doubled` on a sequence given element by element. */
  lemma DoubledEach(xs: seq<nat>, b: nat, ys: seq<nat>)
    requires |ys| == |xs| && forall i :: 0 <= i < |xs| ==> ys[i] == 2 * xs[i] + b
    ensures Doubled(xs, b) == ys
  {
  }

  /** `AddressesSnoc` as equations between sequences. */
  lemma AddressesDoubled(p: string, c: char, addr: nat)
    requires |p| < 64 && IsMaskByte(c)
    ensures var xs := Addresses(Pairs(p), addr / 2);
      var ys := Addresses(Pairs(p + [c]), addr);
      (c == '1' ==> ys == Doubled(xs, 1)) &&
      (c == '0' ==> ys == Doubled(xs, addr % 2)) &&
      (c == 'X' ==> ys == Doubled(xs, 0) + Doubled(xs, 1))
  {
    var xs := Addresses(Pairs(p), addr / 2);
    var ys := Addresses(Pairs(p + [c]), addr);
    if c == 'X' {
      AddressesX(p, addr);
      DoubledHalves(xs, ys);
    } else {
      AddressesFixed(p, c, addr);
      DoubledEach(xs, if c == '1' then 1 else addr % 2, ys);
    }
  }

  /** `Doubled` twice over, on a sequence given element by element. */
  lemma DoubledHalves(xs: seq<nat>, ys: seq<nat>)
    requires |ys| == 2 * |xs|
    requires forall i :: 0 <= i < |xs| ==> ys[i] == 2 * xs[i] && ys[|xs| + i] == 2 * xs[i] + 1
    ensures ys == Doubled(xs, 0) + Doubled(xs, 1)
  {
    DoubledEach(xs, 0, ys[..|xs|]);
    DoubledEach(xs, 1, ys[|xs|..]);
    assert ys == ys[..|xs|] + ys[|xs|..];
  }

  /** `decode_masks` makes exactly the addresses the mask allows. */
  lemma {:induction false} AddressesFloat(mask: string, addr: nat)
    requires |mask| <= 64 && ValidMask(mask)
    ensures forall x: nat :: x in Addresses(Pairs(mask), addr) <==> Floats(mask, addr, x)
  {
    if mask == [] {
      assert Addresses(Pairs(mask), addr) == [0];
    } else {
      var n := |mask| - 1;
      var p := mask[..n];
      var c := mask[n];
      assert mask == p + [c];
      AddressesFloat(p, addr / 2);
      if c == 'X' {
        AddressesX(p, addr);
        forall x: nat ensures x in Addresses(Pairs(mask), addr) <==> Floats(mask, addr, x) {
          FloatsX(p, addr, x);
        }
      } else {
        AddressesFixed(p, c, addr);
        forall x: nat ensures x in Addresses(Pairs(mask), addr) <==> Floats(mask, addr, x) {
          FloatsFixed(p, c, addr, x);
        }
      }
    }
  }

  /** One step of `AddressesFloat` for a '0' or a '1', for one address. */
  lemma FloatsFixed(p: string, c: char, addr: nat, x: nat)
    requires |p| < 64 && (c == '0' || c == '1')
    requires forall y: nat :: y in Addresses(Pairs(p), addr / 2) <==> Floats(p, addr / 2, y)
    requires var xs := Addresses(Pairs(p), addr / 2);
      var ys := Addresses(Pairs(p + [c]), addr);
      |ys| == |xs| && forall i :: 0 <= i < |xs| ==> ys[i] == 2 * xs[i] + (if c == '1' then 1 else addr % 2)
    ensures x in Addresses(Pairs(p + [c]), addr) <==> Floats(p + [c], addr, x)
  {
    var mask := p + [c];
    assert mask[..|mask| - 1] == p && mask[|mask| - 1] == c;
    var xs := Addresses(Pairs(p), addr / 2);
    var ys := Addresses(Pairs(mask), addr);
    if x in ys {
      var i :| 0 <= i < |ys| && ys[i] == x;
      assert x / 2 == xs[i] && x % 2 == ys[i] - 2 * xs[i];
      assert xs[i] in xs;
    }
    if Floats(mask, addr, x) {
      assert x / 2 in xs;
      var j :| 0 <= j < |xs| && xs[j] == x / 2;
      assert ys[j] == x;
    }
  }

  /** One step of `AddressesFloat` for an 'X', for one address. */
  lemma FloatsX(p: string, addr: nat, x: nat)
    requires |p| < 64
    requires forall y: nat :: y in Addresses(Pairs(p), addr / 2) <==> Floats(p, addr / 2, y)
    requires var xs := Addresses(Pairs(p), addr / 2);
      var ys := Addresses(Pairs(p + ['X']), addr);
      |ys| == 2 * |xs| && forall i :: 0 <= i < |xs| ==> ys[i] == 2 * xs[i] && ys[|xs| + i] == 2 * xs[i] + 1
    ensures x in Addresses(Pairs(p + ['X']), addr) <==> Floats(p + ['X'], addr, x)
  {
    var mask := p + ['X'];
    assert mask[..|mask| - 1] == p && mask[|mask| - 1] == 'X';
    var xs := Addresses(Pairs(p), addr / 2);
    var ys := Addresses(Pairs(mask), addr);
    if x in ys {
      var i :| 0 <= i < |ys| && ys[i] == x;
      var j := if i >= |xs| then i - |xs| else i;
      assert x / 2 == xs[j];
      assert xs[j] in xs;
    }
    if Floats(mask, addr, x) {
      assert x / 2 in xs;
      var j :| 0 <= j < |xs| && xs[j] == x / 2;
      if x % 2 == 1 {
        assert ys[|xs| + j] == x;
      } else {
        assert ys[j] == x;
      }
    }
  }

  /** No address is made twice. */
  lemma {:induction false} AddressesDistinct(mask: string, addr: nat)
    requires |mask| <= 64 && ValidMask(mask)
    ensures var ys := Addresses(Pairs(mask), addr);
      forall i, j :: 0 <= i < j < |ys| ==> ys[i] != ys[j]
  {
    if mask != [] {
      var n := |mask| - 1;
      var p := mask[..n];
      var c := mask[n];
      assert mask == p + [c];
      AddressesDistinct(p, addr / 2);
      AddressesSnoc(p, c, addr);
      var xs := Addresses(Pairs(p), addr / 2);
      var ys := Addresses(Pairs(mask), addr);
      forall i, j | 0 <= i < j < |ys| ensures ys[i] != ys[j] {
        var i' := if c == 'X' && i >= |xs| then i - |xs| else i;
        var j' := if c == 'X' && j >= |xs| then j - |xs| else j;
        assert ys[i] / 2 == xs[i'] && ys[j] / 2 == xs[j'];
        if i' == j' {
          assert ys[i] % 2 != ys[j] % 2;
        }
      }
    }
  }

  /** `mem` after writing `value` at each of `addrs` in turn. */
  function WriteAll(mem: map<nat, nat>, addrs: seq<nat>, value: nat): map<nat, nat>
  {
    if addrs == [] then mem
    else WriteAll(mem, addrs[..|addrs| - 1], value)[addrs[|addrs| - 1] := value]
  }

  /** Writing at `addrs` adds them to the keys, with `value` there; every other entry is kept. */
  lemma {:induction false} WriteAllKeeps(mem: map<nat, nat>, addrs: seq<nat>, value: nat)
    ensures var r := WriteAll(mem, addrs, value);
      forall a :: (a in r <==> a in mem || a in addrs) && (a in r ==> r[a] == if a in addrs then value else mem[a])
  {
    if addrs != [] {
      var n := |addrs| - 1;
      WriteAllKeeps(mem, addrs[..n], value);
      assert addrs == addrs[..n] + [addrs[n]];
    }
  }


  /** The state of `State2`. */
  datatype Machine2 = Machine2(mem: map<nat, nat>, masks: seq<(nat, nat)>)

  /** `State2::new`: no pairs at all, so a write before any mask writes nowhere. */
  const Init2: Machine2 := Machine2(map[], [])

  /** `State2::step`. */
  function Step2(m: Machine2, instr: Instr): Machine2
  {
    match instr
    case Mask(mask) => m.(masks := Pairs(mask))
    case Write(addr, value) => m.(mem := WriteAll(m.mem, Addresses(m.masks, addr), value))
  }

  /** `State2::run`. */
  function Run2(m: Machine2, instrs: seq<Instr>): Machine2
  {
    if instrs == [] then m else Step2(Run2(m, instrs[..|instrs| - 1]), instrs[|instrs| - 1])
  }

  lemma {:induction false} Run2Masks(instrs: seq<Instr>)
    ensures Run2(Init2, instrs).masks == match LastMask(instrs) case None => [] case Some(mask) => Pairs(mask)
  {
    if instrs != [] {
      Run2Masks(instrs[..|instrs| - 1]);
    }
  }

  /** A version 2 write stores its value at every address the mask in force
      allows and changes nothing else; before any mask it changes nothing. */
  lemma Run2Write(instrs: seq<Instr>, addr: nat, value: nat)
    requires LastMask(instrs).Some? ==> |LastMask(instrs).value| <= 64 && ValidMask(LastMask(instrs).value)
    ensures var before := Run2(Init2, instrs).mem;
      var after := Run2(Init2, instrs + [Write(addr, value)]).mem;
      forall x: nat :: (x in after <==> x in before || (LastMask(instrs).Some? && Floats(LastMask(instrs).value, addr, x))) &&
        (LastMask(instrs).Some? && Floats(LastMask(instrs).value, addr, x) ==> after[x] == value) &&
        (x in before && !(LastMask(instrs).Some? && Floats(LastMask(instrs).value, addr, x)) ==> after[x] == before[x])
  {
    var all := instrs + [Write(addr, value)];
    assert all[..|all| - 1] == instrs;
    Run2Masks(instrs);
    WriteAllKeeps(Run2(Init2, instrs).mem, Addresses(Run2(Init2, instrs).masks, addr), value);
    if LastMask(instrs).Some? {
      AddressesFloat(LastMask(instrs).value, addr);
    }
  }

  class State2 {
    var mem: map<nat, nat>
    var masks: seq<(nat, nat)>

    function State(): Machine2
      reads this
    {
      Machine2(mem, masks)
    }

    constructor()
      ensures State() == Init2
    {
      mem := map[];
      masks := [];
    }

    /** The `iter_mut().for_each` that shifts every pair. */
    static method ShiftEach(ms: seq<(nat, nat)>) returns (r: seq<(nat, nat)>)
      ensures r == Shifted(ms)
    {
      r := ms;
      for j := 0 to |r|
        invariant |r| == |ms|
        invariant forall t :: 0 <= t < |r| ==> r[t] == if t < j then (Shl1(ms[t].0), Shl1(ms[t].1)) else ms[t]
      {
        var (o, a) := r[j];
        r := r[j := (Shl1(o), Shl1(a))];
      }
    }

    /** The `iter_mut().for_each` that ors low bits into every pair. */
    static method OrEach(ms: seq<(nat, nat)>, ob: nat, ab: nat) returns (r: seq<(nat, nat)>)
      ensures r == OrAll(ms, ob, ab)
    {
      r := ms;
      for j := 0 to |r|
        invariant |r| == |ms|
        invariant forall t :: 0 <= t < |r| ==> r[t] == if t < j then (Or(ms[t].0, ob), Or(ms[t].1, ab)) else ms[t]
      {
        var (o, a) := r[j];
        r := r[j := (Or(o, ob), Or(a, ab))];
      }
    }

    /** `decode_masks` */
    method DecodeMasks(mask: string)
      requires ValidMask(mask)
      modifies this
      ensures masks == Pairs(mask) && mem == old(mem)
    {
      masks := [(0, 0)];
      for i := 0 to |mask|
        invariant masks == Pairs(mask[..i]) && mem == old(mem)
      {
        assert mask[..i + 1][..i] == mask[..i];
        masks := ShiftEach(masks);
        if mask[i] == '1' {
          masks := OrEach(masks, 1, 1);
        } else if mask[i] == '0' {
          masks := OrEach(masks, 0, 1);
        } else {
          masks := OrEach(masks, 0, 0);
          var copy := OrEach(masks, 1, 1);
          masks := masks + copy;
        }
      }
      assert mask[..|mask|] == mask;
    }

    method Step(instr: Instr)
      requires instr.Mask? ==> ValidMask(instr.mask)
      modifies this
      ensures State() == Step2(old(State()), instr)
    {
      match instr
      case Mask(mask) => DecodeMasks(mask);
      case Write(addr, value) =>
        ghost var addrs := Addresses(masks, addr);
        for j := 0 to |masks|
          invariant masks == old(masks) && mem == WriteAll(old(mem), addrs[..j], value)
        {
          var (o, a) := masks[j];
          assert addrs[..j + 1][..j] == addrs[..j];
          var target := Or(And(addr, a), o);
          assert target == addrs[j];
          mem := mem[target := value];
        }
        assert addrs[..|masks|] == addrs;
    }

    method Run(instrs: seq<Instr>)
      requires ValidProgram(instrs)
      modifies this
      ensures State() == Run2(old(State()), instrs)
    {
      for i := 0 to |instrs|
        invariant State() == Run2(old(State()), instrs[..i])
      {
        assert instrs[..i + 1][..i] == instrs[..i];
        Step(instrs[i]);
      }
      assert instrs[..|instrs|] == instrs;
    }
  }

  /** `part_2`: the sum of memory after running the program. */
  method Part2(instrs: seq<Instr>) returns (r: nat)
    requires ValidProgram(instrs)
    ensures r == ValueSum(Run2(Init2, instrs).mem)
  {
    var state := new State2();
    state.Run(instrs);
    r := SumValues(state.mem);
  }

  lemma ApplySnoc(p: string, c: char, v: nat)
    ensures Apply(p + [c], v) == 2 * Apply(p, v / 2) + (if c == '1' then 1 else if c == 'X' then v % 2 else 0)
  {
    assert (p + [c])[..|p|] == p;
  }

  /** Without a '1', a mask makes 0 of 0. */
  lemma {:induction false} ApplyZero(p: string)
    requires '1' !in p
    ensures Apply(p, 0) == 0
  {
    if p != [] {
      ApplyZero(p[..|p| - 1]);
    }
  }

  lemma Twice(x: nat, y: nat)
    ensures 2 * (x * y) == (2 * x) * y
  {
  }

  /** A value that fits the mask's tail only meets the bytes before it with zeros. */
  lemma {:induction false} ApplyAppend(p: string, q: string, v: nat)
    requires v < Pow2(|q|)
    ensures Apply(p + q, v) == Pow2(|q|) * Apply(p, 0) + Apply(q, v)
  {
    if q != [] {
      var n := |q| - 1;
      var c := q[n];
      assert p + q == (p + q[..n]) + [c];
      assert q == q[..n] + [c];
      ApplySnoc(p + q[..n], c, v);
      ApplySnoc(q[..n], c, v);
      assert Pow2(|q|) == 2 * Pow2(n);
      ApplyAppend(p, q[..n], v / 2);
      var b := if c == '1' then 1 else if c == 'X' then v % 2 else 0;
      var a0 := Apply(p, 0);
      assert Apply(p + q, v) == 2 * (Pow2(n) * a0 + Apply(q[..n], v / 2)) + b;
      assert Apply(q, v) == 2 * Apply(q[..n], v / 2) + b;
      Twice(Pow2(n), a0);
    } else {
      assert p + q == p;
    }
  }

  /** The low seven bytes of the first example's mask on its three values. */
  lemma ExampleLow(m: string)
    requires |m| == 7 && m[0] == '1' && m[1] == m[2] == m[3] == m[4] == m[6] == 'X' && m[5] == '0'
    ensures Apply(m, 11) == 73 && Apply(m, 101) == 101 && Apply(m, 0) == 64
  {
    ExampleLow11(m);
    ExampleLow101(m);
    ExampleLow0(m);
  }

  /** The prefixes of the first example's low seven bytes. */
  lemma LowPrefixes(m: string)
    requires |m| == 7 && m[0] == '1' && m[1] == m[2] == m[3] == m[4] == m[6] == 'X' && m[5] == '0'
    ensures m[..1] == [] + ['1'] && m[..2] == m[..1] + ['X'] && m[..3] == m[..2] + ['X']
    ensures m[..4] == m[..3] + ['X'] && m[..5] == m[..4] + ['X'] && m[..6] == m[..5] + ['0']
    ensures m == m[..6] + ['X']
  {
  }

  lemma ExampleLow11(m: string)
    requires |m| == 7 && m[0] == '1' && m[1] == m[2] == m[3] == m[4] == m[6] == 'X' && m[5] == '0'
    ensures Apply(m, 11) == 73
  {
    LowPrefixes(m);
    ApplySnoc([], '1', 0);
    assert Apply(m[..1], 0) == 1;
    ApplySnoc(m[..1], 'X', 0);
    assert Apply(m[..2], 0) == 2;
    ApplySnoc(m[..2], 'X', 0);
    assert Apply(m[..3], 0) == 4;
    ApplySnoc(m[..3], 'X', 1);
    assert Apply(m[..4], 1) == 9;
    ApplySnoc(m[..4], 'X', 2);
    assert Apply(m[..5], 2) == 18;
    ApplySnoc(m[..5], '0', 5);
    assert Apply(m[..6], 5) == 36;
    ApplySnoc(m[..6], 'X', 11);
  }

  lemma ExampleLow101(m: string)
    requires |m| == 7 && m[0] == '1' && m[1] == m[2] == m[3] == m[4] == m[6] == 'X' && m[5] == '0'
    ensures Apply(m, 101) == 101
  {
    LowPrefixes(m);
    ApplySnoc([], '1', 1);
    assert Apply(m[..1], 1) == 1;
    ApplySnoc(m[..1], 'X', 3);
    assert Apply(m[..2], 3) == 3;
    ApplySnoc(m[..2], 'X', 6);
    assert Apply(m[..3], 6) == 6;
    ApplySnoc(m[..3], 'X', 12);
    assert Apply(m[..4], 12) == 12;
    ApplySnoc(m[..4], 'X', 25);
    assert Apply(m[..5], 25) == 25;
    ApplySnoc(m[..5], '0', 50);
    assert Apply(m[..6], 50) == 50;
    ApplySnoc(m[..6], 'X', 101);
  }

  lemma ExampleLow0(m: string)
    requires |m| == 7 && m[0] == '1' && m[1] == m[2] == m[3] == m[4] == m[6] == 'X' && m[5] == '0'
    ensures Apply(m, 0) == 64
  {
    LowPrefixes(m);
    ApplySnoc([], '1', 0);
    assert Apply(m[..1], 0) == 1;
    ApplySnoc(m[..1], 'X', 0);
    assert Apply(m[..2], 0) == 2;
    ApplySnoc(m[..2], 'X', 0);
    assert Apply(m[..3], 0) == 4;
    ApplySnoc(m[..3], 'X', 0);
    assert Apply(m[..4], 0) == 8;
    ApplySnoc(m[..4], 'X', 0);
    assert Apply(m[..5], 0) == 16;
    ApplySnoc(m[..5], '0', 0);
    assert Apply(m[..6], 0) == 32;
    ApplySnoc(m[..6], 'X', 0);
  }

  /** "XXXXXXXXXXXXXXXXXXXXXXXXXXXXX1XXXX0X" */
  const ExampleMask1: string := seq(29, _ => 'X') + "1XXXX0X"

  /** The first example's mask: 11 becomes 73, 101 stays and 0 becomes 64. */
  lemma ExampleMask(high: string, low: string)
    requires high == seq(29, _ => 'X') && low == "1XXXX0X"
    ensures Apply(high + low, 11) == 73 && Apply(high + low, 101) == 101 && Apply(high + low, 0) == 64
  {
    assert '1' !in high;
    ExampleLow(low);
    HighXs(high, low, 11);
    HighXs(high, low, 101);
    HighXs(high, low, 0);
  }

  /** Bytes without a '1' above a seven-byte mask add nothing to a value below 2^7. */
  lemma HighXs(high: string, low: string, v: nat)
    requires '1' !in high && |low| == 7 && v < 128
    ensures Apply(high + low, v) == Apply(low, v)
  {
    ApplyZero(high);
    assert Pow2(7) == 128;
    ApplyAppend(high, low, v);
  }

  /** The first example program of `part_1` sums to 165. */
  lemma ExamplePart1(instrs: seq<Instr>)
    requires instrs == [Mask(ExampleMask1), Write(8, 11), Write(7, 101), Write(8, 0)]
    ensures ValueSum(Run1(Init1, instrs).mem) == 165
  {
    ExampleRun1(instrs);
    var mem := Run1(Init1, instrs).mem;
    ValueSumRemove(mem, 7);
    var rest := mem - {7};
    assert rest.Keys == {8} && rest[8] == 64;
    ValueSumRemove(rest, 8);
    ValueSumEmpty(rest - {8});
  }

  /** The memory after the first example program. */
  lemma ExampleRun1(instrs: seq<Instr>)
    requires instrs == [Mask(ExampleMask1), Write(8, 11), Write(7, 101), Write(8, 0)]
    ensures Run1(Init1, instrs).mem.Keys == {7, 8}
    ensures Run1(Init1, instrs).mem[7] == 101 && Run1(Init1, instrs).mem[8] == 64
  {
    var m := ExampleMask1;
    ExampleMask(seq(29, _ => 'X'), "1XXXX0X");
    assert |m| == 36;
    var p1 := instrs[..1];
    var p2 := instrs[..2];
    var p3 := instrs[..3];
    assert p1[..0] == [];
    assert Run1(Init1, p1).mem == map[];
    assert LastMask(p1) == Some(m);
    Run1Write(p1, 8, 11);
    assert p2 == p1 + [Write(8, 11)];
    assert LastMask(p2) == Some(m) by { assert p2[..1] == p1; }
    Run1Write(p2, 7, 101);
    assert p3 == p2 + [Write(7, 101)];
    assert LastMask(p3) == Some(m) by { assert p3[..2] == p2; }
    Run1Write(p3, 8, 0);
    assert instrs == p3 + [Write(8, 0)];
  }

  /** A mask of `n` zeros keeps an address that fits in it. */
  lemma {:induction false} AddressesZeros(p: string, a: nat)
    requires |p| <= 64 && (forall i :: 0 <= i < |p| ==> p[i] == '0') && a < Pow2(|p|)
    ensures Addresses(Pairs(p), a) == [a]
  {
    if p == [] {
      assert Addresses(Pairs(p), a) == [Address(a, (0, 0))];
    } else {
      var n := |p| - 1;
      assert p == p[..n] + ['0'];
      AddressesZeros(p[..n], a / 2);
      AddressesFixed(p[..n], '0', a);
    }
  }

  /** `addr` shifted right by `n` bits. */
  function Shr(addr: nat, n: nat): (r: nat)
    ensures r <= addr
  {
    if n == 0 then addr else Shr(addr / 2, n - 1)
  }

  /** The addresses after one more mask byte `c`, from those of `addr / 2`. */
  function Next(xs: seq<nat>, c: char, addr: nat): seq<nat>
  {
    if c == '1' then Doubled(xs, 1)
    else if c == '0' then Doubled(xs, addr % 2)
    else Doubled(xs, 0) + Doubled(xs, 1)
  }

  /** `Next` over the bytes of `t`, from its first to its last. */
  function Grow(xs: seq<nat>, t: string, addr: nat): seq<nat>
    decreases |t|
  {
    if t == [] then xs else Next(Grow(xs, t[..|t| - 1], addr / 2), t[|t| - 1], addr)
  }

  /** The addresses of a mask `p + t` follow from those of `p` byte by byte. */
  lemma {:induction false} AddressesGrow(p: string, t: string, addr: nat)
    requires |p + t| <= 64 && forall i :: 0 <= i < |t| ==> IsMaskByte(t[i])
    ensures Addresses(Pairs(p + t), addr) == Grow(Addresses(Pairs(p), Shr(addr, |t|)), t, addr)
    decreases |t|
  {
    if t != [] {
      var n := |t| - 1;
      assert p + t == (p + t[..n]) + [t[n]];
      AddressesGrow(p, t[..n], addr / 2);
      AddressesDoubled(p + t[..n], t[n], addr);
      assert Shr(addr, |t|) == Shr(addr / 2, n);
    } else {
      assert p + t == p;
    }
  }

  /** "000000000000000000000000000000X1001X" */
  const ExampleMask2: string := seq(30, _ => '0') + "X1001X"
  /** "00000000000000000000000000000000X0XX" */
  const ExampleMask3: string := seq(32, _ => '0') + "X0XX"

  /** The bytes below the zeros of the second example's first mask, on address 42. */
  lemma GrowExample2()
    ensures Grow([0], "X1001X", 42) == [26, 58, 27, 59]
  {
    assert Grow([0], "", 0) == [0];
    assert Grow([0], "X", 1) == [0, 1] by {
      assert "X"[..0] == "";
      DoubledEach([0], 0, [0]);
      DoubledEach([0], 1, [1]);
    }
    assert Grow([0], "X1", 2) == [1, 3] by {
      assert "X1"[..1] == "X";
      DoubledEach([0, 1], 1, [1, 3]);
    }
    assert Grow([0], "X10", 5) == [3, 7] by {
      assert "X10"[..2] == "X1";
      DoubledEach([1, 3], 1, [3, 7]);
    }
    assert Grow([0], "X100", 10) == [6, 14] by {
      assert "X100"[..3] == "X10";
      DoubledEach([3, 7], 0, [6, 14]);
    }
    assert Grow([0], "X1001", 21) == [13, 29] by {
      assert "X1001"[..4] == "X100";
      DoubledEach([6, 14], 1, [13, 29]);
    }
    assert Grow([0], "X1001X", 42) == [26, 58, 27, 59] by {
      assert "X1001X"[..5] == "X1001";
      DoubledEach([13, 29], 0, [26, 58]);
      DoubledEach([13, 29], 1, [27, 59]);
    }
  }

  /** The bytes below the zeros of the second example's second mask, on address 26. */
  lemma GrowExample3()
    ensures Grow([1], "X0XX", 26) == [16, 24, 18, 26, 17, 25, 19, 27]
  {
    assert Grow([1], "", 1) == [1];
    assert Grow([1], "X", 3) == [2, 3] by {
      assert "X"[..0] == "";
      DoubledEach([1], 0, [2]);
      DoubledEach([1], 1, [3]);
    }
    assert Grow([1], "X0", 6) == [4, 6] by {
      assert "X0"[..1] == "X";
      DoubledEach([2, 3], 0, [4, 6]);
    }
    assert Grow([1], "X0X", 13) == [8, 12, 9, 13] by {
      assert "X0X"[..2] == "X0";
      DoubledEach([4, 6], 0, [8, 12]);
      DoubledEach([4, 6], 1, [9, 13]);
    }
    assert Grow([1], "X0XX", 26) == [16, 24, 18, 26, 17, 25, 19, 27] by {
      assert "X0XX"[..3] == "X0X";
      DoubledEach([8, 12, 9, 13], 0, [16, 24, 18, 26]);
      DoubledEach([8, 12, 9, 13], 1, [17, 25, 19, 27]);
    }
  }

  /** The second example's first mask makes 26, 58, 27 and 59 of address 42. */
  lemma ExampleAddresses2()
    ensures Addresses(Pairs(ExampleMask2), 42) == [26, 58, 27, 59]
  {
    var z: string := seq(30, _ => '0');
    assert Shr(42, 6) == 0;
    AddressesZeros(z, 0);
    AddressesGrow(z, "X1001X", 42);
    GrowExample2();
  }

  /** The second example's second mask makes 16 to 19 and 24 to 27 of address 26. */
  lemma ExampleAddresses3()
    ensures Addresses(Pairs(ExampleMask3), 26) == [16, 24, 18, 26, 17, 25, 19, 27]
  {
    var z: string := seq(32, _ => '0');
    assert Shr(26, 4) == 1;
    AddressesZeros(z, 1);
    AddressesGrow(z, "X0XX", 26);
    GrowExample3();
  }

  lemma ExampleSum(mem: map<nat, nat>)
    requires mem == map[26 := 100, 58 := 100, 27 := 100, 59 := 100][16 := 1][24 := 1][18 := 1][26 := 1][17 := 1][25 := 1][19 := 1][27 := 1]
    ensures ValueSum(mem) == 208
  {
    var m0: map<nat, nat> := map[];
    var m1 := m0[58 := 100];
    var m2 := m1[59 := 100];
    var m3 := m2[16 := 1];
    var m4 := m3[17 := 1];
    var m5 := m4[18 := 1];
    var m6 := m5[19 := 1];
    var m7 := m6[24 := 1];
    var m8 := m7[25 := 1];
    var m9 := m8[26 := 1];
    var m10 := m9[27 := 1];
    ValueSumEmpty(m0);
    ValueSumInsert(m0, 58, 100);
    ValueSumInsert(m1, 59, 100);
    ValueSumInsert(m2, 16, 1);
    ValueSumInsert(m3, 17, 1);
    ValueSumInsert(m4, 18, 1);
    ValueSumInsert(m5, 19, 1);
    ValueSumInsert(m6, 24, 1);
    ValueSumInsert(m7, 25, 1);
    ValueSumInsert(m8, 26, 1);
    ValueSumInsert(m9, 27, 1);
    assert mem == m10;
  }

  /** Four writes, one address at a time. */
  lemma WriteFour(mem: map<nat, nat>, w: nat, x: nat, y: nat, z: nat, value: nat)
    ensures WriteAll(mem, [w, x, y, z], value) == mem[w := value][x := value][y := value][z := value]
  {
    assert [w][..0] == [];
    assert WriteAll(mem, [w], value) == mem[w := value];
    assert [w, x][..1] == [w];
    assert WriteAll(mem, [w, x], value) == mem[w := value][x := value];
    assert [w, x, y][..2] == [w, x];
    assert WriteAll(mem, [w, x, y], value) == mem[w := value][x := value][y := value];
    assert [w, x, y, z][..3] == [w, x, y];
  }

  /** Writing at `xs + ys` writes at `xs`, then at `ys`. */
  lemma {:induction false} WriteAllAppend(mem: map<nat, nat>, xs: seq<nat>, ys: seq<nat>, value: nat)
    ensures WriteAll(mem, xs + ys, value) == WriteAll(WriteAll(mem, xs, value), ys, value)
    decreases |ys|
  {
    if ys == [] {
      assert xs + ys == xs;
    } else {
      var n := |ys| - 1;
      assert (xs + ys)[..|xs + ys| - 1] == xs + ys[..n];
      WriteAllAppend(mem, xs, ys[..n], value);
    }
  }

  /** The second example's two batches of writes. */
  lemma ExampleWrites(a: map<nat, nat>)
    requires a == map[26 := 100, 58 := 100, 27 := 100, 59 := 100]
    ensures WriteAll(map[], [26, 58, 27, 59], 100) == a
    ensures WriteAll(a, [16, 24, 18, 26, 17, 25, 19, 27], 1) == a[16 := 1][24 := 1][18 := 1][26 := 1][17 := 1][25 := 1][19 := 1][27 := 1]
  {
    WriteFour(map[], 26, 58, 27, 59, 100);
    assert [16, 24, 18, 26, 17, 25, 19, 27] == [16, 24, 18, 26] + [17, 25, 19, 27];
    WriteAllAppend(a, [16, 24, 18, 26], [17, 25, 19, 27], 1);
    WriteFour(a, 16, 24, 18, 26, 1);
    WriteFour(WriteAll(a, [16, 24, 18, 26], 1), 17, 25, 19, 27, 1);
  }

  /** The second example of the source's tests: the memory sums to 208. */
  lemma ExamplePart2(instrs: seq<Instr>)
    requires instrs == [Mask(ExampleMask2), Write(42, 100), Mask(ExampleMask3), Write(26, 1)]
    ensures ValueSum(Run2(Init2, instrs).mem) == 208
  {
    ExampleRun2(instrs);
    ExampleSum(Run2(Init2, instrs).mem);
  }

  /** The memory after the second example program. */
  lemma ExampleRun2(instrs: seq<Instr>)
    requires instrs == [Mask(ExampleMask2), Write(42, 100), Mask(ExampleMask3), Write(26, 1)]
    ensures Run2(Init2, instrs).mem ==
      map[26 := 100, 58 := 100, 27 := 100, 59 := 100][16 := 1][24 := 1][18 := 1][26 := 1][17 := 1][25 := 1][19 := 1][27 := 1]
  {
    RunTwoWrites(ExampleMask2, 42, 100, ExampleMask3, 26, 1);
    ExampleAddresses2();
    ExampleAddresses3();
    ExampleWrites(map[26 := 100, 58 := 100, 27 := 100, 59 := 100]);
  }

  /** A program of two masks, each followed by one write. */
  lemma RunTwoWrites(m1: string, a1: nat, v1: nat, m2: string, a2: nat, v2: nat)
    ensures Run2(Init2, [Mask(m1), Write(a1, v1), Mask(m2), Write(a2, v2)]).mem ==
      WriteAll(WriteAll(map[], Addresses(Pairs(m1), a1), v1), Addresses(Pairs(m2), a2), v2)
  {
    var i1, i2, i3, i4 := Mask(m1), Write(a1, v1), Mask(m2), Write(a2, v2);
    assert [i1] == [] + [i1] && [i1, i2] == [i1] + [i2] && [i1, i2, i3] == [i1, i2] + [i3];
    assert [i1, i2, i3, i4] == [i1, i2, i3] + [i4];
    Run2Snoc([], i1);
    Run2Snoc([i1], i2);
    Run2Snoc([i1, i2], i3);
    Run2Snoc([i1, i2, i3], i4);
  }

  lemma Run2Snoc(instrs: seq<Instr>, instr: Instr)
    ensures Run2(Init2, instrs + [instr]) == Step2(Run2(Init2, instrs), instr)
  {
    assert (instrs + [instr])[..|instrs|] == instrs;
  }
}
