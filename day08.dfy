/** Day 8: a three-instruction machine. `acc` adds to the accumulator, `jmp`
    moves the program counter, `nop` does nothing; an instruction about to
    run a second time means the program loops. Part 1 reads the accumulator
    at that point, part 2 finds the one `jmp`/`nop` swap that lets the
    program run off its end. */
module Day08 {
  import opened Text

  datatype Instr = Acc(delta: int) | Jmp(delta: int) | Nop(delta: int)

  /** Each instruction with its visited flag. */
  type Program = seq<(Instr, bool)>

  /** The machine's state: accumulator, program counter and flagged program. */
  datatype Machine = Machine(acc: int, pc: int, program: Program)

  /** `CPU::new`: nothing visited, both registers zero. */
  function Boot(instrs: seq<Instr>): (m: Machine)
    ensures m.acc == 0 && m.pc == 0 && |m.program| == |instrs|
    ensures forall i :: 0 <= i < |instrs| ==> m.program[i] == (instrs[i], false)
  {
    Machine(0, 0, seq(|instrs|, i requires 0 <= i < |instrs| => (instrs[i], false)))
  }

  /** The number of visited instructions. */
  function Visited(p: Program): (n: nat)
    ensures n <= |p|
  {
    if p == [] then 0 else Visited(p[..|p| - 1]) + (if p[|p| - 1].1 then 1 else 0)
  }

  /** Marking an unvisited instruction raises the count by one. */
  lemma {:induction false} VisitedMark(p: Program, i: nat)
    requires i < |p| && !p[i].1
    ensures Visited(p[i := (p[i].0, true)]) == Visited(p) + 1
  {
    var q := p[i := (p[i].0, true)];
    if i < |p| - 1 {
      assert q[..|q| - 1] == p[..|p| - 1][i := (p[i].0, true)];
      VisitedMark(p[..|p| - 1], i);
    } else {
      assert q[..|q| - 1] == p[..|p| - 1];
    }
  }

  /** `CPU::step` on the state, for a counter inside the program (the
      source's `unwrap`): `None` when the instruction was visited already,
      otherwise the executed and marked state. */
  function Next(m: Machine): (r: Option<Machine>)
    requires 0 <= m.pc < |m.program|
    ensures r.None? <==> m.program[m.pc].1
    ensures r.Some? ==> (
      && |r.value.program| == |m.program|
      && (forall i :: 0 <= i < |m.program| ==> r.value.program[i].0 == m.program[i].0)
      && (forall i :: 0 <= i < |m.program| && i != m.pc ==> r.value.program[i] == m.program[i])
      && r.value.program[m.pc].1)
    ensures r.Some? ==> match m.program[m.pc].0
      case Acc(d) => r.value.acc == m.acc + d && r.value.pc == m.pc + 1
      case Jmp(d) => r.value.acc == m.acc && r.value.pc == m.pc + d
      case Nop(_) => r.value.acc == m.acc && r.value.pc == m.pc + 1
  {
    var (instr, visited) := m.program[m.pc];
    if visited then None
    else
      var program := m.program[m.pc := (instr, true)];
      match instr
      case Acc(d) => Some(Machine(m.acc + d, m.pc + 1, program))
      case Jmp(d) => Some(Machine(m.acc, m.pc + d, program))
      case Nop(_) => Some(Machine(m.acc, m.pc + 1, program))
  }

  /** Every step that runs visits one more instruction, so at most
      `program.len()` steps run. */
  lemma StepVisits(m: Machine)
    requires 0 <= m.pc < |m.program| && Next(m).Some?
    ensures Visited(Next(m).value.program) == Visited(m.program) + 1
  {
    VisitedMark(m.program, m.pc);
    assert Next(m).value.program == m.program[m.pc := (m.program[m.pc].0, true)];
  }

  /** How a run ends: about to repeat an instruction, at the end of the
      program, or with the counter anywhere else (where `step` panics). */
  datatype Outcome = Looped(acc: int) | Finished(acc: int) | Crashed

  /** Stepping until a step refuses or the counter leaves the program. */
  function Run(m: Machine): Outcome
    decreases |m.program| - Visited(m.program)
  {
    if m.pc == |m.program| then Finished(m.acc)
    else if !(0 <= m.pc < |m.program|) then Crashed
    else
      match Next(m)
      case None => Looped(m.acc)
      case Some(m') => StepVisits(m); Run(m')
  }

  /** The machine of `CPU`. */
  class CPU {
    var accumulator: int
    var programCounter: int
    var program: Program

    function Snapshot(): Machine
      reads this
    {
      Machine(accumulator, programCounter, program)
    }

    /** `CPU::new` */
    constructor (instrs: seq<Instr>)
      ensures Snapshot() == Boot(instrs)
    {
      accumulator := 0;
      programCounter := 0;
      program := seq(|instrs|, i requires 0 <= i < |instrs| => (instrs[i], false));
    }

    /** `CPU::step`: refuses, changing nothing, on a visited instruction;
        otherwise executes it and marks it. */
    method Step() returns (ran: bool)
      requires 0 <= programCounter < |program|
      modifies this
      ensures ran <==> Next(old(Snapshot())).Some?
      ensures ran ==> Snapshot() == Next(old(Snapshot())).value
      ensures !ran ==> Snapshot() == old(Snapshot())
    {
      var (instr, visited) := program[programCounter];
      if visited {
        return false;
      }
      program := program[programCounter := (instr, true)];
      match instr {
        case Acc(d) =>
          accumulator := accumulator + d;
          programCounter := programCounter + 1;
        case Jmp(d) =>
          programCounter := programCounter + d;
        case Nop(_) =>
          programCounter := programCounter + 1;
      }
      return true;
    }
  }

  /** `part_1`: steps until an instruction would repeat, then reads the
      accumulator. The program must loop: a counter leaving the program
      panics in the source. */
  method Part1(instrs: seq<Instr>) returns (acc: int)
    requires Run(Boot(instrs)).Looped?
    ensures acc == Run(Boot(instrs)).acc
  {
    var cpu := new CPU(instrs);
    while true
      invariant Run(cpu.Snapshot()) == Run(Boot(instrs))
      decreases |cpu.program| - Visited(cpu.program)
    {
      ghost var before := cpu.Snapshot();
      LoopedInside(before);
      var ran := cpu.Step();
      if !ran {
        break;
      }
      StepVisits(before);
    }
    acc := cpu.accumulator;
  }

  /** A looping run has its counter inside the program. */
  lemma LoopedInside(m: Machine)
    requires Run(m).Looped?
    ensures 0 <= m.pc < |m.program|
  {
  }

  /** The swap `part_2` tries at an index: `nop` and `jmp` trade places. */
  function Swap(instr: Instr): Option<Instr>
  {
    match instr
    case Nop(d) => Some(Jmp(d))
    case Jmp(d) => Some(Nop(d))
    case Acc(_) => None
  }

  /** Swapping twice restores the instruction. */
  lemma SwapInvolution(instr: Instr)
    requires Swap(instr).Some?
    ensures Swap(Swap(instr).value) == Some(instr)
  {
  }

  function Patched(instrs: seq<Instr>, i: nat): seq<Instr>
    requires i < |instrs| && Swap(instrs[i]).Some?
  {
    instrs[i := Swap(instrs[i]).value]
  }

  /** The first swap, from index `i` on, whose run finishes. */
  function FirstRepair(instrs: seq<Instr>, i: nat): (r: Option<int>)
    requires i <= |instrs|
    decreases |instrs| - i
  {
    if i == |instrs| then None
    else if Swap(instrs[i]).Some? && Run(Boot(Patched(instrs, i))).Finished? then Some(Run(Boot(Patched(instrs, i))).acc)
    else FirstRepair(instrs, i + 1)
  }

  /** `FirstRepair` finds the lowest swappable index whose patched run
      finishes, and its accumulator; `None` iff there is none. */
  lemma {:induction false} FirstRepairCorrect(instrs: seq<Instr>, i: nat)
    requires i <= |instrs|
    ensures FirstRepair(instrs, i).Some? <==>
      exists j :: i <= j < |instrs| && Swap(instrs[j]).Some? && Run(Boot(Patched(instrs, j))).Finished?
    ensures FirstRepair(instrs, i).Some? ==>
      exists j :: i <= j < |instrs| && Swap(instrs[j]).Some? && Run(Boot(Patched(instrs, j))).Finished?
        && FirstRepair(instrs, i).value == Run(Boot(Patched(instrs, j))).acc
        && forall k :: i <= k < j && Swap(instrs[k]).Some? ==> !Run(Boot(Patched(instrs, k))).Finished?
    decreases |instrs| - i
  {
    if i < |instrs| {
      FirstRepairCorrect(instrs, i + 1);
      if Swap(instrs[i]).Some? && Run(Boot(Patched(instrs, i))).Finished? {
        assert FirstRepair(instrs, i) == Some(Run(Boot(Patched(instrs, i))).acc);
      } else {
        var r := FirstRepair(instrs, i + 1);
        assert FirstRepair(instrs, i) == r;
        if r.Some? {
          var j :| i + 1 <= j < |instrs| && Swap(instrs[j]).Some? && Run(Boot(Patched(instrs, j))).Finished?
            && r.value == Run(Boot(Patched(instrs, j))).acc
            && forall k :: i + 1 <= k < j && Swap(instrs[k]).Some? ==> !Run(Boot(Patched(instrs, k))).Finished?;
          assert i <= j < |instrs|;
        } else {
          forall j | i <= j < |instrs| && Swap(instrs[j]).Some? ensures !Run(Boot(Patched(instrs, j))).Finished? {
            if j > i {
              assert i + 1 <= j;
            }
          }
        }
      }
    }
  }

  /** An index whose swap does not finish is passed over. */
  lemma FirstRepairSkip(instrs: seq<Instr>, i: nat)
    requires i < |instrs| && (Swap(instrs[i]).None? || !Run(Boot(Patched(instrs, i))).Finished?)
    ensures FirstRepair(instrs, i) == FirstRepair(instrs, i + 1)
  {
  }

  /** No swap run crashes: the source would panic on one. */
  predicate NoCrash(instrs: seq<Instr>)
  {
    forall i :: 0 <= i < |instrs| && Swap(instrs[i]).Some? ==> !Run(Boot(Patched(instrs, i))).Crashed?
  }

  /** The swaps `part_2` actually runs, from index `i` up to and including
      the first whose run finishes, do not crash; a crashing one would make
      `step` panic. Swaps after the finishing one are never run. */
  predicate TriedSafe(instrs: seq<Instr>, i: nat)
    requires i <= |instrs|
    decreases |instrs| - i
  {
    if i == |instrs| then true
    else if Swap(instrs[i]).None? then TriedSafe(instrs, i + 1)
    else
      var out := Run(Boot(Patched(instrs, i)));
      !out.Crashed? && (out.Finished? || TriedSafe(instrs, i + 1))
  }

  /** Ruling out a crash on every swap is the stronger demand. */
  lemma {:induction false} NoCrashTriedSafe(instrs: seq<Instr>, i: nat)
    requires i <= |instrs| && NoCrash(instrs)
    ensures TriedSafe(instrs, i)
    decreases |instrs| - i
  {
    if i < |instrs| {
      NoCrashTriedSafe(instrs, i + 1);
    }
  }

  /** A program `part_2` repairs at index 0 although the swap at index 1,
      never run, would jump out of the program. */
  lemma RepairBeforeCrash()
    ensures TriedSafe([Nop(2), Nop(5)], 0) && !NoCrash([Nop(2), Nop(5)])
    ensures FirstRepair([Nop(2), Nop(5)], 0) == Some(0)
  {
    var p := [Nop(2), Nop(5)];
    var m0 := Boot(Patched(p, 0));
    RunNext(m0);
    assert Next(m0).value.pc == 2;
    assert Run(m0) == Finished(0);
    var n0 := Boot(Patched(p, 1));
    RunNext(n0);
    var n1 := Next(n0).value;
    assert n1.pc == 1;
    RunNext(n1);
    assert Next(n1).value.pc == 6;
    assert Run(n0) == Crashed;
  }

  /** One patched run of `part_2`: steps until a step refuses, reporting the
      accumulator as soon as the counter reaches the end. */
  method TryRun(patched: seq<Instr>) returns (r: Option<int>)
    requires |patched| > 0 && !Run(Boot(patched)).Crashed?
    ensures r.Some? <==> Run(Boot(patched)).Finished?
    ensures r.Some? ==> r.value == Run(Boot(patched)).acc
  {
    var cpu := new CPU(patched);
    while true
      invariant Run(cpu.Snapshot()) == Run(Boot(patched))
      invariant |cpu.program| == |patched|
      invariant 0 <= cpu.programCounter < |cpu.program|
      decreases |cpu.program| - Visited(cpu.program)
    {
      ghost var before := cpu.Snapshot();
      var ran := cpu.Step();
      if !ran {
        return None;
      }
      StepVisits(before);
      if cpu.programCounter == |patched| {
        assert Run(cpu.Snapshot()) == Finished(cpu.accumulator);
        return Some(cpu.accumulator);
      }
      assert !Run(cpu.Snapshot()).Crashed?;
    }
  }

  /** `part_2`: tries the swaps in index order and returns the accumulator of
      the first patched program that runs off its end. */
  method Part2(instrs: seq<Instr>) returns (r: Option<int>)
    requires TriedSafe(instrs, 0)
    ensures r == FirstRepair(instrs, 0)
  {
    for i := 0 to |instrs|
      invariant FirstRepair(instrs, 0) == FirstRepair(instrs, i)
      invariant TriedSafe(instrs, i)
    {
      if Swap(instrs[i]).Some? {
        var patched := instrs[i := Swap(instrs[i]).value];
        var found := TryRun(patched);
        if found.Some? {
          return found;
        }
      }
    }
    return None;
  }

  /** `parse_instr`: the sign at byte 4, the magnitude from byte 5 (which Rust
      may itself read with a sign), the mnemonic in bytes 0-2. A line too
      short for byte 4 makes the source panic; here it fails. */
  function ParseInstr(line: string): (r: Option<Instr>)
    ensures r.Some? ==> |line| >= 5 && (line[4] == '+' || line[4] == '-') && line[..3] in {"acc", "jmp", "nop"}
  {
    if |line| < 5 then None
    else if line[4] != '-' && line[4] != '+' then None
    else
      var sign := if line[4] == '-' then -1 else 1;
      match ParseInt(line[5..])
      case None => None
      case Some(amount) =>
        var n := sign * amount;
        if line[..3] == "acc" then Some(Acc(n))
        else if line[..3] == "jmp" then Some(Jmp(n))
        else if line[..3] == "nop" then Some(Nop(n))
        else None
  }

  /** An instruction as the puzzle writes it: "acc +1", "jmp -4". */
  function ShowInstr(instr: Instr): string
  {
    var d := instr.delta;
    var mnemonic := match instr case Acc(_) => "acc" case Jmp(_) => "jmp" case Nop(_) => "nop";
    mnemonic + " " + (if d < 0 then "-" else "+") + ShowNat(if d < 0 then -d else d)
  }

  /** Reading an instruction back from its text gives the instruction. */
  lemma ParseShowInstr(instr: Instr)
    ensures ParseInstr(ShowInstr(instr)) == Some(instr)
  {
    var d := instr.delta;
    var s := ShowInstr(instr);
    var mag: nat := if d < 0 then -d else d;
    assert s[5..] == ShowNat(mag);
    ParseShowNat(mag);
    assert s[..3] == match instr case Acc(_) => "acc" case Jmp(_) => "jmp" case Nop(_) => "nop";
  }

  /** `parse`: every line an instruction, or the first bad line fails it all. */
  function Parse(lines: seq<string>): (r: Option<seq<Instr>>)
    ensures r.Some? <==> forall i :: 0 <= i < |lines| ==> ParseInstr(lines[i]).Some?
    ensures r.Some? ==> |r.value| == |lines| && forall i :: 0 <= i < |lines| ==> Some(r.value[i]) == ParseInstr(lines[i])
  {
    if lines == [] then Some([])
    else
      match Parse(lines[..|lines| - 1])
      case None => None
      case Some(init) =>
        match ParseInstr(lines[|lines| - 1])
        case None => None
        case Some(instr) => Some(init + [instr])
  }

  /** The puzzle's example program. */
  const Example: seq<Instr> := [Nop(0), Acc(1), Jmp(4), Acc(3), Jmp(-3), Acc(-99), Acc(1), Jmp(-4), Acc(6)]

  /** A step that runs leaves the outcome unchanged. */
  lemma RunNext(m: Machine)
    requires 0 <= m.pc < |m.program| && Next(m).Some?
    ensures Run(m) == Run(Next(m).value)
  {
  }

  /** On the example, `part_1` reads 5: the loop closes when `acc +1` at
      index 1 comes up again. */
  lemma ExamplePart1()
    ensures Run(Boot(Example)) == Looped(5)
  {
    var m0 := Boot(Example);
    RunNext(m0);
    var m1 := Next(m0).value;
    assert m1.pc == 1 && m1.acc == 0;
    RunNext(m1);
    var m2 := Next(m1).value;
    assert m2.pc == 2 && m2.acc == 1;
    RunNext(m2);
    var m3 := Next(m2).value;
    assert m3.pc == 6 && m3.acc == 1;
    RunNext(m3);
    var m4 := Next(m3).value;
    assert m4.pc == 7 && m4.acc == 2;
    RunNext(m4);
    var m5 := Next(m4).value;
    assert m5.pc == 3 && m5.acc == 2;
    RunNext(m5);
    var m6 := Next(m5).value;
    assert m6.pc == 4 && m6.acc == 5;
    RunNext(m6);
    var m7 := Next(m6).value;
    assert m7.pc == 1 && m7.acc == 5 && m7.program[1].1;
  }

  /** The patched runs `part_2` tries on the example, one per `nop`/`jmp`. */
  lemma ExampleSwap0()
    ensures Run(Boot(Patched(Example, 0))) == Looped(0)
  {
    var m0 := Boot(Patched(Example, 0));
    RunNext(m0);
    var m1 := Next(m0).value;
    assert m1.pc == 0 && m1.acc == 0 && m1.program[0].1;
  }

  lemma ExampleSwap2()
    ensures Run(Boot(Patched(Example, 2))) == Looped(4)
  {
    var m0 := Boot(Patched(Example, 2));
    RunNext(m0);
    var m1 := Next(m0).value;
    assert m1.pc == 1 && m1.acc == 0;
    RunNext(m1);
    var m2 := Next(m1).value;
    assert m2.pc == 2 && m2.acc == 1;
    RunNext(m2);
    var m3 := Next(m2).value;
    assert m3.pc == 3 && m3.acc == 1;
    RunNext(m3);
    var m4 := Next(m3).value;
    assert m4.pc == 4 && m4.acc == 4;
    RunNext(m4);
    var m5 := Next(m4).value;
    assert m5.pc == 1 && m5.acc == 4 && m5.program[1].1;
  }

  lemma ExampleSwap4()
    ensures Run(Boot(Patched(Example, 4))) == Looped(-94)
  {
    var m0 := Boot(Patched(Example, 4));
    RunNext(m0);
    var m1 := Next(m0).value;
    assert m1.pc == 1 && m1.acc == 0;
    RunNext(m1);
    var m2 := Next(m1).value;
    assert m2.pc == 2 && m2.acc == 1;
    RunNext(m2);
    var m3 := Next(m2).value;
    assert m3.pc == 6 && m3.acc == 1;
    RunNext(m3);
    var m4 := Next(m3).value;
    assert m4.pc == 7 && m4.acc == 2;
    RunNext(m4);
    var m5 := Next(m4).value;
    assert m5.pc == 3 && m5.acc == 2;
    RunNext(m5);
    var m6 := Next(m5).value;
    assert m6.pc == 4 && m6.acc == 5;
    RunNext(m6);
    var m7 := Next(m6).value;
    assert m7.pc == 5 && m7.acc == 5;
    RunNext(m7);
    var m8 := Next(m7).value;
    assert m8.pc == 6 && m8.acc == -94 && m8.program[6].1;
  }

  lemma ExampleSwap7()
    ensures Run(Boot(Patched(Example, 7))) == Finished(8)
  {
    var m0 := Boot(Patched(Example, 7));
    RunNext(m0);
    var m1 := Next(m0).value;
    assert m1.pc == 1 && m1.acc == 0;
    RunNext(m1);
    var m2 := Next(m1).value;
    assert m2.pc == 2 && m2.acc == 1;
    RunNext(m2);
    var m3 := Next(m2).value;
    assert m3.pc == 6 && m3.acc == 1;
    RunNext(m3);
    var m4 := Next(m3).value;
    assert m4.pc == 7 && m4.acc == 2;
    RunNext(m4);
    var m5 := Next(m4).value;
    assert m5.pc == 8 && m5.acc == 2;
    RunNext(m5);
    var m6 := Next(m5).value;
    assert m6.pc == 9 && m6.acc == 8;
  }

  /** On the example, `part_2` returns 8: the swaps at 0, 2 and 4 still loop,
      the one at 7 runs off the end. */
  lemma ExamplePart2()
    ensures FirstRepair(Example, 0) == Some(8)
  {
    ExampleSwap0();
    ExampleSwap2();
    ExampleSwap4();
    ExampleSwap7();
    FirstRepairSkip(Example, 0);
    FirstRepairSkip(Example, 1);
    FirstRepairSkip(Example, 2);
    FirstRepairSkip(Example, 3);
    FirstRepairSkip(Example, 4);
    FirstRepairSkip(Example, 5);
    FirstRepairSkip(Example, 6);
    assert FirstRepair(Example, 7) == Some(8);
  }
}
