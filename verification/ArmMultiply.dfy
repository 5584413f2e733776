/** MUL and MLA as seventeen internal instructions: INIT, MLA and fifteen MLB. */
module ArmMultiply {
  import opened Words
  import opened FlatMemory
  import opened GipInstruction
  import opened GipAlu
  import opened GipSequential

  function InitStep(cc: Condition, rm: ArmReg, addend: Operand, pc: Word): (i: Instruction) {
    Instruction(Arith(Init, false, false), cc, MapSource(rm), addend, NoDest, true, false, false, pc)
  }

  function FirstStep(rs: ArmReg, pc: Word): (i: Instruction) {
    Instruction(Arith(Mla, false, false), CP, Acc, Register(MapSource(rs)), NoDest, true, false, false, pc)
  }

  /** The immediate of the steps that follow is not used. */
  function LaterStep(sign: bool, rd: Dest, unused: RegNo, pc: Word): (i: Instruction) {
    Instruction(Arith(Mlb, sign, false), CP, Acc, Immediate(0, unused), rd, true, false, false, pc)
  }

  // ----- one radix-4 step -----

  /** The low digit with its carry, as the signed multiple -1, 0, 1 or 2. */
  function SignedDigit(core: Core): (d: int) {
    var digit := core.shf % 4 + BitValue(core.p);
    if digit <= 2 then digit else if digit == 3 then -1 else 0
  }

  /** The multiple of x that the digit stands for. */
  function DigitTimes(core: Core, x: int): (y: int) {
    var d := SignedDigit(core);
    if d == 2 then x + x else if d == 1 then x else if d == -1 then -x else 0
  }

  lemma DigitTimesMultiplies(core: Core, x: int)
    ensures DigitTimes(core, x) == SignedDigit(core) * x
  {
  }

  lemma StepAddsDigit(core: Core, op1: Word, op2: Word)
    ensures MultiplyStep(core, op1, op2).0.value == Wrap(op1 + DigitTimes(core, op2))
    ensures core.shf + BitValue(core.p)
            == 4 * (core.shf / 4 + BitValue(MultiplyStep(core, op1, op2).1)) + SignedDigit(core)
  {
    hide AddOp, Wrap;
    var digit := core.shf % 4 + BitValue(core.p);
    if digit == 0 || digit == 4 {
      AddOpAdds(op1, 0, false);
    } else if digit == 1 {
      AddOpAdds(op1, op2, false);
    } else if digit == 2 {
      AddOpAdds(op1, Wrap(op2 * 2), false);
      WrapPlus(op2 * 2, op1);
    } else {
      AddOpAdds(op1, Not(op2), true);
      WrapShift(op1 - op2, 1);
    }
  }

  lemma ShiftTwo(c: bool, w: Word)
    ensures BarrelShift(c, Lsr, w, 2).0 == w / 4
  {
    assert Pow2(2) == 4;
  }

  /** What a step does to accumulator, shifter and carry. */
  ghost predicate Stepped(core: Core, b: Word, next: Core) {
    && next.acc == (if core.cp then Wrap(core.acc + DigitTimes(core, b)) else core.acc)
    && next.shf == core.shf / 4
    && core.shf + BitValue(core.p) == 4 * (next.shf + BitValue(next.p)) + SignedDigit(core)
    && next.cp == core.cp
  }

  lemma FirstStepEffect(s: Arch, rs: ArmReg, pc: Word)
    ensures var t := Execute(false, s, FirstStep(rs, pc));
            var b := ReadSource(s.regs, MapSource(rs), pc);
            && Stepped(s.core, b, t.core) && t.core.flags == s.core.flags
            && t == s.(core := t.core, bIn := b)
  {
    var b := ReadSource(s.regs, MapSource(rs), pc);
    StepAddsDigit(s.core, s.core.acc, b);
    ShiftTwo(s.core.flags.c, s.core.shf);
    hide Wrap, BarrelShift, MultiplyStep, LoadFrom, StoreTo, SignedDigit, DigitTimes, LogicResult, SumFlags;
  }

  lemma LaterStepEffect(s: Arch, sign: bool, rd: Dest, unused: RegNo, pc: Word)
    requires !rd.ToCondition?
    ensures var t := Execute(false, s, LaterStep(sign, rd, unused, pc));
            var b := Wrap(s.bIn * 4);
            && Stepped(s.core, b, t.core)
            && t.core.flags.z == (if sign && s.core.cp then t.core.acc == 0 else s.core.flags.z)
            && t.core.flags.n == (if sign && s.core.cp then t.core.acc >= 0x8000_0000 else s.core.flags.n)
            && (!sign || !s.core.cp ==> t.core.flags == s.core.flags)
            && t == (if s.core.cp then WriteBack(s, rd, t.core.acc) else s).(core := t.core, bIn := b)
  {
    var b := Wrap(s.bIn * 4);
    StepAddsDigit(s.core, s.core.acc, b);
    ShiftTwo(s.core.flags.c, s.core.shf);
    hide Wrap, BarrelShift, MultiplyStep, LoadFrom, StoreTo, SignedDigit, DigitTimes, LogicResult;
  }

  // ----- the invariant of the sequence -----

  /** After some steps of computing total = addend + multiplier * m modulo 2^32: the
      multiplicand has been scaled by p4, a power of four, and what the accumulator
      still lacks is the unconsumed part of the multiplier, carry included, at the
      next scale. */
  ghost predicate Progress(s: Arch, total: int, m: Word, p4: nat) {
    && s.core.cp
    && s.bIn == Wrap(m * p4)
    && s.core.acc == Wrap(total - (s.core.shf + BitValue(s.core.p)) * (4 * (m * p4)))
    && s.core.shf * (4 * p4) < 0x1_0000_0000
  }

  /** A wrapped factor may be multiplied by the digit before or after wrapping. */
  lemma WrapPlusTimes(a: int, d: int, b: int)
    ensures Wrap(Wrap(a) + d * Wrap(b)) == Wrap(a + d * b)
  {
    hide Wrap;
    WrapPlus(a, d * Wrap(b));
    WrapTimes(b, d);
    WrapPlus(d * Wrap(b), a);
    WrapPlus(d * b, a);
  }

  /** rest = 4 * next + d: taking the digit leaves the next part four times larger. */
  lemma TakeDigit(total: int, rest: int, next: int, d: int, x: int)
    requires rest == 4 * next + d
    ensures total - rest * x + d * x == total - next * (4 * x)
  {
    calc {
      rest * x;
      (4 * next + d) * x;
      4 * next * x + d * x;
      next * (4 * x) + d * x;
    }
  }

  lemma StepKeepsProgress(s: Arch, t: Arch, total: int, m: Word, p4: nat)
    requires Progress(s, total, m, p4)
    requires t.bIn == Wrap(s.bIn * 4) && Stepped(s.core, t.bIn, t.core)
    ensures Progress(t, total, m, 4 * p4)
  {
    hide Wrap, SignedDigit, DigitTimes, BitValue;
    var x := 4 * (m * p4);
    assert m * (4 * p4) == x;
    var d := SignedDigit(s.core);
    var rest := s.core.shf + BitValue(s.core.p);
    var next := t.core.shf + BitValue(t.core.p);
    DigitTimesMultiplies(s.core, t.bIn);
    WrapTimes(m * p4, 4);
    assert t.bIn == Wrap(x);
    WrapPlusTimes(total - rest * x, d, x);
    TakeDigit(total, rest, next, d, x);
    QuarterScales(s.core.shf, 4 * p4);
  }

  lemma QuarterScales(w: nat, p: nat)
    ensures w / 4 * (4 * p) <= w * p
  {
    assert w / 4 * (4 * p) == (4 * (w / 4)) * p;
    TimesMonotone(4 * (w / 4), w, p);
  }

  function Pow4(n: nat): (p: nat) {
    if n == 0 then 1 else 4 * Pow4(n - 1)
  }

  /** State after n of the middle steps. */
  function AfterMiddle(s: Arch, unused: RegNo, pc: Word, n: nat): (t: Arch) {
    if n == 0 then s else Execute(false, AfterMiddle(s, unused, pc, n - 1), LaterStep(false, NoDest, unused, pc))
  }

  lemma {:induction false} MiddleKeepsProgress(s: Arch, unused: RegNo, pc: Word, n: nat, total: int, m: Word)
    requires Progress(s, total, m, 1)
    ensures Progress(AfterMiddle(s, unused, pc, n), total, m, Pow4(n))
    ensures var t := AfterMiddle(s, unused, pc, n);
            t.core.cp && t.core.flags == s.core.flags && t == s.(core := t.core, bIn := t.bIn)
  {
    hide Execute, Stepped;
    if n != 0 {
      MiddleKeepsProgress(s, unused, pc, n - 1, total, m);
      var u := AfterMiddle(s, unused, pc, n - 1);
      LaterStepEffect(u, false, NoDest, unused, pc);
      StepKeepsProgress(u, AfterMiddle(s, unused, pc, n), total, m, Pow4(n - 1));
    }
  }

  /** When the condition fails the steps only move shifter, carry and ALU input. */
  lemma {:induction false} MiddleFails(s: Arch, unused: RegNo, pc: Word, n: nat)
    requires !s.core.cp
    ensures var t := AfterMiddle(s, unused, pc, n);
            && t.core.flags == s.core.flags && t.core.acc == s.core.acc && !t.core.cp
            && t == s.(core := t.core, bIn := t.bIn)
  {
    hide Execute;
    if n != 0 {
      MiddleFails(s, unused, pc, n - 1);
      LaterStepEffect(AfterMiddle(s, unused, pc, n - 1), false, NoDest, unused, pc);
    }
  }

  // ----- the whole sequence -----

  function AfterMultiply(s: Arch, cc: Condition, rm: ArmReg, rs: ArmReg, addend: Operand, sign: bool, rd: ArmReg,
                         unused: RegNo, pc: Word): (t: Arch)
  {
    var started := Execute(false, Execute(false, s, InitStep(cc, rm, addend, pc)), FirstStep(rs, pc));
    Execute(false, AfterMiddle(started, unused, pc, 14), LaterStep(sign, MapDest(rd), unused, pc))
  }

  lemma InitEffect(s: Arch, cc: Condition, rm: ArmReg, addend: Operand, pc: Word)
    requires addend.Immediate? || addend.source.Reg? || addend.source.Pc?
    ensures var t := Execute(false, s, InitStep(cc, rm, addend, pc));
            && t.core.flags == s.core.flags && t.core.cp == ConditionMet(false, s.core, cc)
            && (t.core.cp ==>
                  && t.core.acc == (if addend.Immediate? then addend.value else ReadSource(s.regs, addend.source, pc))
                  && t.core.shf == ReadSource(s.regs, MapSource(rm), pc) && !t.core.p)
            && (!t.core.cp ==> t.core.acc == s.core.acc)
            && t == s.(core := t.core, bIn := t.bIn)
  {
    hide LoadFrom, StoreTo, LogicResult, MultiplyStep, AddOp;
    AddOpAdds(0, SecondInput(s.regs, InitStep(cc, rm, addend, pc), s.bIn), false);
  }

  /** MUL and MLA: for all operands and all overlaps of the registers, rd receives
      rm * rs (+ rn) modulo 2^32, with Z and N of that value if asked; a failed
      condition leaves registers, flags, memory and accumulator as they were. */
  lemma MultiplyComputesProduct(s: Arch, cc: Condition, rm: ArmReg, rs: ArmReg, addend: Operand, sign: bool,
                                rd: ArmReg, unused: RegNo, pc: Word)
    requires addend.Immediate? || addend.source.Reg? || addend.source.Pc?
    ensures var t := AfterMultiply(s, cc, rm, rs, addend, sign, rd, unused, pc);
            var sum := if addend.Immediate? then addend.value else ReadSource(s.regs, addend.source, pc);
            var product := Wrap(ReadSource(s.regs, MapSource(rm), pc) * ReadSource(s.regs, MapSource(rs), pc) + sum);
            if ConditionMet(false, s.core, cc) then
              && t == WriteBack(s, MapDest(rd), product).(core := t.core, bIn := t.bIn)
              && t.core.acc == product
              && (if sign then t.core.flags.z == (product == 0) && t.core.flags.n == (product >= 0x8000_0000)
                  else t.core.flags == s.core.flags)
            else
              t == s.(core := t.core, bIn := t.bIn) && t.core.flags == s.core.flags && t.core.acc == s.core.acc
  {
    hide Execute, Progress, Stepped;
    InitEffect(s, cc, rm, addend, pc);
    var init := Execute(false, s, InitStep(cc, rm, addend, pc));
    FirstStepEffect(init, rs, pc);
    var first := Execute(false, init, FirstStep(rs, pc));
    var middle := AfterMiddle(first, unused, pc, 14);
    LaterStepEffect(middle, sign, MapDest(rd), unused, pc);
    var last := Execute(false, middle, LaterStep(sign, MapDest(rd), unused, pc));
    if ConditionMet(false, s.core, cc) {
      var m := ReadSource(s.regs, MapSource(rs), pc);
      var total := init.core.acc + init.core.shf * m;
      FirstStepStarts(init, first, m);
      MiddleKeepsProgress(first, unused, pc, 14, total, m);
      StepKeepsProgress(middle, last, total, m, Pow4(14));
      ProgressEnds(last, total, m);
    } else {
      FirstStepFails(init, first, ReadSource(s.regs, MapSource(rs), pc));
      MiddleFails(first, unused, pc, 14);
      assert last.core.acc == s.core.acc by {
        assert Stepped(middle.core, last.bIn, last.core);
        StepFails(middle.core, last.bIn, last.core);
      }
    }
  }

  lemma StepFails(core: Core, b: Word, next: Core)
    requires Stepped(core, b, next) && !core.cp
    ensures next.acc == core.acc && !next.cp
  {
  }

  lemma FirstStepFails(s: Arch, t: Arch, m: Word)
    requires !s.core.cp && Stepped(s.core, m, t.core)
    ensures t.core.acc == s.core.acc && !t.core.cp
  {
  }

  lemma FirstStepStarts(s: Arch, t: Arch, m: Word)
    requires s.core.cp && !s.core.p && t.bIn == m && Stepped(s.core, m, t.core)
    ensures Progress(t, s.core.acc + s.core.shf * m, m, 1)
  {
    WrapOfWord(m);
    var total := s.core.acc + s.core.shf * m;
    var next := t.core.shf + BitValue(t.core.p);
    TakeDigit(total, s.core.shf, next, SignedDigit(s.core), m);
    DigitTimesMultiplies(s.core, m);
    assert total - s.core.shf * m == s.core.acc;
  }

  /** After sixteen digits the multiplier is used up and a last carry is worth 2^32. */
  lemma ProgressEnds(s: Arch, total: int, m: Word)
    requires Progress(s, total, m, 4 * Pow4(14))
    ensures s.core.acc == Wrap(total)
  {
    assert Pow4(14) == 0x1000_0000;
    assert s.core.shf == 0;
    var carry := BitValue(s.core.p);
    assert carry * (4 * (m * 0x4000_0000)) == (carry * m) * 0x1_0000_0000;
    WrapShift(total - (carry * m) * 0x1_0000_0000, carry * m);
  }
}
