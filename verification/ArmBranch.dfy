/** Branches (ARM DDI 0100, section A4.1.5), the internal instructions they use, and what a
    conditional branch after a comparison decides. */
module ArmBranch {
  import opened Words
  import opened FlatMemory
  import opened GipInstruction
  import opened GipAlu
  import opened GipSequential
  import opened ArmOpcode
  import opened ArmDataProcessing

  predicate IsBranch(opcode: Word) {
    opcode / 0x200_0000 % 8 == 5
  }

  /** The 24-bit offset of a branch as a signed number of words. */
  function SignedOffset(opcode: Word): (s: int)
    ensures -0x80_0000 <= s < 0x80_0000
  {
    var offset := opcode % 0x100_0000;
    if offset < 0x80_0000 then offset else offset - 0x100_0000
  }

  function BranchTarget(opcode: Word, pc: Word): (w: Word) {
    Wrap(pc + 8 + 4 * SignedOffset(opcode))
  }

  /** The condition code with its lowest bit inverted. */
  function InvertedCc(cc: Nibble): (r: Nibble) {
    if cc % 2 == 0 then cc + 1 else cc - 1
  }

  lemma InvertedCondition(core: Core, cc: Nibble)
    requires cc < 14
    ensures ConditionMet(false, core, MapCondition(InvertedCc(cc))) == !ArmPasses(cc, core.flags)
  {
  }

  /** PC - 4, where the PC reads as the address of the instruction plus 8. */
  function PcLessFour(cc: Condition, rd: Dest, f: bool, stale: RegNo, pc: Word): (i: Instruction) {
    Instruction(Arith(Sub, false, false), cc, Pc, Immediate(4, stale), rd, false, f, false, Wrap(pc + 8))
  }

  function TargetToPc(cc: Condition, target: Word, stale: RegNo, pc: Word): (i: Instruction) {
    Instruction(Logic(Mov, false, false), cc, Acc, Immediate(target, stale), ToPc, false, true, false, Wrap(pc + 8))
  }

  lemma SubtractFour(s: Arch, cc: Condition, rd: Dest, f: bool, stale: RegNo, pc: Word)
    requires rd == ToPc || rd == ToReg(14)
    ensures var t := Execute(false, s, PcLessFour(cc, rd, f, stale, pc));
            var passed := ConditionMet(false, s.core, cc);
            && t.memory == s.memory && t.core.flags == s.core.flags && t.core.acc == s.core.acc
            && t.regs == (if passed then SetReg(s.regs, rd, Wrap(pc + 4)) else s.regs)
            && (passed ==> t.log == s.log + [Write(rd, Wrap(pc + 4))])
  {
    SubtractionIsArm(Wrap(pc + 8), 4, true);
    WrapPlus(pc + 8, -4);
    hide AddOp, Wrap, ConditionMet, LoadFrom, StoreTo, SumFlags;
  }

  lemma MoveToPc(s: Arch, cc: Condition, target: Word, stale: RegNo, pc: Word)
    ensures var t := Execute(false, s, TargetToPc(cc, target, stale, pc));
            && t.memory == s.memory && t.core.flags == s.core.flags && t.core.acc == s.core.acc && t.regs == s.regs
            && (ConditionMet(false, s.core, cc) ==> t.log == s.log + [Write(ToPc, target)])
  {
    hide ConditionMet, LoadFrom, StoreTo;
  }

  /** The comparison that each condition code names. */
  predicate Compares(cc: Nibble, a: Word, b: Word)
    requires cc < 14
  {
    match cc
    case 0 => a == b
    case 1 => a != b
    case 2 => a >= b
    case 3 => a < b
    case 4 => Wrap(a - b) >= 0x8000_0000
    case 5 => Wrap(a - b) < 0x8000_0000
    case 6 => !(-0x8000_0000 <= Signed(a) - Signed(b) < 0x8000_0000)
    case 7 => -0x8000_0000 <= Signed(a) - Signed(b) < 0x8000_0000
    case 8 => a > b
    case 9 => a <= b
    case 10 => Signed(a) >= Signed(b)
    case 11 => Signed(a) < Signed(b)
    case 12 => Signed(a) > Signed(b)
    case 13 => Signed(a) <= Signed(b)
  }

  /** After the flags of a - b each condition is the comparison it is named after. */
  lemma ConditionsCompare(cc: Nibble, a: Word, b: Word)
    requires cc < 14
    ensures ArmPasses(cc, Subtracted(a, b, 0).1) <==> Compares(cc, a, b)
  {
    assert Wrap(a - b) == if a >= b then a - b else a - b + 0x1_0000_0000;
  }

  /** CMP leaves flags with which each branch condition decides the comparison it names. */
  lemma CompareDecides(s: Arch, i: DataProcessing, stale: RegNo, cc: Nibble)
    requires i.op.OpCmp? && i.s && i.cc == 14 && cc < 14 && !OperandDeparts(i, s.regs)
    ensures var t := ExecuteAll(false, s, Expand(i, stale));
            var b := OperandOf(i, s.regs, s.core.flags.c).0;
            && t.regs == s.regs && t.memory == s.memory
            && (ArmPasses(cc, t.core.flags) <==> Compares(cc, ReadArm(s.regs, i.rn, i.pc), b))
  {
    hide ExecuteAll, Expand, ArmPasses, Compares, Subtracted, OperandOf, ReadArm, OperandDeparts;
    ExpansionIsArm(false, s, i, stale);
    AlwaysPasses(s.core.flags);
    ConditionsCompare(cc, ReadArm(s.regs, i.rn, i.pc), OperandOf(i, s.regs, s.core.flags.c).0);
  }

  lemma AlwaysMet(core: Core)
    ensures ConditionMet(false, core, Always)
  {
  }

  lemma AlwaysPasses(f: Flags)
    ensures ArmPasses(14, f)
  {
  }
}
