/** Data-processing instructions of the ARM architecture (ARM DDI 0100, sections A3.4 and
    A5.1) and the one or two internal instructions they are expanded to. */
module ArmDataProcessing {
  import opened Words
  import opened GipInstruction
  import opened GipAlu
  import opened GipSequential
  import opened ArmOpcode
  import opened ArmShifter

  datatype AluOp =
    | OpAnd | OpEor | OpSub | OpRsb | OpAdd | OpAdc | OpSbc | OpRsc
    | OpTst | OpTeq | OpCmp | OpCmn | OpOrr | OpMov | OpBic | OpMvn

  type Nibble = n: nat | n < 16

  type ShiftAmount = n: nat | n < 32

  function ShiftHowOf(n: nat): (how: ShiftHow)
    requires n < 4
  {
    if n == 0 then HowLsl else if n == 1 then HowLsr else if n == 2 then HowAsr else HowRor
  }

  datatype ShifterOperand =
    | RotatedImmediate(rotate: Nibble, value: nat)
    | ByImmediate(rm: ArmReg, how: ShiftHow, amount: ShiftAmount)
    | ByRegister(rm: ArmReg, how: ShiftHow, rs: ArmReg)

  /** A decoded instruction and the address it stands at. */
  datatype DataProcessing = DataProcessing(cc: Nibble, op: AluOp, s: bool, rn: ArmReg, rd: ArmReg,
                                           operand: ShifterOperand, pc: Word)

  predicate IsCompare(op: AluOp) {
    op.OpTst? || op.OpTeq? || op.OpCmp? || op.OpCmn?
  }

  predicate IsLogical(op: AluOp) {
    op in {OpAnd, OpEor, OpTst, OpTeq, OpOrr, OpMov, OpBic, OpMvn}
  }

  // ----- the architecture -----

  function ReadArm(regs: Regs, r: ArmReg, pc: Word): (w: Word) {
    if r == 15 then Wrap(pc + 8) else regs[r]
  }

  /** A word shifted by an immediate amount. Zero stands for 32 with LSR and ASR and for RRX
      with ROR. */
  function ShiftedByImmediate(c: bool, how: ShiftHow, val: Word, amount: ShiftAmount): (r: (Word, bool)) {
    if amount > 0 || how.HowLsl? then ArmShift(c, how, val, amount)
    else if how.HowRor? then Rrx(c, val)
    else ArmShift(c, how, val, 32)
  }

  /** Shifter operand and shifter carry out. */
  function OperandOf(i: DataProcessing, regs: Regs, c: bool): (r: (Word, bool))
  {
    match i.operand
    case RotatedImmediate(rotate, value) =>
      var v := Rotated(value % 256, 2 * rotate);
      (v, if rotate == 0 then c else v >= 0x8000_0000)
    case ByImmediate(rm, how, amount) =>
      ShiftedByImmediate(c, how, ReadArm(regs, rm, i.pc), amount)
    case ByRegister(rm, how, rs) =>
      ArmShift(c, how, ReadArm(regs, rm, i.pc), ReadArm(regs, rs, i.pc) % 256)
  }

  /** The sum of x and y and its flags; u and v are the same numbers read as signed. */
  function Summed(x: int, u: int, carry: bool): (r: (Word, Flags)) {
    (Wrap(x), Flags(Wrap(x) == 0, carry, !(-0x8000_0000 <= u < 0x8000_0000), Wrap(x) >= 0x8000_0000))
  }

  function Added(a: Word, b: Word, c: nat): (r: (Word, Flags)) {
    Summed(a + b + c, Signed(a) + Signed(b) + c, a + b + c >= 0x1_0000_0000)
  }

  /** a - b - borrow; the carry flag is set when there is no borrow. */
  function Subtracted(a: Word, b: Word, borrow: nat): (r: (Word, Flags)) {
    Summed(a - b - borrow, Signed(a) - Signed(b) - borrow, a >= b + borrow)
  }

  function Logical(value: Word, c: bool, f: Flags): (r: (Word, Flags)) {
    (value, Flags(value == 0, c, f.v, value >= 0x8000_0000))
  }

  /** Result and flags of an operation. */
  function ArmAlu(op: AluOp, a: Word, b: Word, shifterCarry: bool, f: Flags): (r: (Word, Flags)) {
    match op
    case OpAnd => Logical(And(a, b), shifterCarry, f)
    case OpEor => Logical(XorWord(a, b), shifterCarry, f)
    case OpSub => Subtracted(a, b, 0)
    case OpRsb => Subtracted(b, a, 0)
    case OpAdd => Added(a, b, 0)
    case OpAdc => Added(a, b, BitValue(f.c))
    case OpSbc => Subtracted(a, b, BitValue(!f.c))
    case OpRsc => Subtracted(b, a, BitValue(!f.c))
    case OpTst => Logical(And(a, b), shifterCarry, f)
    case OpTeq => Logical(XorWord(a, b), shifterCarry, f)
    case OpCmp => Subtracted(a, b, 0)
    case OpCmn => Added(a, b, 0)
    case OpOrr => Logical(OrWord(a, b), shifterCarry, f)
    case OpMov => Logical(b, shifterCarry, f)
    case OpBic => Logical(And(a, Not(b)), shifterCarry, f)
    case OpMvn => Logical(Not(b), shifterCarry, f)
  }

  /** The condition field: the lowest bit inverts one of seven tests. */
  predicate ArmPasses(cc: Nibble, f: Flags) {
    var base := match cc / 2
      case 0 => f.z
      case 1 => f.c
      case 2 => f.n
      case 3 => f.v
      case 4 => f.c && !f.z
      case 5 => f.n == f.v
      case 6 => f.n == f.v && !f.z
      case _ => true;
    if cc % 2 == 1 then !base else base
  }

  /** What an instruction does: the new flags and the value, if any, for its destination. */
  datatype Effect = Effect(flags: Flags, written: bool, value: Word)

  /** The effect for an operand and shifter carry. Writing the PC with the flags set, which
      in the architecture restores the saved status, is taken to set the flags as well. */
  function EffectOf(i: DataProcessing, operand: (Word, bool), regs: Regs, f: Flags): (e: Effect) {
    var r := ArmAlu(i.op, ReadArm(regs, i.rn, i.pc), operand.0, operand.1, f);
    if ArmPasses(i.cc, f) then Effect(if i.s then r.1 else f, !IsCompare(i.op), r.0)
    else Effect(f, false, r.0)
  }

  function ArmEffect(i: DataProcessing, regs: Regs, f: Flags): (e: Effect) {
    EffectOf(i, OperandOf(i, regs, f.c), regs, f)
  }

  // ----- the expansion -----

  function InternalKind(op: AluOp, s: bool, shifted: bool): (k: Kind) {
    match op
    case OpAnd => Logic(BitAnd, s, s && shifted)
    case OpEor => Logic(BitXor, s, s && shifted)
    case OpSub => Arith(Sub, s, false)
    case OpRsb => Arith(Rsb, s, false)
    case OpAdd => Arith(Add, s, false)
    case OpAdc => Arith(Adc, s, false)
    case OpSbc => Arith(Sbc, s, false)
    case OpRsc => Arith(Rsc, s, false)
    case OpTst => Logic(BitAnd, true, s && shifted)
    case OpTeq => Logic(BitXor, true, s && shifted)
    case OpCmp => Arith(Sub, true, false)
    case OpCmn => Arith(Add, true, false)
    case OpOrr => Logic(BitOr, s, s && shifted)
    case OpMov => Logic(Mov, s, s && shifted)
    case OpBic => Logic(BitBic, s, s && shifted)
    case OpMvn => Logic(Mvn, s, s && shifted)
  }

  function AluStep(i: DataProcessing, rm: Operand, shifted: bool): (n: Instruction) {
    Instruction(InternalKind(i.op, i.s, shifted), MapCondition(i.cc), MapSource(i.rn), rm,
                if IsCompare(i.op) then NoDest else MapDest(i.rd),
                !IsCompare(i.op) && i.cc == 14, i.rd == 15, false, Wrap(i.pc + 8))
  }

  function ShiftStep(i: DataProcessing, shift: ShiftOp, val: Source, amount: Operand): (n: Instruction) {
    Instruction(Shift(shift, false), Always, val, amount, NoDest, false, false, false, Wrap(i.pc + 8))
  }

  /** The immediate rotated right; a rotation by nothing leaves it alone. */
  function RotateImmediate(value: nat, rotate: Nibble): (w: Word) {
    if rotate == 0 then value % 256 else RotateRight(value % 256, 2 * rotate)
  }

  /** The internal instructions. stale is the register number that is left over in the
      storage that immediates share. */
  function Expand(i: DataProcessing, stale: RegNo): (insts: seq<Instruction>)
    ensures 1 <= |insts| <= 2
  {
    match i.operand
    case RotatedImmediate(rotate, value) =>
      [AluStep(i, Immediate(RotateImmediate(value, rotate), stale), false)]
    case ByImmediate(rm, how, amount) =>
      if how.HowLsl? && amount == 0 then [AluStep(i, Register(MapSource(rm)), false)]
      else
        [ShiftStep(i, if how.HowRor? && amount == 0 then Ror33 else MapShift(how), MapSource(rm),
                   Immediate(if amount == 0 then 32 else amount, stale)),
         AluStep(i, Register(Shf), true)]
    case ByRegister(rm, how, rs) =>
      [ShiftStep(i, MapShift(how), MapSource(rm), Register(MapSource(rs))), AluStep(i, Register(Shf), true)]
  }

  // ----- the expansion does what the architecture says -----

  lemma SubtractionIsArm(a: Word, b: Word, cIn: bool)
    ensures var sum := AddOp(a, Not(b), cIn);
            (sum.value, SumFlags(sum)) == Subtracted(a, b, BitValue(!cIn))
  {
    AddOpAdds(a, Not(b), cIn);
    hide AddOp;
    WrapShift(a - b - BitValue(!cIn), 1);
  }

  lemma AdditionIsArm(a: Word, b: Word, cIn: bool)
    ensures var sum := AddOp(a, b, cIn);
            (sum.value, SumFlags(sum)) == Added(a, b, BitValue(cIn))
  {
    AddOpAdds(a, b, cIn);
    hide AddOp;
  }

  /** Value and flags that the ALU makes of two operands. */
  function AluResult(k: Kind, core: Core, a: Word, b: Word): (r: (Word, Flags))
    requires k.Arith? || k.Logic?
  {
    if k.Arith? then
      var sum := ArithResult(core, k.arithOp, a, b);
      (sum.value, SumFlags(sum))
    else
      var value := LogicResult(k.logicOp, a, b);
      (value, Flags(value == 0, if k.p then core.p else core.flags.c, core.flags.v, value >= 0x8000_0000))
  }

  lemma KindShape(op: AluOp, s: bool, shifted: bool)
    requires IsCompare(op) ==> s
    ensures var k := InternalKind(op, s, shifted);
            (k.Arith? && k.s == s && !k.arithOp.Mlb?) || (k.Logic? && k.s == s)
  {
  }

  /** The ALU computes the result and the flags of the architecture. */
  lemma InternalAluIsArm(op: AluOp, s: bool, shifted: bool, core: Core, a: Word, b: Word)
    requires IsCompare(op) ==> s
    ensures var k := InternalKind(op, s, shifted);
            var r := ArmAlu(op, a, b, if shifted then core.p else core.flags.c, core.flags);
            (k.Arith? || k.Logic?) && AluResult(k, core, a, b).0 == r.0 && (s ==> AluResult(k, core, a, b) == r)
  {
    hide AddOp, Subtracted, Added, And, XorWord, OrWord, SumFlags;
    match op
    case OpSub | OpCmp => SubtractionIsArm(a, b, true);
    case OpSbc => SubtractionIsArm(a, b, core.flags.c);
    case OpRsb => SubtractionIsArm(b, a, true); AddOpCommutes(b, Not(a), true);
    case OpRsc => SubtractionIsArm(b, a, core.flags.c); AddOpCommutes(b, Not(a), core.flags.c);
    case OpAdd | OpCmn => AdditionIsArm(a, b, false);
    case OpAdc => AdditionIsArm(a, b, core.flags.c);
    case _ =>
  }

  lemma ConditionIsArm(trail2: bool, core: Core, cc: Nibble)
    requires cc != 15
    ensures ConditionMet(trail2, core, MapCondition(cc)) == ArmPasses(cc, core.flags)
  {
  }

  /** The value that the second operand of an internal instruction has. */
  function SecondValue(s: Arch, i: DataProcessing, rm: Operand): (w: Word) {
    if rm.Immediate? then rm.value
    else if rm.source.Shf? then s.core.shf
    else ReadSource(s.regs, rm.source, Wrap(i.pc + 8))
  }

  predicate Plain(rm: Operand) {
    rm.Register? ==> !rm.source.Acc?
  }

  /** The state after an ARM instruction as far as a program can see it. */
  ghost predicate Shows(t: Arch, s: Arch, i: DataProcessing, e: Effect) {
    && t.memory == s.memory
    && t.core.flags == e.flags
    && t.log == (if e.written then s.log + [Write(MapDest(i.rd), e.value)] else s.log)
    && t.regs == (if e.written && i.rd != 15 then s.regs[i.rd := e.value] else s.regs)
  }

  lemma AluStepExecutes(trail2: bool, s: Arch, i: DataProcessing, rm: Operand, shifted: bool)
    requires i.cc != 15 && (IsCompare(i.op) ==> i.s) && Plain(rm)
    ensures Shows(Execute(trail2, s, AluStep(i, rm, shifted)), s, i,
                  EffectOf(i, (SecondValue(s, i, rm), if shifted then s.core.p else s.core.flags.c), s.regs,
                           s.core.flags))
  {
    var inst := AluStep(i, rm, shifted);
    KindShape(i.op, i.s, shifted);
    ConditionIsArm(trail2, s.core, i.cc);
    InternalAluIsArm(i.op, i.s, shifted, s.core, ReadArm(s.regs, i.rn, i.pc), SecondValue(s, i, rm));
    Inputs(trail2, s, i, rm, shifted);
    hide ArmAlu, InternalKind, ArithResult, LogicResult, ArmPasses, ConditionMet, MapCondition, SumFlags, ArithShift,
      Operand1, Operand2, SecondInput, ReadSource, SecondValue, ReadArm, NextCp, LoadFrom, StoreTo;
  }

  lemma Inputs(trail2: bool, s: Arch, i: DataProcessing, rm: Operand, shifted: bool)
    requires (IsCompare(i.op) ==> i.s) && Plain(rm)
    ensures var inst := AluStep(i, rm, shifted);
            && Operand1(inst, ReadSource(s.regs, inst.rn, inst.pc), s.core) == ReadArm(s.regs, i.rn, i.pc)
            && Operand2(inst, SecondInput(s.regs, inst, s.bIn), s.core) == SecondValue(s, i, rm)
  {
    KindShape(i.op, i.s, shifted);
    hide InternalKind, MapCondition;
  }

  /** The shift step leaves the operand and its carry in the shifter and changes nothing else. */
  lemma ShiftStepExecutes(trail2: bool, s: Arch, i: DataProcessing, shift: ShiftOp, rm: ArmReg, amount: Operand)
    requires amount.Register? ==> amount.source.Reg? || amount.source.Pc?
    ensures var t := Execute(trail2, s, ShiftStep(i, shift, MapSource(rm), amount));
            var r := BarrelShift(s.core.flags.c, shift, ReadArm(s.regs, rm, i.pc), SecondValue(s, i, amount));
            && t.regs == s.regs && t.memory == s.memory && t.log == s.log && t.core.flags == s.core.flags
            && (t.core.shf, t.core.p) == r && t.core.acc == s.core.acc
  {
    hide BarrelShift, LoadFrom, StoreTo;
  }

  /** The operand is one that the C shifter gets wrong. */
  predicate OperandDeparts(i: DataProcessing, regs: Regs) {
    && i.operand.ByRegister?
    && ShiftDeparts(i.operand.how, ReadArm(regs, i.operand.rm, i.pc), ReadArm(regs, i.operand.rs, i.pc))
  }

  /** The operand that the expansion works with: the sign of a negative word shifted right by
      more than 32 is cut to 28 bits. */
  function UsedOperand(i: DataProcessing, regs: Regs, c: bool): (r: (Word, bool)) {
    if OperandDeparts(i, regs) then (0x0fff_ffff, true) else OperandOf(i, regs, c)
  }

  lemma OperandDepartsExactly(i: DataProcessing, regs: Regs, c: bool)
    ensures UsedOperand(i, regs, c) == OperandOf(i, regs, c) <==> !OperandDeparts(i, regs)
  {
    hide Pow2, ReadArm;
    if OperandDeparts(i, regs) {
      var val, n := ReadArm(regs, i.operand.rm, i.pc), ReadArm(regs, i.operand.rs, i.pc) % 256;
      SignFill(Signed(val), n);
      SignFill(Signed(val), n - 1);
    }
  }

  lemma DepartingShift(c: bool, how: ShiftHow, val: Word, amount: Word)
    requires ShiftDeparts(how, val, amount)
    ensures BarrelShift(c, MapShift(how), val, amount) == (0x0fff_ffff, true)
  {
  }

  /** A logical instruction that sets the flags should take C from bit 31 of a rotated
      immediate; the expansion leaves C alone. */
  predicate CarryDeparts(i: DataProcessing, f: Flags) {
    && ArmPasses(i.cc, f) && i.s && IsLogical(i.op) && i.operand.RotatedImmediate? && i.operand.rotate != 0
    && (Rotated(i.operand.value % 256, 2 * i.operand.rotate) >= 0x8000_0000) != f.c
  }

  lemma TwoSteps(trail2: bool, s: Arch, a: Instruction, b: Instruction)
    ensures ExecuteAll(trail2, s, [a, b]) == Execute(trail2, Execute(trail2, s, a), b)
  {
    hide Execute;
    assert [a, b] == [a] + [b];
    ExecuteFirst(trail2, s, a, [b]);
    ExecuteOne(trail2, Execute(trail2, s, a), b);
  }

  lemma ImmediateIsArm(value: nat, rotate: Nibble)
    ensures RotateImmediate(value, rotate) == Rotated(value % 256, 2 * rotate)
  {
    if rotate == 0 {
      RotatedByNothing(value % 256);
    } else {
      RotateIsArm(value % 256, 2 * rotate);
    }
  }

  /** The operand that the expansion hands to its ALU step. */
  lemma ShiftStepOperand(trail2: bool, s: Arch, i: DataProcessing, stale: RegNo)
    requires |Expand(i, stale)| == 2
    ensures var t := Execute(trail2, s, Expand(i, stale)[0]);
            && t.regs == s.regs && t.memory == s.memory && t.log == s.log && t.core.flags == s.core.flags
            && (t.core.shf, t.core.p) == UsedOperand(i, s.regs, s.core.flags.c)
  {
    hide BarrelShift, ArmShift, Execute, ShiftDeparts;
    match i.operand
    case ByImmediate(rm, how, amount) =>
      var shift := if how.HowRor? && amount == 0 then Ror33 else MapShift(how);
      var n: Word := if amount == 0 then 32 else amount;
      ShiftStepExecutes(trail2, s, i, shift, rm, Immediate(n, stale));
      BarrelShiftIsArm(s.core.flags.c, how, ReadArm(s.regs, rm, i.pc), n);
      ConstantNeverDeparts(how, ReadArm(s.regs, rm, i.pc), n);
      RrxIsArm(s.core.flags.c, ReadArm(s.regs, rm, i.pc));
    case ByRegister(rm, how, rs) =>
      var val, amount := ReadArm(s.regs, rm, i.pc), ReadArm(s.regs, rs, i.pc);
      ShiftStepExecutes(trail2, s, i, MapShift(how), rm, Register(MapSource(rs)));
      BarrelShiftIsArm(s.core.flags.c, how, val, amount);
      if ShiftDeparts(how, val, amount) {
        DepartingShift(s.core.flags.c, how, val, amount);
      }
  }

  /** What the shift step leaves, spelled out for every shift and amount below 32. */
  lemma ShiftStepSpelledOut(trail2: bool, s: Arch, i: DataProcessing, stale: RegNo, n: nat)
    requires |Expand(i, stale)| == 2 && 0 < n < 32
    requires match i.operand
             case ByImmediate(_, _, amount) => amount == n
             case ByRegister(_, _, rs) => ReadArm(s.regs, rs, i.pc) % 256 == n
             case RotatedImmediate(_, _) => false
    ensures var t := Execute(trail2, s, Expand(i, stale)[0]);
            var val := ReadArm(s.regs, i.operand.rm, i.pc);
            match i.operand.how
            case HowLsl => t.core.shf == Wrap(val * Pow2(n)) && (t.core.p <==> Bit(val, 32 - n))
            case HowLsr => t.core.shf == val / Pow2(n) && (t.core.p <==> Bit(val, n - 1))
            case HowAsr => t.core.shf == Wrap(Signed(val) / Pow2(n))
                           && (t.core.p <==> Signed(val) / Pow2(n - 1) % 2 == 1)
            case HowRor => t.core.shf == Rotated(val, n) && (t.core.p <==> Bit(val, n - 1))
  {
    hide BarrelShift, Execute, Pow2, Bit, Rotated, Wrap, ReadArm;
    var amount: Word := if i.operand.ByImmediate? then n else ReadArm(s.regs, i.operand.rs, i.pc);
    var rm := if i.operand.ByImmediate? then Immediate(n, stale) else Register(MapSource(i.operand.rs));
    ShiftStepExecutes(trail2, s, i, MapShift(i.operand.how), i.operand.rm, rm);
    RegisterValue(s, i, i.operand);
    LowByteShifts(s.core.flags.c, MapShift(i.operand.how), ReadArm(s.regs, i.operand.rm, i.pc), amount);
    ShiftsSpelledOut(s.core.flags.c, ReadArm(s.regs, i.operand.rm, i.pc), n);
  }

  lemma RegisterValue(s: Arch, i: DataProcessing, o: ShifterOperand)
    ensures o.ByRegister? ==> SecondValue(s, i, Register(MapSource(o.rs))) == ReadArm(s.regs, o.rs, i.pc)
  {
  }

  lemma LowByteShifts(c: bool, op: ShiftOp, val: Word, amount: Word)
    ensures BarrelShift(c, op, val, amount) == BarrelShift(c, op, val, amount % 256)
  {
    hide Pow2, Bit, RotateRight, Wrap;
  }

  /** It is the architectural one, with its carry, exactly outside OperandDeparts. */
  lemma ShiftedOperandIsArm(trail2: bool, s: Arch, i: DataProcessing, stale: RegNo)
    requires |Expand(i, stale)| == 2
    ensures var t := Execute(trail2, s, Expand(i, stale)[0]);
            && t.regs == s.regs && t.memory == s.memory && t.log == s.log && t.core.flags == s.core.flags
            && ((t.core.shf, t.core.p) == OperandOf(i, s.regs, s.core.flags.c) <==> !OperandDeparts(i, s.regs))
  {
    hide Execute, Expand, UsedOperand, OperandOf, OperandDeparts;
    ShiftStepOperand(trail2, s, i, stale);
    OperandDepartsExactly(i, s.regs, s.core.flags.c);
  }

  lemma ConstantNeverDeparts(how: ShiftHow, val: Word, amount: Word)
    requires amount <= 32
    ensures !ShiftDeparts(how, val, amount)
  {
  }

  /** The shifter carry reaches the C flag of logical operations and nothing else. */
  lemma CarryMatters(op: AluOp, a: Word, b: Word, c: bool, d: bool, f: Flags)
    ensures var x, y := ArmAlu(op, a, b, c, f), ArmAlu(op, a, b, d, f);
            x.0 == y.0 && x.1 == y.1.(c := x.1.c) && (x.1 == y.1 <==> !IsLogical(op) || c == d)
  {
    hide Added, Subtracted, And, OrWord, XorWord;
  }

  ghost predicate ExpansionHolds(t: Arch, s: Arch, i: DataProcessing) {
    var e := EffectOf(i, UsedOperand(i, s.regs, s.core.flags.c), s.regs, s.core.flags);
    && Shows(t, s, i, e.(flags := t.core.flags))
    && (t.core.flags == e.flags <==> !CarryDeparts(i, s.core.flags))
    && t.core.flags == e.flags.(c := t.core.flags.c)
  }

  lemma ImmediateExpansion(trail2: bool, s: Arch, i: DataProcessing, stale: RegNo)
    requires i.cc != 15 && (IsCompare(i.op) ==> i.s) && i.operand.RotatedImmediate?
    ensures ExpansionHolds(ExecuteAll(trail2, s, Expand(i, stale)), s, i)
  {
    hide Execute, ArmAlu, RotateImmediate, Rotated, ArmPasses, AluStep, IsLogical, ExecuteAll, ReadArm;
    var b := RotateImmediate(i.operand.value, i.operand.rotate);
    var rm := Immediate(b, stale);
    ImmediateIsArm(i.operand.value, i.operand.rotate);
    AluStepExecutes(trail2, s, i, rm, false);
    ExecuteOne(trail2, s, AluStep(i, rm, false));
    CarryMatters(i.op, ReadArm(s.regs, i.rn, i.pc), b, s.core.flags.c, OperandOf(i, s.regs, s.core.flags.c).1,
                 s.core.flags);
  }

  lemma PlainOperand(s: Arch, i: DataProcessing, stale: RegNo)
    requires !i.operand.RotatedImmediate? && |Expand(i, stale)| == 1
    ensures var rm := Register(MapSource(i.operand.rm));
            && Plain(rm) && Expand(i, stale) == [AluStep(i, rm, false)]
            && UsedOperand(i, s.regs, s.core.flags.c) == (SecondValue(s, i, rm), s.core.flags.c)
  {
    hide AluStep, ShiftStep, Pow2;
  }

  lemma PlainExpansion(trail2: bool, s: Arch, i: DataProcessing, stale: RegNo)
    requires i.cc != 15 && (IsCompare(i.op) ==> i.s) && !i.operand.RotatedImmediate? && |Expand(i, stale)| == 1
    ensures ExpansionHolds(ExecuteAll(trail2, s, Expand(i, stale)), s, i)
  {
    hide Execute, ArmAlu, ArmPasses, AluStep, IsLogical, ExecuteAll, ReadArm, UsedOperand, MapSource, SecondValue,
      Expand;
    PlainOperand(s, i, stale);
    var rm := Register(MapSource(i.operand.rm));
    AluStepExecutes(trail2, s, i, rm, false);
    ExecuteOne(trail2, s, AluStep(i, rm, false));
  }

  lemma ShiftedExpansion(trail2: bool, s: Arch, i: DataProcessing, stale: RegNo)
    requires i.cc != 15 && (IsCompare(i.op) ==> i.s) && !i.operand.RotatedImmediate? && |Expand(i, stale)| == 2
    ensures ExpansionHolds(ExecuteAll(trail2, s, Expand(i, stale)), s, i)
  {
    hide Execute, ArmAlu, ArmPasses, AluStep, ShiftStep, IsLogical, ReadArm, UsedOperand, ExecuteAll, MapShift,
      MapSource;
    ShiftStepOperand(trail2, s, i, stale);
    var u := Execute(trail2, s, Expand(i, stale)[0]);
    AluStepExecutes(trail2, u, i, Register(Shf), true);
    TwoSteps(trail2, s, Expand(i, stale)[0], Expand(i, stale)[1]);
  }

  /** The expansion writes the result for the operand it works with, and sets the flags for
      it except for C after a rotated immediate, which is wrong exactly when CarryDeparts. */
  lemma ExpansionUsesOperand(trail2: bool, s: Arch, i: DataProcessing, stale: RegNo)
    requires i.cc != 15 && (IsCompare(i.op) ==> i.s)
    ensures ExpansionHolds(ExecuteAll(trail2, s, Expand(i, stale)), s, i)
  {
    hide ExecuteAll, ExpansionHolds, Expand;
    if i.operand.RotatedImmediate? {
      ImmediateExpansion(trail2, s, i, stale);
    } else if |Expand(i, stale)| == 1 {
      PlainExpansion(trail2, s, i, stale);
    } else {
      ShiftedExpansion(trail2, s, i, stale);
    }
  }

  /** The expansion of a data-processing instruction does what the architecture says, unless
      OperandDeparts: it writes the same result to the same register, and sets the same flags
      with the one exception of CarryDeparts. */
  lemma ExpansionIsArm(trail2: bool, s: Arch, i: DataProcessing, stale: RegNo)
    requires i.cc != 15 && (IsCompare(i.op) ==> i.s) && !OperandDeparts(i, s.regs)
    ensures var t := ExecuteAll(trail2, s, Expand(i, stale));
            var e := ArmEffect(i, s.regs, s.core.flags);
            && Shows(t, s, i, e.(flags := t.core.flags))
            && (t.core.flags == e.flags <==> !CarryDeparts(i, s.core.flags))
            && t.core.flags == e.flags.(c := t.core.flags.c)
  {
    hide ExecuteAll, Expand, Shows, EffectOf, CarryDeparts, OperandDeparts, OperandOf;
    ExpansionUsesOperand(trail2, s, i, stale);
  }
}
