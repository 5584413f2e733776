/** The shifter, adder and flag logic shared by the GIP models. */
module GipAlu {
  import opened Words
  import opened GipInstruction

  datatype Flags = Flags(z: bool, c: bool, v: bool, n: bool)

  /** The state held in the ALU stage: accumulator, shifter, flags, the last carry
      out of the shifter and the last two condition-passed indications. */
  datatype Core = Core(acc: Word, shf: Word, flags: Flags, p: bool, cp: bool, oldCp: bool)

  predicate ConditionMet(trail2: bool, core: Core, cc: Condition) {
    var f := core.flags;
    match cc
    case EQ => f.z
    case NE => !f.z
    case CS => f.c
    case CC => !f.c
    case MI => f.n
    case PL => !f.n
    case VS => f.v
    case VC => !f.v
    case HI => f.c && !f.z
    case LS => !f.c || f.z
    case GE => (!f.n && !f.v) || (f.n && f.v)
    case LT => (!f.n && f.v) || (f.n && !f.v)
    case GT => ((!f.n && !f.v) || (f.n && f.v)) && !f.z
    case LE => (!f.n && f.v) || (f.n && !f.v) || f.z
    case Always => true
    case CP => if trail2 then core.cp && core.oldCp else core.cp
  }

  /** Condition CP is the last instruction's condition. */
  lemma CpMet(core: Core)
    ensures ConditionMet(false, core, CP) == core.cp
  {
  }

  /** Right shift, or-ed with what left shifting pushes round. */
  function RotateRight(val: Word, n: nat): (r: Word)
    requires 0 < n < 32
  {
    ShiftRightBelow(val, n);
    OrWord(val / Pow2(n), Wrap(val * Pow2(32 - n)))
  }

  lemma ShiftRightBelow(val: Word, n: nat)
    ensures 0 <= val / Pow2(n) <= val
  {
    QuotientBelow(val, Pow2(n));
  }

  /** The barrel shifter: value and carry out. Only the low byte of the amount counts. */
  function BarrelShift(cIn: bool, shift: ShiftOp, val: Word, amount: Word): (r: (Word, bool)) {
    var by0 := amount % 256;
    if by0 == 0 then (val, cIn)
    else if by0 > 32 && shift.Lsl? then (0, false)
    else if by0 > 32 && shift.Lsr? then (0, false)
    else if by0 > 32 && shift.Asr? then (if val >= 0x8000_0000 then 0x0fff_ffff else 0, val >= 0x8000_0000)
    else
      var n := if by0 > 32 && shift.Ror? then (if by0 % 32 == 0 then 32 else by0 % 32) else by0;
      if n == 32 && shift.Lsl? then (0, val % 2 == 1)
      else if n == 32 && shift.Lsr? then (0, val >= 0x8000_0000)
      else if n == 32 && shift.Asr? then (if val >= 0x8000_0000 then 0xffff_ffff else 0, val >= 0x8000_0000)
      else if n == 32 && shift.Ror? then (val, val >= 0x8000_0000)
      else
        match shift
        case Lsl => (Wrap(val * Pow2(n)), Bit(val, 32 - n))
        case Lsr => ShiftRightBelow(val, n); (val / Pow2(n), Bit(val, n - 1))
        case Asr => (Wrap(Signed(val) / Pow2(n)), Signed(val) / Pow2(n - 1) % 2 == 1)
        case Ror => (RotateRight(val, n), Bit(val, n - 1))
        case Ror33 => (val / 2 + (if cIn then 0x8000_0000 else 0), val % 2 == 1)
  }

  datatype Sum = Sum(value: Word, c: bool, v: bool)

  /** The adder, in 16-bit halves as the C code has it. */
  function AddOp(a: Word, b: Word, cIn: bool): (s: Sum) {
    var lo := a % 0x1_0000 + b % 0x1_0000 + BitValue(cIn);
    var hi := a / 0x1_0000 + b / 0x1_0000 + lo / 0x1_0000;
    var signA := a >= 0x8000_0000;
    var signB := b >= 0x8000_0000;
    var signR := hi / 0x8000 % 2 == 1;
    Sum(hi % 0x1_0000 * 0x1_0000 + lo % 0x1_0000,
        hi / 0x1_0000 != 0,
        (signA && signB && !signR) || (!signA && !signB && signR))
  }

  /** The adder adds modulo 2^32; carry and overflow say when the unsigned and the
      signed sum do not fit. */
  lemma AddOpAdds(a: Word, b: Word, cIn: bool)
    ensures AddOp(a, b, cIn).value == Wrap(a + b + BitValue(cIn))
    ensures AddOp(a, b, cIn).c <==> a + b + BitValue(cIn) >= 0x1_0000_0000
    ensures AddOp(a, b, cIn).v <==> !(-0x8000_0000 <= Signed(a) + Signed(b) + BitValue(cIn) < 0x8000_0000)
  {
    var lo := a % 0x1_0000 + b % 0x1_0000 + BitValue(cIn);
    var hi := a / 0x1_0000 + b / 0x1_0000 + lo / 0x1_0000;
    assert a + b + BitValue(cIn) == hi * 0x1_0000 + lo % 0x1_0000;
  }

  lemma AddOpCommutes(a: Word, b: Word, cIn: bool)
    ensures AddOp(a, b, cIn) == AddOp(b, a, cIn)
  {
  }

  function ByteReversed(w: Word): (r: Word) {
    w % 0x100 * 0x100_0000 + w / 0x100 % 0x100 * 0x1_0000 + w / 0x1_0000 % 0x100 * 0x100 + w / 0x100_0000
  }

  /** The low eight bits reversed, the others kept. */
  function LowBitsReversed(w: Word): (r: Word) {
    w / 0x100 * 0x100
    + w / 0x80 % 2 + w / 0x40 % 2 * 2 + w / 0x20 % 2 * 4 + w / 0x10 % 2 * 8
    + w / 8 % 2 * 0x10 + w / 4 % 2 * 0x20 + w / 2 % 2 * 0x40 + w % 2 * 0x80
  }

  function LogicResult(op: LogicOp, op1: Word, op2: Word): (r: Word) {
    match op
    case Mov => op2
    case Mvn => Not(op2)
    case BitAnd => And(op1, op2)
    case BitOr => OrWord(op1, op2)
    case BitXor => XorWord(op1, op2)
    case BitBic => And(op1, Not(op2))
    case BitOrn => OrWord(op1, Not(op2))
    case AndXor => XorWord(And(op1, op2), op2)
    case BitReverse => LowBitsReversed(op2)
    case ByteReverse => ByteReversed(op2)
  }

  /** One radix-4 multiplication step: the multiple of op2 that the low two shifter
      bits and the pending carry select is added, and the new carry is returned. */
  function MultiplyStep(core: Core, op1: Word, op2: Word): (r: (Sum, bool)) {
    var digit := core.shf % 4 + BitValue(core.p);
    if digit == 0 then (AddOp(op1, 0, false), false)
    else if digit == 1 then (AddOp(op1, op2, false), false)
    else if digit == 2 then (AddOp(op1, Wrap(op2 * 2), false), false)
    else if digit == 3 then (AddOp(op1, Not(op2), true), true)
    else (AddOp(op1, 0, false), true)
  }

  function ArithResult(core: Core, op: ArithOp, op1: Word, op2: Word): (r: Sum) {
    match op
    case Add => AddOp(op1, op2, false)
    case Adc => AddOp(op1, op2, core.flags.c)
    case Sub => AddOp(op1, Not(op2), true)
    case Sbc => AddOp(op1, Not(op2), core.flags.c)
    case Rsb => AddOp(Not(op1), op2, true)
    case Rsc => AddOp(Not(op1), op2, core.flags.c)
    case Init => AddOp(0, op2, false)
    case Mla => MultiplyStep(core, op1, op2).0
    case Mlb => MultiplyStep(core, op1, op2).0
  }

  function SumFlags(s: Sum): (f: Flags) {
    Flags(s.value == 0, s.c, s.v, s.value >= 0x8000_0000)
  }

  /** Shifter and carry after an arithmetic operation: plain sums clear the shifter,
      INIT loads it and a multiplication step takes two bits off it. */
  function ArithShift(core: Core, op: ArithOp, op1: Word, op2: Word): (r: (Word, bool)) {
    match op
    case Init => BarrelShift(false, Lsr, op1, 0)
    case Mla => (BarrelShift(core.flags.c, Lsr, core.shf, 2).0, MultiplyStep(core, op1, op2).1)
    case Mlb => (BarrelShift(core.flags.c, Lsr, core.shf, 2).0, MultiplyStep(core, op1, op2).1)
    case _ => (0, core.p)
  }

  predicate ConditionResult(c: ConditionDest, f: Flags) {
    match c
    case ToEQ => f.z
    case ToNE => !f.z
    case ToCS => f.c
    case ToCC => !f.c
    case ToHI => f.c && !f.z
    case ToLS => !f.c || f.z
    case ToGE => (!f.n && !f.v) || (f.n && f.v)
    case ToLT => (!f.n && f.v) || (f.n && !f.v)
    case ToGT => ((!f.n && !f.v) || (f.n && f.v)) && !f.z
    case ToLE => (!f.n && f.v) || (f.n && !f.v) || f.z
  }

  /** What the ALU makes of an instruction: whether its condition passed, the first
      operand (the address of a post-indexed access), the value for the register
      file and the next ALU state. */
  datatype Outcome = Outcome(passed: bool, op1: Word, value: Word, core: Core)

  function Operand1(inst: Instruction, aIn: Word, core: Core): (w: Word) {
    if inst.rn.Acc? then core.acc else aIn
  }

  function AccessSize(size: Size): (n: Word) {
    match size
    case SizeWord => 4
    case SizeHalf => 2
    case SizeByte => 1
  }

  function Operand2(inst: Instruction, bIn: Word, core: Core): (w: Word) {
    match inst.kind
    case Store(size, _, _, offsetIsShf) => if offsetIsShf then core.shf else AccessSize(size)
    case _ =>
      if inst.rm == Register(Acc) then core.acc
      else if inst.rm == Register(Shf) then core.shf
      else bIn
  }

  /** The next condition-passed pair: a condition destination records the condition
      it computed, every other instruction records its own condition. */
  function NextCp(rd: Dest, passed: bool, sumFlags: Flags, core: Core): (r: (bool, bool)) {
    if rd.ToCondition? then (passed && ConditionResult(rd.c, sumFlags), true)
    else (passed, core.cp)
  }

  function Evaluate(trail2: bool, inst: Instruction, aIn: Word, bIn: Word, core: Core): (o: Outcome)
    ensures o.passed <==> ConditionMet(trail2, core, inst.cc)
  {
    var passed := ConditionMet(trail2, core, inst.cc);
    var op1 := Operand1(inst, aIn, core);
    var op2 := Operand2(inst, bIn, core);
    var setAcc := inst.a && passed;
    match inst.kind
    case Arith(op, s, _) =>
      var sum := ArithResult(core, op, op1, op2);
      var shift := ArithShift(core, op, op1, op2);
      var cps := NextCp(inst.rd, passed, SumFlags(sum), core);
      Outcome(passed, op1, sum.value,
              Core(if setAcc then sum.value else core.acc, shift.0,
                   if s && passed then SumFlags(sum) else core.flags, shift.1, cps.0, cps.1))
    case Logic(op, s, p) =>
      var value := LogicResult(op, op1, op2);
      var cps := NextCp(inst.rd, passed, core.flags, core);
      var c := if p && passed then core.p else core.flags.c;
      var z := if s && passed then value == 0 else core.flags.z;
      var n := if s && passed then value >= 0x8000_0000 else core.flags.n;
      Outcome(passed, op1, value,
              Core(if setAcc then value else core.acc, core.shf,
                   Flags(z, c, core.flags.v, n), core.p, cps.0, cps.1))
    case Shift(op, s) =>
      var shift := BarrelShift(core.flags.c, op, op1, op2);
      var cps := NextCp(inst.rd, passed, core.flags, core);
      Outcome(passed, op1, shift.0,
              Core(core.acc, shift.0,
                   if s && passed then Flags(shift.0 == 0, shift.1, core.flags.v, shift.0 >= 0x8000_0000)
                   else core.flags,
                   shift.1, cps.0, cps.1))
    case _ =>
      var sum := ArithResult(core, if inst.kind.up then Add else Sub, op1, op2);
      var cps := NextCp(inst.rd, passed, SumFlags(sum), core);
      Outcome(passed, op1, sum.value,
              Core(if setAcc then sum.value else core.acc, 0, core.flags, core.p, cps.0, cps.1))
  }
}
