/** The internal instructions of the GIP (gip_instructions.h). */
module GipInstruction {
  import opened Words

  type RegNo = n: nat | n < 32

  datatype ArithOp = Add | Adc | Sub | Sbc | Rsb | Rsc | Init | Mla | Mlb

  datatype LogicOp = BitAnd | BitOr | BitXor | BitOrn | BitBic | Mov | Mvn | AndXor | BitReverse | ByteReverse

  datatype ShiftOp = Lsl | Lsr | Asr | Ror | Ror33

  datatype Size = SizeWord | SizeHalf | SizeByte

  /** Class, subclass and the options of that class. */
  datatype Kind =
    | Arith(arithOp: ArithOp, s: bool, p: bool)
    | Logic(logicOp: LogicOp, s: bool, p: bool)
    | Shift(shiftOp: ShiftOp, s: bool)
    | Load(size: Size, up: bool, preindex: bool)
    | Store(size: Size, up: bool, preindex: bool, offsetIsShf: bool)

  datatype Condition = EQ | NE | CS | CC | MI | PL | VS | VC | HI | LS | GE | LT | GT | LE | Always | CP

  datatype Source = Reg(r: RegNo) | Acc | Shf | Pc

  /** The second operand. The immediate shares its storage with the register
      description, so the register number last written there stays behind. */
  datatype Operand = Immediate(value: Word, stale: RegNo) | Register(source: Source)

  /** The register number in the storage of the operand (gip_ins_rnm_int for the others). */
  function LeftOver(rm: Operand): (r: RegNo) {
    match rm
    case Immediate(_, stale) => stale
    case Register(Reg(r)) => r
    case Register(Pc) => 16
    case Register(Shf) => 24
    case Register(Acc) => 25
  }

  datatype ConditionDest = ToEQ | ToNE | ToCS | ToCC | ToHI | ToLS | ToGE | ToLT | ToGT | ToLE

  datatype Dest =
    NoDest | ToReg(r: RegNo) | ToCondition(c: ConditionDest) | ToPc | ToSpecial(r: RegNo) | ToPostbus(r: RegNo)

  /** a: set the accumulator; f: flush younger instructions if the condition
      passes; d: delay slot instruction; pc: value a read of the PC delivers. */
  datatype Instruction = Instruction(kind: Kind, cc: Condition, rn: Source, rm: Operand, rd: Dest,
                                     a: bool, f: bool, d: bool, pc: Word)

  predicate IsMlb(inst: Instruction) {
    inst.kind.Arith? && inst.kind.arithOp.Mlb?
  }

  /** Only the adder computes the flags that a condition destination selects from. */
  predicate ConditionFromAdder(inst: Instruction) {
    inst.rd.ToCondition? ==> !inst.kind.Logic? && !inst.kind.Shift?
  }

  // ----- ARM registers and conditions -----

  type ArmReg = n: nat | n < 16

  function MapSource(r: ArmReg): (s: Source) {
    if r == 15 then Pc else Reg(r)
  }

  function MapDest(r: ArmReg): (d: Dest) {
    if r == 15 then ToPc else ToReg(r)
  }
}
