/** Fields of an ARM instruction word and the condition codes. */
module ArmOpcode {
  import opened Words
  import opened GipInstruction

  function MapCondition(cc: nat): (c: Condition)
    requires cc < 16
  {
    match cc
    case 0 => EQ
    case 1 => NE
    case 2 => CS
    case 3 => CC
    case 4 => MI
    case 5 => PL
    case 6 => VS
    case 7 => VC
    case 8 => HI
    case 9 => LS
    case 10 => GE
    case 11 => LT
    case 12 => GT
    case 13 => LE
    case _ => Always
  }

  function CcField(opcode: Word): (n: nat)
    ensures n < 16
  {
    opcode / 0x1000_0000 % 16
  }

  function RegField(opcode: Word, divisor: nat): (r: ArmReg)
    requires divisor > 0
  {
    opcode / divisor % 16
  }

  predicate Flag(opcode: Word, divisor: nat)
    requires divisor > 0
  {
    opcode / divisor % 2 == 1
  }
}
