/** The ARM decoder of the full model for data-processing instructions, with its fields
    updated in place: it emits one internal instruction per cycle of the opcode. */
module ArmDecoder {
  import opened Words
  import opened GipInstruction
  import opened GipSequential
  import opened ArmOpcode
  import opened ArmShifter
  import opened ArmDataProcessing
  import opened ArmAccumulator

  function AluOpOf(n: Nibble): (op: AluOp) {
    [OpAnd, OpEor, OpSub, OpRsb, OpAdd, OpAdc, OpSbc, OpRsc,
     OpTst, OpTeq, OpCmp, OpCmn, OpOrr, OpMov, OpBic, OpMvn][n]
  }

  /** The debug opcode and shifts by register with bit 7 set are other instructions. */
  predicate IsDataProcessing(opcode: Word) {
    && opcode / 0x100 != 0xf0_0000
    && opcode / 0x400_0000 % 4 == 0
    && !(!Flag(opcode, 0x200_0000) && Flag(opcode, 0x10) && Flag(opcode, 0x80))
  }

  function OperandField(opcode: Word): (o: ShifterOperand) {
    var how := ShiftHowOf(opcode / 0x20 % 4);
    if Flag(opcode, 0x200_0000) then RotatedImmediate(RegField(opcode, 0x100), opcode % 0x100)
    else if Flag(opcode, 0x10) then ByRegister(RegField(opcode, 1), how, RegField(opcode, 0x100))
    else ByImmediate(RegField(opcode, 1), how, opcode / 0x80 % 32)
  }

  function Fields(opcode: Word, pc: Word): (i: DataProcessing) {
    DataProcessing(CcField(opcode), AluOpOf(opcode / 0x20_0000 % 16), Flag(opcode, 0x10_0000),
                   RegField(opcode, 0x1_0000), RegField(opcode, 0x1000), OperandField(opcode), pc)
  }

  /** Internal instructions of the expansion, and the one that a cycle of the opcode emits. */
  function Steps(i: DataProcessing): (n: nat)
    ensures 1 <= n == |Expand(i, 0)| <= 2
    ensures forall stale: RegNo :: |Expand(i, stale)| == n
  {
    if i.operand.RotatedImmediate? || (i.operand.ByImmediate? && i.operand.how.HowLsl? && i.operand.amount == 0)
    then 1 else 2
  }

  function StepAt(i: DataProcessing, cycle: nat): (k: nat)
    ensures k < Steps(i)
  {
    if cycle < Steps(i) then cycle else Steps(i) - 1
  }

  /** Sets every field but the register number in the operand field. */
  method BuildNop(pc: Word, stale: RegNo) returns (inst: Instruction)
    ensures inst == Instruction(Logic(Mov, false, false), Always, Acc, Immediate(0, stale), NoDest,
                                false, false, false, Wrap(pc + 8))
  {
    inst := Instruction(Logic(Mov, false, false), Always, Acc, Immediate(0, stale), NoDest,
                        false, false, false, Wrap(pc + 8));
  }

  method BuildAlu(kind: Kind, a: bool, f: bool, pc: Word, stale: RegNo) returns (inst: Instruction)
    ensures inst == Instruction(kind, Always, Acc, Immediate(0, stale), NoDest, a, f, false, Wrap(pc + 8))
  {
    inst := BuildNop(pc, stale);
    inst := inst.(kind := kind, a := a, f := f);
  }

  method BuildShift(i: DataProcessing, stale: RegNo) returns (inst: Instruction)
    requires Steps(i) == 2
    ensures inst == Expand(i, stale)[0]
  {
    hide AluStep;
    var shift := MapShift(i.operand.how);
    if i.operand.ByImmediate? && i.operand.how.HowRor? && i.operand.amount == 0 {
      shift := Ror33;
    }
    inst := BuildAlu(Shift(shift, false), false, false, i.pc, stale);
    inst := inst.(rn := MapSource(i.operand.rm));
    if i.operand.ByImmediate? {
      inst := inst.(rm := Immediate(if i.operand.amount == 0 then 32 else i.operand.amount, stale));
    } else {
      inst := inst.(rm := Register(MapSource(i.operand.rs)));
    }
  }

  method BuildStep(i: DataProcessing, rm: Operand, shifted: bool, stale: RegNo) returns (inst: Instruction)
    ensures inst == AluStep(i, rm, shifted)
  {
    var rd := MapDest(i.rd);
    var setAcc := i.cc == 14;
    if IsCompare(i.op) {
      setAcc, rd := false, NoDest;
    }
    inst := BuildAlu(InternalKind(i.op, i.s, shifted), setAcc, i.rd == 15, i.pc, stale);
    inst := inst.(cc := MapCondition(i.cc), rn := MapSource(i.rn), rm := rm, rd := rd);
  }

  /** The internal instruction of a cycle, and whether it is the last. */
  method BuildCycle(i: DataProcessing, cycle: nat, stale: RegNo) returns (inst: Instruction, last: bool)
    ensures inst == Expand(i, stale)[StepAt(i, cycle)]
    ensures last <==> StepAt(i, cycle) == Steps(i) - 1
  {
    hide AluStep, ShiftStep;
    last := true;
    if i.operand.RotatedImmediate? {
      inst := BuildStep(i, Immediate(RotateImmediate(i.operand.value, i.operand.rotate), stale), false, stale);
    } else if i.operand.ByImmediate? && i.operand.how.HowLsl? && i.operand.amount == 0 {
      inst := BuildStep(i, Register(MapSource(i.operand.rm)), false, stale);
    } else if cycle == 0 {
      inst := BuildShift(i, stale);
      last := false;
    } else {
      inst := BuildStep(i, Register(Shf), true, stale);
    }
  }

  method TrackAccumulator(i: DataProcessing, accValid: bool, regInAcc: RegNo) returns (valid: bool, reg: RegNo)
    ensures Cache(valid, reg) == Track(Cache(accValid, regInAcc), i)
  {
    var conditional := i.cc != 14;
    var rd, setAcc := MapDest(i.rd), !conditional;
    if IsCompare(i.op) {
      setAcc, rd := false, NoDest;
    }
    valid, reg := accValid, regInAcc;
    if setAcc {
      if rd.ToReg? {
        valid, reg := !conditional, rd.r;
      } else {
        valid := false;
      }
    } else if rd.ToReg? && rd.r == regInAcc {
      valid := false;
    }
  }

  /** One more instruction at the end of a program. */
  lemma {:induction false} DecodedGrows(program: seq<DataProcessing>, i: DataProcessing, stale: RegNo, cache: Cache)
    ensures CacheAfter(program + [i], cache) == Track(CacheAfter(program, cache), i)
    ensures StaleAfter(program + [i], stale, cache)
            == StaleAfterOne(i, StaleAfter(program, stale, cache), CacheAfter(program, cache))
    ensures Decoded(program + [i], stale, cache)
            == Decoded(program, stale, cache)
                + DecodedOne(i, StaleAfter(program, stale, cache), CacheAfter(program, cache))
    decreases |program|
  {
    hide Expand, Track, DecodedOne, StaleAfterOne;
    if program == [] {
      assert [i][1..] == [] && program + [i] == [i];
      assert DecodedOne(i, stale, cache) + [] == DecodedOne(i, stale, cache);
    } else {
      assert (program + [i])[1..] == program[1..] + [i];
      DecodedGrows(program[1..], i, StaleAfterOne(program[0], stale, cache), Track(cache, program[0]));
    }
  }

  /** What the decoder has kept from the instructions it has finished; left is the number
      in the operand field at the start. */
  ghost function CacheOf(done: seq<DataProcessing>): (c: Cache) {
    CacheAfter(done, Cache(false, 0))
  }

  ghost function StaleOf(done: seq<DataProcessing>, left: RegNo): (r: RegNo) {
    StaleAfter(done, left, Cache(false, 0))
  }

  /** What has been emitted once the first steps of an instruction are out. */
  ghost function EmittedBy(done: seq<DataProcessing>, i: DataProcessing, steps: nat, left: RegNo): (e: seq<Instruction>)
    requires steps <= Steps(i)
  {
    Decoded(done, left, Cache(false, 0)) + DecodedOne(i, StaleOf(done, left), CacheOf(done))[..steps]
  }

  lemma EmitStep(done: seq<DataProcessing>, i: DataProcessing, step: nat, left: RegNo, next: DataProcessing)
    requires step < Steps(i)
    ensures var stale := StaleOf(done, left);
            var e := EmittedBy(done, i, step, left) + [DecodedOne(i, stale, CacheOf(done))[step]];
            && (step + 1 < Steps(i) ==> e == EmittedBy(done, i, step + 1, left))
            && (step + 1 == Steps(i) ==>
                  && e == EmittedBy(done + [i], next, 0, left)
                  && StaleOf(done + [i], left) == StaleAfterOne(i, stale, CacheOf(done))
                  && CacheOf(done + [i]) == Track(CacheOf(done), i))
  {
    hide Expand, Track, Decoded, CacheAfter, StaleAfter, StaleAfterOne;
    var insts := DecodedOne(i, StaleOf(done, left), CacheOf(done));
    assert insts[..step] + [insts[step]] == insts[..step + 1];
    DecodedGrows(done, i, left, Cache(false, 0));
    assert insts[..|insts|] == insts;
  }

  /** Building a step with the number held in the operand field gives the same instruction
      as with the number the finished instructions have left there. */
  ghost predicate Settled(i: DataProcessing, step: nat, held: RegNo, stale: RegNo)
    requires step < Steps(i)
  {
    Expand(i, held)[step] == Expand(i, stale)[step]
  }

  /** A step that is built again, and the second step of an instruction, are settled. */
  lemma StaysSettled(i: DataProcessing, step: nat, held: RegNo, stale: RegNo, cache: Cache)
    requires step < Steps(i) && Settled(i, step, held, stale)
    ensures var inst := DecodedOne(i, held, cache)[step];
            && inst == DecodedOne(i, stale, cache)[step]
            && Settled(i, step, LeftOver(inst.rm), stale)
            && (step + 1 < Steps(i) ==> Settled(i, step + 1, LeftOver(inst.rm), stale))
            && (step + 1 == Steps(i) ==> LeftOver(inst.rm) == StaleAfterOne(i, stale, cache))
  {
    hide InternalKind, FromAcc, MapSource, MapDest, MapCondition, RotateImmediate;
  }

  class Decoder {
    // state
    var opcode: Word
    var pc: Word
    var cycleOfOpcode: nat
    var accValid: bool
    var regInAcc: RegNo

    // outputs of a decode
    var inst: Instruction
    var instValid: bool
    var nextPc: Word
    var nextCycleOfOpcode: nat
    var nextAccValid: bool
    var nextRegInAcc: RegNo

    // what was handed on so far: finished instructions, and everything emitted
    ghost var done: seq<DataProcessing>
    ghost var emitted: seq<Instruction>

    // the number in the operand field at the start
    ghost var left: RegNo

    function CacheNow(): (c: Cache)
      reads `accValid, `regInAcc
    {
      Cache(accValid, regInAcc)
    }

    /** The register number in the operand field of the instruction built last. */
    function Held(): (r: RegNo)
      reads `inst
    {
      LeftOver(inst.rm)
    }

    /** Emits one step of the expansion, and keeps track of the register in the accumulator. */
    method DecodeArmAlu() returns (decoded: bool)
      modifies `inst, `nextPc, `nextCycleOfOpcode, `nextAccValid, `nextRegInAcc
      ensures decoded <==> IsDataProcessing(opcode)
      ensures var i := Fields(opcode, pc);
              decoded ==>
                && inst == Expand(i, old(Held()))[StepAt(i, cycleOfOpcode)]
                && (if StepAt(i, cycleOfOpcode) == Steps(i) - 1 then
                      nextCycleOfOpcode == 0 && nextPc == Wrap(pc + 4)
                      && Cache(nextAccValid, nextRegInAcc) == Track(CacheNow(), i)
                    else
                      nextCycleOfOpcode == old(nextCycleOfOpcode) && nextPc == old(nextPc)
                      && Cache(nextAccValid, nextRegInAcc) == CacheNow())
    {
      hide Fields, IsDataProcessing, Expand, Steps, StepAt, Track, Wrap;
      decoded := IsDataProcessing(opcode);
      if decoded {
        var last;
        var i := Fields(opcode, pc);
        inst, last := BuildCycle(i, cycleOfOpcode, Held());
        if last {
          nextAccValid, nextRegInAcc := TrackAccumulator(i, accValid, regInAcc);
          nextCycleOfOpcode, nextPc := 0, Wrap(pc + 4);
        } else {
          nextAccValid, nextRegInAcc := accValid, regInAcc;
        }
      }
    }

    /** The ARM half of a decode cycle: the step, with reads of the copied register turned
        into reads of the accumulator. */
    method DecodeCycle()
      modifies `inst, `instValid, `nextPc, `nextCycleOfOpcode, `nextAccValid, `nextRegInAcc
      ensures instValid <==> IsDataProcessing(opcode)
      ensures var i := Fields(opcode, pc);
              var last := StepAt(i, cycleOfOpcode) == Steps(i) - 1;
              instValid ==>
                && inst == DecodedOne(i, old(Held()), CacheNow())[StepAt(i, cycleOfOpcode)]
                && nextCycleOfOpcode == (if last then 0 else cycleOfOpcode + 1)
                && nextPc == (if last then Wrap(pc + 4) else pc)
                && Cache(nextAccValid, nextRegInAcc) == (if last then Track(CacheNow(), i) else CacheNow())
    {
      hide Fields, IsDataProcessing, Expand, Steps, StepAt, Track, Wrap;
      nextAccValid, nextRegInAcc := false, regInAcc;
      nextPc := pc;
      nextCycleOfOpcode := cycleOfOpcode + 1;
      inst := BuildNop(pc, Held());
      instValid := DecodeArmAlu();
      if inst.rn == Reg(regInAcc) && accValid {
        inst := inst.(rn := Acc);
      }
      if inst.rm.Register? && inst.rm.source == Reg(regInAcc) && accValid {
        inst := inst.(rm := Register(Acc));
      }
    }

    /** The decoder has emitted exactly the decoded program so far, its cache is that of the
        finished instructions, and the number in its operand field is theirs as far as the
        next step reads it. */
    ghost predicate Valid()
      reads this
    {
      && IsDataProcessing(opcode) && cycleOfOpcode < Steps(Fields(opcode, pc))
      && CacheNow() == CacheOf(done)
      && Settled(Fields(opcode, pc), cycleOfOpcode, Held(), StaleOf(done, left))
      && emitted == EmittedBy(done, Fields(opcode, pc), cycleOfOpcode, left)
    }

    /** The operand field of a new decoder holds any number. */
    constructor (start: Word, first: Word, left: RegNo)
      requires IsDataProcessing(first)
      ensures Valid() && emitted == [] && done == [] && this.left == left
    {
      hide Steps, Fields, Expand;
      opcode, pc, cycleOfOpcode, accValid, regInAcc := first, start, 0, false, 0;
      inst := Instruction(Logic(Mov, false, false), Always, Acc, Immediate(0, left), NoDest, false, false, false, 0);
      instValid, nextPc, nextCycleOfOpcode, nextAccValid, nextRegInAcc := false, 0, 0, false, 0;
      done, emitted, this.left := [], [], left;
    }

    /** One clock. When the register stage takes the instruction the decoder moves on;
        fetched is the word at the next address. */
    method Clock(accepting: bool, fetched: Word)
      requires Valid() && IsDataProcessing(fetched)
      requires cycleOfOpcode < Steps(Fields(opcode, pc)) - 1 ==> fetched == opcode
      modifies this
      ensures Valid() && left == old(left)
      ensures !accepting ==> emitted == old(emitted) && done == old(done)
      ensures accepting ==> emitted == old(emitted) + [inst] && instValid
      ensures pc == (if done == old(done) then old(pc) else Wrap(old(pc) + 4))
      ensures done == (if accepting && old(cycleOfOpcode) == Steps(Fields(old(opcode), old(pc))) - 1
                       then old(done) + [Fields(old(opcode), old(pc))] else old(done))
    {
      hide Fields, IsDataProcessing, Expand, Steps, Track, Wrap, EmittedBy, CacheOf, StaleOf, DecodedOne, Settled,
        LeftOver, StaleAfterOne;
      ghost var i, stale := Fields(opcode, pc), StaleOf(done, left);
      StaysSettled(i, cycleOfOpcode, Held(), stale, CacheNow());
      DecodeCycle();
      if accepting {
        EmitStep(done, i, cycleOfOpcode, left, Fields(fetched, nextPc));
        emitted := emitted + [inst];
        if cycleOfOpcode == Steps(i) - 1 {
          done := done + [i];
          SameIsSettled(Fields(fetched, nextPc), Held());
        }
        pc, cycleOfOpcode := nextPc, nextCycleOfOpcode;
        accValid, regInAcc := nextAccValid, nextRegInAcc;
        opcode := fetched;
      }
    }
  }

  lemma SameIsSettled(i: DataProcessing, stale: RegNo)
    ensures Settled(i, 0, stale, stale)
  {
    hide Expand;
  }
}
