/** Word loads and stores (ARM DDI 0100, section A5.2) and the one to three internal
    instructions they become. */
module ArmLoadStore {
  import opened Words
  import opened FlatMemory
  import opened GipInstruction
  import opened GipAlu
  import opened GipSequential
  import opened ArmOpcode
  import opened ArmShifter
  import opened ArmDataProcessing

  datatype Offset =
    | ImmediateOffset(value: Word)
    | RegisterOffset(rm: ArmReg, how: ShiftHow, amount: ShiftAmount)

  /** A word transfer at address pc. wb counts only with pre; without it the base always moves. */
  datatype Transfer = Transfer(cc: Nibble, load: bool, pre: bool, up: bool, wb: bool,
                               rn: ArmReg, rd: ArmReg, offset: Offset, pc: Word)

  // ----- the architecture -----

  function OffsetOf(t: Transfer, regs: Regs, c: bool): (w: Word) {
    match t.offset
    case ImmediateOffset(value) => value
    case RegisterOffset(rm, how, amount) => ShiftedByImmediate(c, how, ReadArm(regs, rm, t.pc), amount).0
  }

  // The address, the base, the registers and the memory after a transfer whose condition
  // passes, for the offset o. The architecture takes o from OffsetOf.

  function MovedBase(t: Transfer, regs: Regs, o: Word): (w: Word) {
    var base: int := ReadArm(regs, t.rn, t.pc);
    Wrap(if t.up then base + o else base - o)
  }

  predicate MovesBase(t: Transfer) {
    !t.pre || t.wb
  }

  function TransferAddress(t: Transfer, regs: Regs, o: Word): (w: Word) {
    if t.pre then MovedBase(t, regs, o) else ReadArm(regs, t.rn, t.pc)
  }

  function TransferRegs(t: Transfer, regs: Regs, memory: Memory, o: Word): (r: Regs) {
    var moved := if MovesBase(t) then SetReg(regs, MapDest(t.rn), MovedBase(t, regs, o)) else regs;
    if t.load then SetReg(moved, MapDest(t.rd), memory.Read(TransferAddress(t, regs, o))) else moved
  }

  function TransferMemory(t: Transfer, regs: Regs, memory: Memory, o: Word): (m: Memory) {
    if t.load then memory else memory.Write(TransferAddress(t, regs, o), ReadArm(regs, t.rd, t.pc), 15)
  }

  // ----- the expansion -----

  function Pc8(t: Transfer): (w: Word) {
    Wrap(t.pc + 8)
  }

  predicate IsShifted(t: Transfer) {
    t.offset.RegisterOffset? && !(t.offset.how.HowLsl? && t.offset.amount == 0)
  }

  /** The offset as second operand. The immediate amount of a shift is passed on as it is. */
  function OffsetOperand(t: Transfer, stale: RegNo): (o: Operand) {
    if t.offset.ImmediateOffset? then Immediate(t.offset.value, stale)
    else if IsShifted(t) then Register(Shf)
    else Register(MapSource(t.offset.rm))
  }

  function OffsetShift(t: Transfer, cc: Condition, stale: RegNo): (i: Instruction)
    requires IsShifted(t)
  {
    var shift := if t.offset.how.HowRor? && t.offset.amount == 0 then Ror33 else MapShift(t.offset.how);
    Instruction(Shift(shift, false), cc, MapSource(t.offset.rm), Immediate(t.offset.amount, stale), NoDest,
                false, false, false, Pc8(t))
  }

  function AddToBase(t: Transfer, cc: Condition, rd: Dest, stale: RegNo): (i: Instruction) {
    Instruction(Arith(if t.up then Add else Sub, false, false), cc, MapSource(t.rn), OffsetOperand(t, stale), rd,
                true, false, false, Pc8(t))
  }

  function LoadStep(t: Transfer, cc: Condition, pre: bool, up: bool, rn: Source, rm: Operand, a: bool,
                    f: bool): (i: Instruction) {
    Instruction(Load(SizeWord, up, pre), cc, rn, rm, MapDest(t.rd), a, f, false, Pc8(t))
  }

  function StoreStep(t: Transfer, cc: Condition, pre: bool, up: bool, useShf: bool, rn: Source, rd: Dest,
                     a: bool): (i: Instruction) {
    Instruction(Store(SizeWord, up, pre, useShf), cc, rn, Register(MapSource(t.rd)), rd, a, false, false, Pc8(t))
  }

  function AccToBase(t: Transfer): (i: Instruction) {
    Instruction(Logic(Mov, false, false), CP, Acc, Register(Acc), MapDest(t.rn), false, t.rd == 15, false, Pc8(t))
  }

  function ShiftFirst(t: Transfer, cc: Condition, stale: RegNo): (s: seq<Instruction>)
    ensures |s| <= 1
  {
    if IsShifted(t) then [OffsetShift(t, cc, stale)] else []
  }

  function LoadExpansion(t: Transfer, stale: RegNo): (s: seq<Instruction>) {
    var cc := MapCondition(t.cc);
    var none := Immediate(0, stale);
    ShiftFirst(t, Always, stale) +
    if t.pre && !t.wb then [LoadStep(t, cc, true, t.up, MapSource(t.rn), OffsetOperand(t, stale), true, t.rd == 15)]
    else if t.pre then
      [AddToBase(t, cc, MapDest(t.rn), stale),
       LoadStep(t, CP, false, IsShifted(t) || t.up, Acc, none, false, IsShifted(t) && t.rd == 15)]
    else
      [LoadStep(t, cc, false, t.up, MapSource(t.rn), OffsetOperand(t, stale), true, false), AccToBase(t)]
  }

  function StoreExpansion(t: Transfer, stale: RegNo): (s: seq<Instruction>) {
    var cc := MapCondition(t.cc);
    var base := if t.wb then MapDest(t.rn) else NoDest;
    if t.offset == ImmediateOffset(0) then [StoreStep(t, cc, false, true, false, MapSource(t.rn), NoDest, false)]
    else if t.pre && !IsShifted(t) then
      [AddToBase(t, cc, NoDest, stale), StoreStep(t, CP, true, t.up, true, Acc, base, true)]
    else if t.pre then [OffsetShift(t, cc, stale), StoreStep(t, CP, true, t.up, true, MapSource(t.rn), base, true)]
    else if !IsShifted(t) then
      [StoreStep(t, cc, false, false, false, MapSource(t.rn), NoDest, false), AddToBase(t, CP, MapDest(t.rn), stale)]
    else [OffsetShift(t, cc, stale), StoreStep(t, CP, false, t.up, true, MapSource(t.rn), MapDest(t.rn), true)]
  }

  function ExpandTransfer(t: Transfer, stale: RegNo): (s: seq<Instruction>) {
    if t.load then LoadExpansion(t, stale) else StoreExpansion(t, stale)
  }

  // ----- the internal instructions -----

  /** LSR #0, ASR #0 and ROR #0 mean a shift by 32 or RRX, but reach the shifter as a shift
      by nothing. */
  predicate AmountDeparts(t: Transfer) {
    IsShifted(t) && t.offset.amount == 0
  }

  /** The offset that the expansion works with. */
  function UsedOffset(t: Transfer, regs: Regs, c: bool): (w: Word) {
    if AmountDeparts(t) then ReadArm(regs, t.offset.rm, t.pc) else OffsetOf(t, regs, c)
  }

  /** The words that the wrong shift by nothing leaves as they should be. */
  predicate UnshiftedIsRight(how: ShiftHow, val: Word, c: bool) {
    match how
    case HowLsl => true
    case HowLsr => val == 0
    case HowAsr => val == 0 || val == 0xffff_ffff
    case HowRor => val == if c then 0xffff_ffff else 0
  }

  /** The transfer goes to another place than the architecture says, or leaves another base. */
  predicate TransferDeparts(t: Transfer, regs: Regs, c: bool) {
    AmountDeparts(t) && !UnshiftedIsRight(t.offset.how, ReadArm(regs, t.offset.rm, t.pc), c)
  }

  predicate SamePlaces(t: Transfer, regs: Regs, o: Word, p: Word) {
    && TransferAddress(t, regs, o) == TransferAddress(t, regs, p)
    && (MovesBase(t) ==> MovedBase(t, regs, o) == MovedBase(t, regs, p))
  }

  /** Different offsets lead to different places: to another address, or to another base. */
  lemma OffsetsTellPlaces(t: Transfer, regs: Regs, o: Word, p: Word)
    ensures SamePlaces(t, regs, o, p) <==> o == p
  {
    hide ReadArm;
    var base: int := ReadArm(regs, t.rn, t.pc);
    DifferentSums(base, o, p);
  }

  lemma DifferentSums(base: int, o: Word, p: Word)
    ensures Wrap(base + o) == Wrap(base + p) <==> o == p
    ensures Wrap(base - o) == Wrap(base - p) <==> o == p
  {
    if Wrap(base + o) == Wrap(base + p) {
      CloseAndCongruent(base + o, base + p);
    }
    if Wrap(base - o) == Wrap(base - p) {
      CloseAndCongruent(base - o, base - p);
    }
  }

  lemma CloseAndCongruent(x: int, y: int)
    requires Wrap(x) == Wrap(y) && -0x1_0000_0000 < x - y < 0x1_0000_0000
    ensures x == y
  {
    var q, p := x / 0x1_0000_0000, y / 0x1_0000_0000;
    assert x == q * 0x1_0000_0000 + Wrap(x) && y == p * 0x1_0000_0000 + Wrap(y);
  }

  /** The exact condition under which a transfer departs from the architecture. */
  lemma TransferDepartsExactly(t: Transfer, regs: Regs, c: bool)
    ensures SamePlaces(t, regs, UsedOffset(t, regs, c), OffsetOf(t, regs, c)) <==> !TransferDeparts(t, regs, c)
  {
    hide SamePlaces, ReadArm, ArmShift;
    OffsetsTellPlaces(t, regs, UsedOffset(t, regs, c), OffsetOf(t, regs, c));
    if AmountDeparts(t) {
      UnshiftedWhenRight(t.offset.how, ReadArm(regs, t.offset.rm, t.pc), c);
    }
  }

  lemma UnshiftedWhenRight(how: ShiftHow, val: Word, c: bool)
    requires !how.HowLsl?
    ensures ShiftedByImmediate(c, how, val, 0).0 == val <==> UnshiftedIsRight(how, val, c)
  {
    Pow2Values();
    hide Pow2;
  }

  /** LDR r0, [r1, r2, LSR #0] with r2 = 4 reads the word after that at r1. */
  lemma LdrWithLsrZero(regs: Regs, memory: Memory, pc: Word)
    requires regs[2] == 4 && memory.Read(regs[1]) != memory.Read(Wrap(regs[1] as int + 4))
    ensures var t := Transfer(14, true, true, true, false, 1, 0, RegisterOffset(2, HowLsr, 0), pc);
            && TransferDeparts(t, regs, false)
            && TransferRegs(t, regs, memory, UsedOffset(t, regs, false))[0] == memory.Read(Wrap(regs[1] as int + 4))
            && TransferRegs(t, regs, memory, OffsetOf(t, regs, false))[0] == memory.Read(regs[1])
  {
    Pow2Values();
    hide Pow2, Memory.Read;
    WrapOfWord(regs[1]);
  }

  lemma ShiftEffect(trail2: bool, s: Arch, t: Transfer, cc: Condition, stale: RegNo)
    requires IsShifted(t)
    ensures var u := Execute(trail2, s, OffsetShift(t, cc, stale));
            && u.regs == s.regs && u.memory == s.memory && u.log == s.log
            && u.core.flags == s.core.flags && u.core.acc == s.core.acc
            && u.core.shf == UsedOffset(t, s.regs, s.core.flags.c)
            && u.core.cp == ConditionMet(trail2, s.core, cc)
  {
    hide BarrelShift, LoadFrom, StoreTo, ConditionMet, OffsetOf, ReadArm;
    ShiftOutcome(s, t);
    var i := OffsetShift(t, cc, stale);
    assert Operand1(i, ReadSource(s.regs, i.rn, i.pc), s.core) == ReadArm(s.regs, t.offset.rm, t.pc) by {
      ShiftInputs(s, t, cc, stale);
    }
  }

  lemma ShiftInputs(s: Arch, t: Transfer, cc: Condition, stale: RegNo)
    requires IsShifted(t)
    ensures var i := OffsetShift(t, cc, stale);
            Operand1(i, ReadSource(s.regs, i.rn, i.pc), s.core) == ReadArm(s.regs, t.offset.rm, t.pc)
  {
  }

  lemma ShiftOutcome(s: Arch, t: Transfer)
    requires IsShifted(t)
    ensures var shift := if t.offset.how.HowRor? && t.offset.amount == 0 then Ror33 else MapShift(t.offset.how);
            BarrelShift(s.core.flags.c, shift, ReadArm(s.regs, t.offset.rm, t.pc), t.offset.amount).0
            == UsedOffset(t, s.regs, s.core.flags.c)
  {
    hide BarrelShift, ArmShift, ReadArm;
    if AmountDeparts(t) {
      UnshiftedWord(s.core.flags.c, if t.offset.how.HowRor? then Ror33 else MapShift(t.offset.how),
                    ReadArm(s.regs, t.offset.rm, t.pc));
    } else {
      BarrelShiftIsArm(s.core.flags.c, t.offset.how, ReadArm(s.regs, t.offset.rm, t.pc), t.offset.amount);
    }
  }

  lemma UnshiftedWord(c: bool, shift: ShiftOp, val: Word)
    ensures BarrelShift(c, shift, val, 0) == (val, c)
  {
  }

  /** The offset operand has the value o: from the shifter, if a shift came before. */
  ghost predicate Ready(s: Arch, t: Transfer, o: Word) {
    if IsShifted(t) then s.core.shf == o
    else o == match t.offset
              case ImmediateOffset(value) => value
              case RegisterOffset(rm, _, _) => ReadArm(s.regs, rm, t.pc)
  }

  lemma OperandReady(s: Arch, t: Transfer, o: Word, stale: RegNo)
    requires Ready(s, t, o)
    ensures SecondValueOf(s, t, OffsetOperand(t, stale)) == o
  {
  }

  lemma UnshiftedOffset(s: Arch, t: Transfer)
    requires !IsShifted(t)
    ensures Ready(s, t, OffsetOf(t, s.regs, s.core.flags.c))
  {
    hide Pow2;
  }

  function SecondValueOf(s: Arch, t: Transfer, rm: Operand): (w: Word) {
    if rm.Immediate? then rm.value
    else if rm.source.Shf? then s.core.shf
    else if rm.source.Acc? then s.core.acc
    else ReadSource(s.regs, rm.source, Pc8(t))
  }

  lemma AddOrSub(a: Word, b: Word, up: bool)
    ensures (if up then AddOp(a, b, false) else AddOp(a, Not(b), true)).value == Wrap(if up then a + b else a - b)
  {
    AddOpAdds(a, if up then b else Not(b), !up);
    WrapShift(a - b, 1);
    hide AddOp;
  }

  lemma AddEffect(trail2: bool, s: Arch, t: Transfer, o: Word, cc: Condition, rd: Dest, stale: RegNo)
    requires Ready(s, t, o) && (rd == NoDest || rd == MapDest(t.rn))
    ensures var u := Execute(trail2, s, AddToBase(t, cc, rd, stale));
            var passed := ConditionMet(trail2, s.core, cc);
            var moved := MovedBase(t, s.regs, o);
            && u.memory == s.memory && u.core.flags == s.core.flags && u.core.shf == 0 && u.core.cp == passed
            && (passed ==> u.core.acc == moved)
            && u.regs == if passed then SetReg(s.regs, rd, moved) else s.regs
  {
    hide Evaluate, ConditionMet, LoadFrom, StoreTo, OffsetOf, ReadArm, Operand1, Operand2, SecondInput, ReadSource,
      OffsetOperand, SecondValueOf, Wrap, SetReg;
    var i := AddToBase(t, cc, rd, stale);
    OperandReady(s, t, o, stale);
    AddInputs(s, t, cc, rd, stale);
    AddOutcome(trail2, i, ReadSource(s.regs, i.rn, i.pc), SecondInput(s.regs, i, s.bIn), s.core);
    NothingWritten(s.regs, MovedBase(t, s.regs, o));
  }

  /** What the ALU makes of a plain sum: it clears the shifter. */
  lemma AddOutcome(trail2: bool, inst: Instruction, aIn: Word, bIn: Word, core: Core)
    requires inst.kind == Arith(Add, false, false) || inst.kind == Arith(Sub, false, false)
    requires !inst.rd.ToCondition? && inst.a
    ensures var o := Evaluate(trail2, inst, aIn, bIn, core);
            var op1, op2: int := Operand1(inst, aIn, core), Operand2(inst, bIn, core);
            && o.value == Wrap(if inst.kind.arithOp.Add? then op1 + op2 else op1 - op2)
            && o.core.flags == core.flags && o.core.shf == 0 && o.core.cp == o.passed
            && o.core.acc == (if o.passed then o.value else core.acc)
  {
    AddOrSub(Operand1(inst, aIn, core), Operand2(inst, bIn, core), inst.kind.arithOp.Add?);
    hide AddOp, Wrap, ConditionMet, Operand1, Operand2;
  }

  lemma AddInputs(s: Arch, t: Transfer, cc: Condition, rd: Dest, stale: RegNo)
    ensures var i := AddToBase(t, cc, rd, stale);
            && Operand1(i, ReadSource(s.regs, i.rn, i.pc), s.core) == ReadArm(s.regs, t.rn, t.pc)
            && Operand2(i, SecondInput(s.regs, i, s.bIn), s.core) == SecondValueOf(s, t, OffsetOperand(t, stale))
  {
  }

  /** What the ALU makes of a load or store. */
  lemma AccessOutcome(trail2: bool, inst: Instruction, aIn: Word, bIn: Word, core: Core)
    requires (inst.kind.Load? || inst.kind.Store?) && !inst.rd.ToCondition?
    ensures var o := Evaluate(trail2, inst, aIn, bIn, core);
            var op1, op2: int := Operand1(inst, aIn, core), Operand2(inst, bIn, core);
            && o.op1 == op1 && o.value == Wrap(if inst.kind.up then op1 + op2 else op1 - op2)
            && o.core.flags == core.flags && o.core.cp == o.passed
            && o.core.acc == (if inst.a && o.passed then o.value else core.acc)
  {
    AddOrSub(Operand1(inst, aIn, core), Operand2(inst, bIn, core), inst.kind.up);
    hide AddOp, Wrap, ConditionMet, Operand1, Operand2;
  }

  lemma LoadEffect(trail2: bool, s: Arch, t: Transfer, cc: Condition, pre: bool, up: bool, rn: Source, rm: Operand,
                   a: bool, f: bool)
    requires rn != Shf
    ensures var u := Execute(trail2, s, LoadStep(t, cc, pre, up, rn, rm, a, f));
            var passed := ConditionMet(trail2, s.core, cc);
            var base, offset: int := SecondValueOf(s, t, Register(rn)), SecondValueOf(s, t, rm);
            var moved := Wrap(if up then base + offset else base - offset);
            && u.memory == s.memory && u.core.flags == s.core.flags && u.core.cp == passed
            && u.core.acc == (if a && passed then moved else s.core.acc)
            && (passed ==> u.log == s.log + [Write(MapDest(t.rd), s.memory.Read(if pre then moved else base))])
            && u.regs == if passed then SetReg(s.regs, MapDest(t.rd), s.memory.Read(if pre then moved else base))
                         else s.regs
  {
    hide Evaluate, ConditionMet, Execute, Operand1, Operand2, SecondInput, ReadSource, SecondValueOf, Memory.Read,
      Memory.Write, Wrap, SetReg;
    var i := LoadStep(t, cc, pre, up, rn, rm, a, f);
    var aIn, bIn := ReadSource(s.regs, i.rn, i.pc), SecondInput(s.regs, i, s.bIn);
    LoadInputs(s, t, i);
    AccessOutcome(trail2, i, aIn, bIn, s.core);
    WordAccessExecutes(trail2, s, i);
  }

  lemma LoadInputs(s: Arch, t: Transfer, i: Instruction)
    requires i.kind.Load? && i.pc == Pc8(t) && i.rn != Shf
    ensures Operand1(i, ReadSource(s.regs, i.rn, i.pc), s.core) == SecondValueOf(s, t, Register(i.rn))
    ensures Operand2(i, SecondInput(s.regs, i, s.bIn), s.core) == SecondValueOf(s, t, i.rm)
  {
  }

  lemma StoreEffect(trail2: bool, s: Arch, t: Transfer, cc: Condition, pre: bool, up: bool, useShf: bool,
                    rn: Source, rd: Dest, a: bool)
    requires rn != Shf && !rd.ToCondition?
    ensures var u := Execute(trail2, s, StoreStep(t, cc, pre, up, useShf, rn, rd, a));
            var passed := ConditionMet(trail2, s.core, cc);
            var base, offset: int := SecondValueOf(s, t, Register(rn)), if useShf then s.core.shf else 4;
            var moved := Wrap(if up then base + offset else base - offset);
            && u.core.flags == s.core.flags && u.core.cp == passed
            && u.memory == (if passed
                            then s.memory.Write(if pre then moved else base, ReadArm(s.regs, t.rd, t.pc), 15)
                            else s.memory)
            && u.regs == if passed then SetReg(s.regs, rd, moved) else s.regs
  {
    hide Evaluate, ConditionMet, Execute, Operand1, Operand2, SecondInput, ReadSource, SecondValueOf, Memory.Read,
      Memory.Write, Wrap, SetReg, ReadArm;
    var i := StoreStep(t, cc, pre, up, useShf, rn, rd, a);
    var aIn, bIn := ReadSource(s.regs, i.rn, i.pc), SecondInput(s.regs, i, s.bIn);
    StoreInputs(s, t, i, useShf);
    AccessOutcome(trail2, i, aIn, bIn, s.core);
    WordAccessExecutes(trail2, s, i);
    NothingWritten(s.regs, Evaluate(trail2, i, aIn, bIn, s.core).value);
  }

  lemma StoreInputs(s: Arch, t: Transfer, i: Instruction, useShf: bool)
    requires i.kind.Store? && i.kind.size.SizeWord? && i.kind.offsetIsShf == useShf && i.pc == Pc8(t) && i.rn != Shf
    requires i.rm == Register(MapSource(t.rd))
    ensures Operand1(i, ReadSource(s.regs, i.rn, i.pc), s.core) == SecondValueOf(s, t, Register(i.rn))
    ensures Operand2(i, SecondInput(s.regs, i, s.bIn), s.core) == if useShf then s.core.shf else 4
    ensures SecondInput(s.regs, i, s.bIn) == ReadArm(s.regs, t.rd, t.pc)
  {
  }

  lemma AccToBaseEffect(trail2: bool, s: Arch, t: Transfer)
    ensures var u := Execute(trail2, s, AccToBase(t));
            var passed := ConditionMet(trail2, s.core, CP);
            && u.memory == s.memory && u.core.flags == s.core.flags
            && u.regs == if passed then SetReg(s.regs, MapDest(t.rn), s.core.acc) else s.regs
  {
    hide ConditionMet, LoadFrom, StoreTo, ReadSource;
  }

  // ----- the expansion does what the architecture says -----

  /** What a transfer must leave behind. */
  ghost predicate Transferred(u: Arch, s: Arch, t: Transfer, o: Word) {
    && u.core.flags == s.core.flags
    && (if ArmPasses(t.cc, s.core.flags) then
          u.regs == TransferRegs(t, s.regs, s.memory, o) && u.memory == TransferMemory(t, s.regs, s.memory, o)
        else u.regs == s.regs && u.memory == s.memory)
  }

  /** The last write-back is the loaded word. */
  ghost predicate Loaded(u: Arch, s: Arch, t: Transfer, o: Word) {
    ArmPasses(t.cc, s.core.flags) ==>
      && u.log != []
      && u.log[|u.log| - 1] == Write(MapDest(t.rd), s.memory.Read(TransferAddress(t, s.regs, o)))
  }

  /** After the optional shift: the state an expansion goes on from. */
  lemma AfterShift(s: Arch, t: Transfer, stale: RegNo, rest: seq<Instruction>)
    ensures var u := if IsShifted(t) then Execute(false, s, OffsetShift(t, Always, stale)) else s;
            && ExecuteAll(false, s, ShiftFirst(t, Always, stale) + rest) == ExecuteAll(false, u, rest)
            && u.regs == s.regs && u.memory == s.memory && u.core.flags == s.core.flags
            && Ready(u, t, UsedOffset(t, s.regs, s.core.flags.c))
  {
    hide Execute, OffsetShift, OffsetOf;
    if IsShifted(t) {
      ShiftEffect(false, s, t, Always, stale);
      ExecuteFirst(false, s, OffsetShift(t, Always, stale), rest);
    } else {
      UnshiftedOffset(s, t);
      assert ShiftFirst(t, Always, stale) + rest == rest;
    }
  }

  lemma LoadsTransfer(s: Arch, t: Transfer, stale: RegNo)
    requires t.load && t.cc != 15 && (MovesBase(t) ==> t.rd != t.rn)
    ensures Transferred(ExecuteAll(false, s, LoadExpansion(t, stale)), s, t, UsedOffset(t, s.regs, s.core.flags.c))
  {
    hide Execute, UsedOffset, ReadArm, SecondValueOf, MapCondition, ConditionMet, ArmPasses, OffsetOperand, AccToBase,
      AddToBase, LoadStep;
    var o := UsedOffset(t, s.regs, s.core.flags.c);
    var cc := MapCondition(t.cc);
    var rest := if t.pre && !t.wb
                then [LoadStep(t, cc, true, t.up, MapSource(t.rn), OffsetOperand(t, stale), true, t.rd == 15)]
                else if t.pre then
                  [AddToBase(t, cc, MapDest(t.rn), stale),
                   LoadStep(t, CP, false, IsShifted(t) || t.up, Acc, Immediate(0, stale), false,
                            IsShifted(t) && t.rd == 15)]
                else
                  [LoadStep(t, cc, false, t.up, MapSource(t.rn), OffsetOperand(t, stale), true, false), AccToBase(t)];
    AfterShift(s, t, stale, rest);
    var u := if IsShifted(t) then Execute(false, s, OffsetShift(t, Always, stale)) else s;
    if t.pre && !t.wb {
      PlainLoad(u, t, o, stale);
    } else if t.pre {
      PreLoad(u, t, o, stale);
    } else {
      PostLoad(u, t, o, stale, t.pc);
    }
  }

  lemma PlainLoad(u: Arch, t: Transfer, o: Word, stale: RegNo)
    requires t.load && t.cc != 15 && t.pre && !t.wb && Ready(u, t, o)
    ensures var i := LoadStep(t, MapCondition(t.cc), true, t.up, MapSource(t.rn), OffsetOperand(t, stale), true,
                              t.rd == 15);
            Transferred(ExecuteAll(false, u, [i]), u, t, o) && Loaded(Execute(false, u, i), u, t, o)
            && (Execute(false, u, i).core.cp <==> ArmPasses(t.cc, u.core.flags))
  {
    hide Execute, OffsetOf, MapCondition, ConditionMet, ArmPasses, OffsetOperand, LoadStep, ExecuteAll, Memory.Read,
      ReadArm, SecondValueOf, SetReg, MapSource, MapDest, IsShifted, Wrap;
    BaseValue(u, t);
    var i := LoadStep(t, MapCondition(t.cc), true, t.up, MapSource(t.rn), OffsetOperand(t, stale), true, t.rd == 15);
    ConditionIsArm(false, u.core, t.cc);
    OperandReady(u, t, o, stale);
    LoadEffect(false, u, t, MapCondition(t.cc), true, t.up, MapSource(t.rn), OffsetOperand(t, stale), true, t.rd == 15);
    ExecuteOne(false, u, i);
  }

  lemma PreLoad(u: Arch, t: Transfer, o: Word, stale: RegNo)
    requires t.load && t.cc != 15 && t.pre && t.wb && t.rd != t.rn && Ready(u, t, o)
    ensures var i := AddToBase(t, MapCondition(t.cc), MapDest(t.rn), stale);
            var j := LoadStep(t, CP, false, IsShifted(t) || t.up, Acc, Immediate(0, stale), false,
                              IsShifted(t) && t.rd == 15);
            Transferred(ExecuteAll(false, u, [i, j]), u, t, o)
            && Loaded(Execute(false, Execute(false, u, i), j), u, t, o)
            && (Execute(false, u, i).core.cp <==> ArmPasses(t.cc, u.core.flags))
  {
    hide Execute, OffsetOf, MapCondition, ArmPasses, OffsetOperand, LoadStep, AddToBase, ExecuteAll, Memory.Read,
      ReadArm, MovedBase;
    var cc := MapCondition(t.cc);
    var i := AddToBase(t, cc, MapDest(t.rn), stale);
    ConditionIsArm(false, u.core, t.cc);
    AddEffect(false, u, t, o, cc, MapDest(t.rn), stale);
    var v := Execute(false, u, i);
    LoadEffect(false, v, t, CP, false, IsShifted(t) || t.up, Acc, Immediate(0, stale), false,
               IsShifted(t) && t.rd == 15);
    TwoSteps(false, u, i,
             LoadStep(t, CP, false, IsShifted(t) || t.up, Acc, Immediate(0, stale), false, IsShifted(t) && t.rd == 15));
  }

  lemma BaseValue(s: Arch, t: Transfer)
    ensures SecondValueOf(s, t, Register(MapSource(t.rn))) == ReadArm(s.regs, t.rn, t.pc) && MapSource(t.rn) != Shf
  {
  }

  lemma WritesCommute(regs: Regs, a: ArmReg, v: Word, b: ArmReg, w: Word)
    requires a != b
    ensures SetReg(SetReg(regs, MapDest(a), v), MapDest(b), w) == SetReg(SetReg(regs, MapDest(b), w), MapDest(a), v)
  {
  }

  /** The second instruction may already read another PC, if that was loaded. */
  lemma PostLoad(u: Arch, t: Transfer, o: Word, stale: RegNo, pc: Word)
    requires t.load && t.cc != 15 && !t.pre && t.rd != t.rn && Ready(u, t, o)
    ensures var i := LoadStep(t, MapCondition(t.cc), false, t.up, MapSource(t.rn), OffsetOperand(t, stale), true,
                              false);
            Transferred(ExecuteAll(false, u, [i, AccToBase(t.(pc := pc))]), u, t, o)
            && Loaded(Execute(false, u, i), u, t, o)
            && (Execute(false, u, i).core.cp <==> ArmPasses(t.cc, u.core.flags))
  {
    hide Execute, OffsetOf, MapCondition, ArmPasses, OffsetOperand, LoadStep, AccToBase, ExecuteAll, Memory.Read,
      ReadArm, SecondValueOf, SetReg, ConditionMet, MapSource, MapDest, IsShifted, Wrap;
    BaseValue(u, t);
    WritesCommute(u.regs, t.rn, MovedBase(t, u.regs, o), t.rd, u.memory.Read(TransferAddress(t, u.regs, o)));
    var i := LoadStep(t, MapCondition(t.cc), false, t.up, MapSource(t.rn), OffsetOperand(t, stale), true, false);
    ConditionIsArm(false, u.core, t.cc);
    OperandReady(u, t, o, stale);
    LoadEffect(false, u, t, MapCondition(t.cc), false, t.up, MapSource(t.rn), OffsetOperand(t, stale), true, false);
    CpMet(Execute(false, u, i).core);
    AccToBaseEffect(false, Execute(false, u, i), t.(pc := pc));
    TwoSteps(false, u, i, AccToBase(t.(pc := pc)));
  }

  lemma ZeroOffset(t: Transfer, regs: Regs)
    ensures MovedBase(t, regs, 0) == ReadArm(regs, t.rn, t.pc)
  {
    WrapOfWord(ReadArm(regs, t.rn, t.pc));
  }

  /** A store without offset has no base to move. */
  lemma PlainStore(s: Arch, t: Transfer)
    requires !t.load && t.cc != 15 && t.offset == ImmediateOffset(0) && (MovesBase(t) ==> t.rn != 15)
    ensures var i := StoreStep(t, MapCondition(t.cc), false, true, false, MapSource(t.rn), NoDest, false);
            Transferred(ExecuteAll(false, s, [i]), s, t, 0)
  {
    hide Execute, MapCondition, ArmPasses, StoreStep, ExecuteAll, Memory.Write, MovedBase;
    var i := StoreStep(t, MapCondition(t.cc), false, true, false, MapSource(t.rn), NoDest, false);
    ConditionIsArm(false, s.core, t.cc);
    ZeroOffset(t, s.regs);
    StoreEffect(false, s, t, MapCondition(t.cc), false, true, false, MapSource(t.rn), NoDest, false);
    ExecuteOne(false, s, i);
  }

  /** The address is computed by an addition, which clears the shifter, so that the store
      adds nothing to it. */
  lemma PreStore(s: Arch, t: Transfer, o: Word, stale: RegNo)
    requires !t.load && t.cc != 15 && t.pre && !IsShifted(t) && Ready(s, t, o)
    ensures var i := AddToBase(t, MapCondition(t.cc), NoDest, stale);
            var j := StoreStep(t, CP, true, t.up, true, Acc, if t.wb then MapDest(t.rn) else NoDest, true);
            Transferred(ExecuteAll(false, s, [i, j]), s, t, o)
  {
    hide Execute, OffsetOf, MapCondition, ArmPasses, OffsetOperand, StoreStep, AddToBase, ExecuteAll, Memory.Write,
      ReadArm, MovedBase;
    var i := AddToBase(t, MapCondition(t.cc), NoDest, stale);
    var base := if t.wb then MapDest(t.rn) else NoDest;
    ConditionIsArm(false, s.core, t.cc);
    AddEffect(false, s, t, o, MapCondition(t.cc), NoDest, stale);
    var v := Execute(false, s, i);
    StoreEffect(false, v, t, CP, true, t.up, true, Acc, base, true);
    TwoSteps(false, s, i, StoreStep(t, CP, true, t.up, true, Acc, base, true));
  }

  /** With a shifted offset the shift carries the condition and the store adds what is in
      the shifter. */
  lemma StoreAfterShift(v: Arch, s: Arch, t: Transfer, o: Word)
    requires !t.load && t.cc != 15 && v.regs == s.regs && v.memory == s.memory && v.core.flags == s.core.flags
    requires v.core.shf == o && (v.core.cp <==> ArmPasses(t.cc, s.core.flags))
    ensures var base := if MovesBase(t) then MapDest(t.rn) else NoDest;
            Transferred(Execute(false, v, StoreStep(t, CP, t.pre, t.up, true, MapSource(t.rn), base, true)), s, t, o)
  {
    hide Execute, ArmPasses, StoreStep, Memory.Write;
    var base := if MovesBase(t) then MapDest(t.rn) else NoDest;
    StoreEffect(false, v, t, CP, t.pre, t.up, true, MapSource(t.rn), base, true);
  }

  lemma ShiftedStore(s: Arch, t: Transfer, stale: RegNo)
    requires !t.load && t.cc != 15 && IsShifted(t)
    ensures var i := OffsetShift(t, MapCondition(t.cc), stale);
            var j := StoreStep(t, CP, t.pre, t.up, true, MapSource(t.rn),
                               if MovesBase(t) then MapDest(t.rn) else NoDest, true);
            Transferred(ExecuteAll(false, s, [i, j]), s, t, UsedOffset(t, s.regs, s.core.flags.c))
  {
    hide Execute, UsedOffset, MapCondition, ArmPasses, StoreStep, OffsetShift, ExecuteAll, Transferred;
    var i := OffsetShift(t, MapCondition(t.cc), stale);
    var base := if MovesBase(t) then MapDest(t.rn) else NoDest;
    ConditionIsArm(false, s.core, t.cc);
    ShiftEffect(false, s, t, MapCondition(t.cc), stale);
    StoreAfterShift(Execute(false, s, i), s, t, UsedOffset(t, s.regs, s.core.flags.c));
    TwoSteps(false, s, i, StoreStep(t, CP, t.pre, t.up, true, MapSource(t.rn), base, true));
  }

  lemma PostStore(s: Arch, t: Transfer, o: Word, stale: RegNo)
    requires !t.load && t.cc != 15 && !t.pre && !IsShifted(t) && Ready(s, t, o)
    ensures var i := StoreStep(t, MapCondition(t.cc), false, false, false, MapSource(t.rn), NoDest, false);
            var j := AddToBase(t, CP, MapDest(t.rn), stale);
            Transferred(ExecuteAll(false, s, [i, j]), s, t, o)
  {
    hide Execute, OffsetOf, MapCondition, ArmPasses, OffsetOperand, StoreStep, AddToBase, ExecuteAll, Memory.Write,
      MovedBase;
    var i := StoreStep(t, MapCondition(t.cc), false, false, false, MapSource(t.rn), NoDest, false);
    ConditionIsArm(false, s.core, t.cc);
    StoreEffect(false, s, t, MapCondition(t.cc), false, false, false, MapSource(t.rn), NoDest, false);
    var v := Execute(false, s, i);
    AddEffect(false, v, t, o, CP, MapDest(t.rn), stale);
    TwoSteps(false, s, i, AddToBase(t, CP, MapDest(t.rn), stale));
  }

  lemma StoresTransfer(s: Arch, t: Transfer, stale: RegNo)
    requires !t.load && t.cc != 15 && (MovesBase(t) ==> t.rn != 15)
    ensures Transferred(ExecuteAll(false, s, StoreExpansion(t, stale)), s, t, UsedOffset(t, s.regs, s.core.flags.c))
  {
    hide Execute, ExecuteAll, Transferred, OffsetShift, StoreStep, AddToBase, MapCondition;
    var o := OffsetOf(t, s.regs, s.core.flags.c);
    if t.offset == ImmediateOffset(0) {
      PlainStore(s, t);
    } else if IsShifted(t) {
      ShiftedStore(s, t, stale);
    } else if t.pre {
      UnshiftedOffset(s, t);
      PreStore(s, t, o, stale);
    } else {
      UnshiftedOffset(s, t);
      PostStore(s, t, o, stale);
    }
  }

  /** Every form of word load and store is a transfer of the architecture with the offset
      that the expansion works with, or does nothing when the condition fails. */
  lemma TransferUsesOffset(s: Arch, t: Transfer, stale: RegNo)
    requires t.cc != 15
    requires MovesBase(t) ==> t.rn != 15 && (t.load ==> t.rd != t.rn)
    ensures Transferred(ExecuteAll(false, s, ExpandTransfer(t, stale)), s, t, UsedOffset(t, s.regs, s.core.flags.c))
  {
    if t.load {
      LoadsTransfer(s, t, stale);
    } else {
      StoresTransfer(s, t, stale);
    }
    hide ExecuteAll, Transferred, LoadExpansion, StoreExpansion;
  }

  /** It uses the address, moves the data and leaves the base that the architecture says,
      unless TransferDeparts. */
  lemma TransferIsArm(s: Arch, t: Transfer, stale: RegNo)
    requires t.cc != 15 && !TransferDeparts(t, s.regs, s.core.flags.c)
    requires MovesBase(t) ==> t.rn != 15 && (t.load ==> t.rd != t.rn)
    ensures var u := ExecuteAll(false, s, ExpandTransfer(t, stale));
            var o := OffsetOf(t, s.regs, s.core.flags.c);
            && u.core.flags == s.core.flags
            && (if ArmPasses(t.cc, s.core.flags) then
                  u.regs == TransferRegs(t, s.regs, s.memory, o) && u.memory == TransferMemory(t, s.regs, s.memory, o)
                else u.regs == s.regs && u.memory == s.memory)
  {
    hide ExecuteAll, ExpandTransfer, TransferRegs, TransferMemory, ArmPasses, TransferDeparts, UsedOffset, OffsetOf,
      SamePlaces;
    TransferUsesOffset(s, t, stale);
    TransferDepartsExactly(t, s.regs, s.core.flags.c);
    OffsetsTellPlaces(t, s.regs, UsedOffset(t, s.regs, s.core.flags.c), OffsetOf(t, s.regs, s.core.flags.c));
  }
}
