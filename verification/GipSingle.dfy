/** The single-step model: each ARM instruction runs its internal instructions to
    completion, one after the other, on fields that are updated in place. */
module GipSingle {
  import opened Words
  import opened FlatMemory
  import opened GipInstruction
  import opened GipAlu
  import opened GipSequential
  import opened ArmOpcode
  import opened ArmShifter
  import opened ArmDataProcessing
  import opened ArmBranch
  import opened ArmLoadStore
  import opened ArmMultiply
  import opened ArmBlockTransfer

  /** Flush request and PC write of an internal instruction. */
  datatype Results = Results(flush: bool, writePc: bool, rfwData: Word)

  predicate IsMultiply(opcode: Word) {
    opcode / 0x40_0000 % 64 == 0 && opcode / 16 % 16 == 9 && CcField(opcode) != 15
  }

  predicate IsBlockTransfer(opcode: Word) {
    opcode / 0x200_0000 % 8 == 4
  }

  type RegFlags = s: seq<bool> | |s| == 16 witness seq(16, i => false)

  function ListField(opcode: Word): (flags: RegFlags) {
    seq(16, i requires 0 <= i < 16 => Bit(opcode, i))
  }

  /** Registers from j upwards that are in the list, in ascending order. */
  function RegList(flags: RegFlags, j: nat): (list: seq<ArmReg>)
    requires j <= 16
    ensures |list| <= 16 - j
    decreases 16 - j
  {
    if j == 16 then [] else if flags[j] then [j as ArmReg] + RegList(flags, j + 1) else RegList(flags, j + 1)
  }

  /** The list is ascending and has exactly the flagged registers. */
  lemma {:induction false} RegListOrdered(flags: RegFlags, j: nat)
    requires j <= 16
    ensures Ascending(RegList(flags, j))
    ensures forall r: ArmReg :: r in RegList(flags, j) <==> j <= r && flags[r]
    decreases 16 - j
  {
    if j < 16 {
      RegListOrdered(flags, j + 1);
      var rest := RegList(flags, j + 1);
      assert forall k | 0 <= k < |rest| :: rest[k] in rest;
    }
  }

  lemma PcComesLast(flags: RegFlags)
    ensures forall i | 0 <= i < |RegList(flags, 0)| - 1 :: RegList(flags, 0)[i] != 15
  {
    RegListOrdered(flags, 0);
    var list := RegList(flags, 0);
    forall i | 0 <= i < |list| - 1 ensures list[i] != 15 {
      assert list[i] < list[i + 1];
    }
  }

  lemma {:induction false} RegListSkips(flags: RegFlags, a: nat, b: nat)
    requires a <= b <= 16 && forall j | a <= j < b :: !flags[j]
    ensures RegList(flags, a) == RegList(flags, b)
    decreases b - a
  {
    if a < b {
      RegListSkips(flags, a + 1, b);
    }
  }

  lemma {:induction false} RegListSame(f: RegFlags, g: RegFlags, j: nat)
    requires j <= 16 && forall k | j <= k < 16 :: f[k] == g[k]
    ensures RegList(f, j) == RegList(g, j)
    decreases 16 - j
  {
    if j < 16 {
      RegListSame(f, g, j + 1);
    }
  }

  /** Taking the lowest register off a list. */
  lemma TakeLowest(flags: RegFlags, j: nat)
    requires j < 16 && flags[j] && forall k | 0 <= k < j :: !flags[k]
    ensures RegList(flags, 0) == [j as ArmReg] + RegList(flags[j := false], 0)
  {
    RegListSkips(flags, 0, j);
    RegListSkips(flags[j := false], 0, j + 1);
    RegListSame(flags, flags[j := false], j + 1);
  }

  method LowestRegister(flags: RegFlags) returns (j: ArmReg, rest: RegFlags)
    requires RegList(flags, 0) != []
    ensures RegList(flags, 0) == [j] + RegList(rest, 0)
  {
    var k := 0;
    while k < 16 && !flags[k]
      invariant 0 <= k <= 16
      invariant forall i | 0 <= i < k :: !flags[i]
    {
      k := k + 1;
    }
    if k == 16 {
      RegListSkips(flags, 0, 16);
      assert false;
    }
    TakeLowest(flags, k);
    j, rest := k, flags[k := false];
  }

  method CountRegisters(flags: RegFlags) returns (n: nat)
    ensures n == |RegList(flags, 0)|
  {
    n := 0;
    var i := 0;
    while i < 16
      invariant 0 <= i <= 16
      invariant n + |RegList(flags, i)| == |RegList(flags, 0)|
    {
      if flags[i] {
        n := n + 1;
      }
      i := i + 1;
    }
  }

  /** Registers changed by the write-backs that were logged, and by nothing else. */
  ghost predicate Explained(regs0: Regs, log0: seq<Write>, regs: Regs, log: seq<Write>) {
    log0 <= log && regs == ApplyWrites(regs0, log[|log0|..])
  }

  lemma ExecuteExplains(s: Arch, inst: Instruction)
    ensures var t := Execute(false, s, inst); Explained(s.regs, s.log, t.regs, t.log)
  {
    hide Execute;
    ExecuteLogs(false, s, inst);
  }

  lemma ExplainedRefl(regs: Regs, log: seq<Write>)
    ensures Explained(regs, log, regs, log)
  {
    assert log[|log|..] == [];
  }

  lemma ExplainedChain(r0: Regs, l0: seq<Write>, r1: Regs, l1: seq<Write>, r2: Regs, l2: seq<Write>)
    requires Explained(r0, l0, r1, l1) && Explained(r1, l1, r2, l2)
    ensures Explained(r0, l0, r2, l2)
  {
    ApplyWritesSplits(r0, l1[|l0|..], l2[|l1|..]);
    assert l2[|l0|..] == l1[|l0|..] + l2[|l1|..];
  }

  /** A single logged write-back, or none. */
  lemma ExplainedByOne(r0: Regs, l0: seq<Write>, r1: Regs, l1: seq<Write>)
    requires Explained(r0, l0, r1, l1)
    ensures l1 == l0 ==> r1 == ApplyWrites(r0, [])
    ensures forall w :: l1 == l0 + [w] ==> r1 == ApplyWrites(r0, [w])
  {
    assert l1 == l0 ==> l1[|l0|..] == [];
    assert forall w :: l1 == l0 + [w] ==> l1[|l0|..] == [w];
  }

  lemma LoadWritesOfNone(memory: Memory, address: Word)
    ensures LoadWrites(memory, [], address) == []
  {
  }

  lemma {:induction false} LoadWritesAppend(memory: Memory, list: seq<ArmReg>, r: ArmReg, address: Word)
    ensures LoadWrites(memory, list + [r], address)
            == LoadWrites(memory, list, address) + [Write(MapDest(r), memory.Read(Wrap(address + 4 * |list|)))]
    decreases |list|
  {
    hide Wrap, Memory.Read;
    if list == [] {
      WrapOfWord(address);
      assert [r][1..] == [];
    } else {
      WrapPlus(address + 4, 4 * (|list| - 1));
      LoadWritesAppend(memory, list[1..], r, Wrap(address + 4));
      assert (list + [r])[1..] == list[1..] + [r];
    }
  }

  lemma {:induction false} StoredAppend(memory: Memory, regs: Regs, list: seq<ArmReg>, r: ArmReg, address: Word,
                                        pc: Word)
    ensures StoredMemory(memory, regs, list + [r], address, pc)
            == StoredMemory(memory, regs, list, address, pc)
                 .Write(Wrap(address + 4 * |list|), ReadSource(regs, MapSource(r), pc), 15)
    decreases |list|
  {
    hide Wrap, Memory.Write, ReadSource;
    if list == [] {
      WrapOfWord(address);
      assert [r][1..] == [];
    } else {
      WrapPlus(address + 4, 4 * (|list| - 1));
      var m := memory.Write(address, ReadSource(regs, MapSource(list[0]), pc), 15);
      StoredAppend(m, regs, list[1..], r, Wrap(address + 4), pc);
      assert (list + [r])[1..] == list[1..] + [r];
    }
  }

  /** The i-th access of a chain: the word it uses, the accumulator after it, and
      what it adds to the writes so far. */
  lemma NextLoad(m: Mode, memory: Memory, list: seq<ArmReg>, i: nat, low: Word, log0: seq<Write>)
    requires i < |list|
    ensures ChainStart(m, Wrap(low + 4 * i)) == Wrap(ChainStart(m, low) + 4 * i)
    ensures Wrap(Wrap(low + 4 * i) + 4) == Wrap(low + 4 * (i + 1))
    ensures log0 + LoadWrites(memory, list[..i + 1], ChainStart(m, low))
            == log0 + LoadWrites(memory, list[..i], ChainStart(m, low))
               + [Write(MapDest(list[i]), memory.Read(Wrap(ChainStart(m, low) + 4 * i)))]
  {
    hide Wrap, LoadWrites, Memory.Read;
    NextAddress(m, low, i);
    LoadWritesAppend(memory, list[..i], list[i], ChainStart(m, low));
    assert list[..i + 1] == list[..i] + [list[i]];
  }

  lemma NextStore(m: Mode, memory: Memory, regs: Regs, list: seq<ArmReg>, i: nat, low: Word, pc: Word)
    requires i < |list|
    ensures ChainStart(m, Wrap(low + 4 * i)) == Wrap(ChainStart(m, low) + 4 * i)
    ensures Wrap(Wrap(low + 4 * i) + 4) == Wrap(low + 4 * (i + 1))
    ensures StoredMemory(memory, regs, list[..i + 1], ChainStart(m, low), pc)
            == StoredMemory(memory, regs, list[..i], ChainStart(m, low), pc)
                 .Write(Wrap(ChainStart(m, low) + 4 * i), ReadSource(regs, MapSource(list[i]), pc), 15)
  {
    hide Wrap, StoredMemory, Memory.Write, ReadSource;
    NextAddress(m, low, i);
    StoredAppend(memory, regs, list[..i], list[i], ChainStart(m, low), pc);
    assert list[..i + 1] == list[..i] + [list[i]];
  }

  lemma NextAddress(m: Mode, low: Word, i: nat)
    ensures ChainStart(m, Wrap(low + 4 * i)) == Wrap(ChainStart(m, low) + 4 * i)
    ensures Wrap(Wrap(low + 4 * i) + 4) == Wrap(low + 4 * (i + 1))
  {
    WrapPlus(low + 4 * i, 4);
    WrapPlus(low + 4, 4 * i);
  }

  /** Base write, loads and final base write, put together. */
  lemma AssembleLoads(m: Mode, memory: Memory, base: Word, list: seq<ArmReg>, low: Word, log: seq<Write>)
    requires low == if m.up then base else Wrap(base - 4 * |list|)
    ensures ChainStart(m, low) == StartAddress(m, base, |list|)
    ensures var baseWrite := [Write(MapDest(m.rn), FinalBase(m, base, |list|))];
            var log0 := if m.wb && !m.up then log + baseWrite else log;
            var log1 := log0 + LoadWrites(memory, list, ChainStart(m, low));
            log + LoadMultipleWrites(m, memory, base, list) == if m.wb && m.up then log1 + baseWrite else log1
  {
    hide Wrap, LoadWrites;
    if !m.up {
      WrapPlus(base - 4 * |list|, 4);
    }
  }

  predicate IsAsr(inst: Instruction) {
    inst.kind.Shift? && inst.kind.shiftOp.Asr?
  }

  /** The shifts that the ARM translation uses here. */
  predicate ShiftsByConstant(inst: Instruction) {
    inst.rd.NoDest? && !inst.rn.Acc? && inst.rm.Immediate? && inst.rm.value <= 32
  }

  /** ASR shifts in zeros in this model, and the sign of a word shifted by 32 is cut to 28
      bits; the carry is that of an arithmetic shift. */
  function SingleAsr(next: Core, inst: Instruction, val: Word, n: Word): (c: Core)
    requires inst.kind.Shift?
    ensures inst.kind.s && next.cp ==> (c.flags.z <==> c.shf == 0) && (c.flags.n <==> Signed(c.shf) < 0)
  {
    ShiftRightBelow(val, n);
    var shf := if n < 32 then val / Pow2(n) else if val >= 0x8000_0000 then 0x0fff_ffff else 0;
    var flags := if inst.kind.s && next.cp then next.flags.(z := shf == 0, n := shf >= 0x8000_0000) else next.flags;
    next.(shf := shf, flags := flags)
  }

  /** The end of an internal instruction: at most one of the ALU and the memory result goes
      to the register file or to the PC. */
  method WriteResults(inst: Instruction, passed: bool, value: Word, memResult: Word, regs: Regs)
    returns (results: Results, written: Regs, ghost w: seq<Write>)
    ensures results.flush == (passed && inst.f) && results.writePc == (passed && inst.rd.ToPc?)
    ensures var data := if inst.kind.Load? then memResult else value;
            && written == (if passed && inst.rd != NoDest then SetReg(regs, inst.rd, data) else regs)
            && w == (if passed && inst.rd != NoDest then [Write(inst.rd, data)] else [])
            && (results.writePc ==> results.rfwData == data)
  {
    var flush, aluRd, memRd := inst.f, NoDest, NoDest;
    if inst.kind.Load? {
      memRd := inst.rd;
    } else {
      aluRd := inst.rd;
    }
    if !passed {
      flush, aluRd, memRd := false, NoDest, NoDest;
    }
    var rfwData, writePc := value, false;
    written := regs;
    if aluRd.ToReg? {
      written := written[aluRd.r := value];
    }
    if aluRd.ToPc? {
      writePc := true;
    }
    if memRd.ToReg? {
      rfwData := memResult;
      written := written[memRd.r := memResult];
    }
    if memRd.ToPc? {
      rfwData := memResult;
      writePc := true;
    }
    w := if memRd != NoDest then [Write(memRd, memResult)] else if aluRd != NoDest then [Write(aluRd, value)] else [];
    results := Results(flush, writePc, rfwData);
  }

  lemma PreviousInputIgnored(s: Arch, inst: Instruction, aIn: Word, bIn: Word)
    ensures ExecuteAlu(false, s, inst, aIn, bIn) == ExecuteAlu(false, s.(bIn := bIn), inst, aIn, bIn)
  {
    hide Evaluate, LoadFrom, StoreTo;
  }

  /** The ALU, memory and write-back part of an internal instruction. */
  method ExecuteOperands(inst: Instruction, regs: Regs, memory: Memory, core: Core, aIn: Word, bIn: Word,
                         ghost log: seq<Write>)
    returns (results: Results, regs': Regs, memory': Memory, core': Core, ghost log': seq<Write>)
    requires !inst.rd.ToCondition? && (inst.kind.Shift? ==> ShiftsByConstant(inst))
    ensures var t := ExecuteAlu(false, Arch(regs, memory, core, bIn, log), inst, aIn, bIn);
            && Arch(regs', memory', core', bIn, log') == t.(core := core')
            && core' == (if IsAsr(inst) then SingleAsr(t.core, inst, aIn, bIn) else t.core)
    ensures results.flush == (inst.f && ConditionMet(false, core, inst.cc))
    ensures results.writePc == (inst.rd.ToPc? && ConditionMet(false, core, inst.cc))
    ensures results.writePc ==> log' != [] && log'[|log'| - 1] == Write(ToPc, results.rfwData)
  {
    hide Evaluate, LoadFrom, StoreTo, ConditionMet, SetReg, SingleAsr;
    var passed := ConditionMet(false, core, inst.cc);
    var o := Evaluate(false, inst, aIn, bIn, core);
    var memResult := 0;
    memory' := memory;
    if passed && inst.kind.Load? {
      memResult := LoadFrom(memory, inst.kind.size, AccessAddress(inst, o));
    } else if passed && inst.kind.Store? {
      memory' := StoreTo(memory, inst.kind.size, AccessAddress(inst, o), bIn);
    }
    core' := if IsAsr(inst) then SingleAsr(o.core, inst, aIn, bIn) else o.core;
    ghost var w: seq<Write>;
    results, regs', w := WriteResults(inst, passed, o.value, memResult, regs);
    log' := if w == [] then log else log + w;
  }

  predicate IsTransfer(opcode: Word) {
    opcode / 0x400_0000 % 4 == 1 && !(Flag(opcode, 0x200_0000) && Flag(opcode, 0x10))
  }

  function TransferOf(opcode: Word, pc: Word): (t: Transfer) {
    var how := ShiftHowOf(opcode / 0x20 % 4);
    var offset := if Flag(opcode, 0x200_0000) then RegisterOffset(RegField(opcode, 1), how, opcode / 0x80 % 32)
                  else ImmediateOffset(opcode % 0x1000);
    Transfer(CcField(opcode), Flag(opcode, 0x10_0000), Flag(opcode, 0x100_0000), Flag(opcode, 0x80_0000),
             Flag(opcode, 0x20_0000), RegField(opcode, 0x1_0000), RegField(opcode, 0x1000), offset, pc)
  }

  lemma TransferPc(opcode: Word, pc: Word)
    ensures TransferOf(opcode, pc).pc == pc
  {
  }

  /** Transfers that the architecture allows: it forbids moving the PC as a base, or a base
      that is loaded as well. */
  predicate LdStOk(t: Transfer) {
    t.cc != 15 && (MovesBase(t) ==> t.rn != 15 && (t.load ==> t.rd != t.rn))
  }

  predicate ShiftsAsr(t: Transfer) {
    IsShifted(t) && t.offset.how.HowAsr? && t.offset.amount > 0
  }

  /** The offset that this model works with: ASR shifts in zeros. */
  function SingleOffset(t: Transfer, regs: Regs, c: bool): (w: Word) {
    if ShiftsAsr(t) then
      var val := ReadArm(regs, t.offset.rm, t.pc);
      ShiftRightBelow(val, t.offset.amount);
      val / Pow2(t.offset.amount)
    else UsedOffset(t, regs, c)
  }

  /** The transfers that this model gets wrong: those of both models, and ASR of a negative word. */
  predicate SingleDeparts(t: Transfer, regs: Regs, c: bool) {
    TransferDeparts(t, regs, c) || (ShiftsAsr(t) && ReadArm(regs, t.offset.rm, t.pc) >= 0x8000_0000)
  }

  /** The exact condition under which a transfer departs from the architecture here. */
  lemma SingleDepartsExactly(t: Transfer, regs: Regs, c: bool)
    ensures SamePlaces(t, regs, SingleOffset(t, regs, c), OffsetOf(t, regs, c)) <==> !SingleDeparts(t, regs, c)
    ensures !SingleDeparts(t, regs, c) ==> SingleOffset(t, regs, c) == OffsetOf(t, regs, c)
  {
    hide SamePlaces, ReadArm, ArmShift, Pow2, TransferDeparts, UsedOffset;
    TransferDepartsExactly(t, regs, c);
    OffsetsTellPlaces(t, regs, SingleOffset(t, regs, c), OffsetOf(t, regs, c));
    if ShiftsAsr(t) {
      AsrOfPositive(c, ReadArm(regs, t.offset.rm, t.pc), t.offset.amount);
      assert !TransferDeparts(t, regs, c) by { AsrIsShifted(t, regs, c); }
    }
  }

  lemma AsrIsShifted(t: Transfer, regs: Regs, c: bool)
    requires ShiftsAsr(t)
    ensures !TransferDeparts(t, regs, c)
  {
  }

  /** Shifting in zeros is the architectural ASR exactly for words below 2^31: the one
      clears bit 31 and the other keeps it. */
  lemma AsrOfPositive(c: bool, val: Word, n: nat)
    requires 0 < n < 32
    ensures ArmShift(c, HowAsr, val, n).0 == val / Pow2(n) <==> val < 0x8000_0000
  {
    hide *;
    AsrValue(c, val, n);
    HalvedAtLeast(val, n);
    SignedRange(val);
    if val >= 0x8000_0000 {
      NegativeStays(Signed(val), Pow2(n));
    } else {
      QuotientBelow(val, Pow2(n));
      WrapOfWord(val / Pow2(n));
    }
  }

  lemma AsrValue(c: bool, val: Word, n: nat)
    requires n > 0
    ensures ArmShift(c, HowAsr, val, n).0 == Wrap(Signed(val) / Pow2(n))
  {
    hide Pow2, Wrap, Bit;
  }

  lemma SignedRange(val: Word)
    ensures Signed(val) == if val >= 0x8000_0000 then val - 0x1_0000_0000 else val
  {
  }

  lemma HalvedAtLeast(val: Word, n: nat)
    requires n > 0
    ensures val / Pow2(n) < 0x8000_0000
  {
    hide *;
    Pow2Grows(1, n);
    Pow2One();
    var p, q := Pow2(n), val / Pow2(n);
    assert val == q * p + val % p;
    TimesMonotone(2, p, q);
  }

  /** The quotient of a negative number is negative, and no further from zero. */
  lemma NegativeStays(x: int, d: nat)
    requires -0x8000_0000 <= x < 0 && d > 0
    ensures Wrap(x / d) >= 0x8000_0000
  {
    var q := x / d;
    assert x == q * d + x % d;
    MultiplesAreFar(q, d);
    if q < x {
      TimesMonotone(-x + 1, -q, d);
      assert (-x + 1) * d == -x * d + d;
      MultiplesAreFar(x, d);
      assert false by { TimesMonotone(1, d, -x); }
    }
    WrapUnique(q, -1, q + 0x1_0000_0000);
  }

  function PcAfter(t: Transfer, s: Arch, o: Word): (w: Word) {
    if t.load && t.rd == 15 && ArmPasses(t.cc, s.core.flags) then s.memory.Read(TransferAddress(t, s.regs, o))
    else Wrap(t.pc + 4)
  }

  lemma LoadStepShape(t: Transfer, cc: Condition, pre: bool, up: bool, rn: Source, rm: Operand, a: bool, f: bool)
    ensures var i := LoadStep(t, cc, pre, up, rn, rm, a, f);
            i.kind.Load? && i.rd == MapDest(t.rd) && i.cc == cc && !i.rd.ToCondition? && (i.rd.ToPc? <==> t.rd == 15)
  {
  }

  lemma AddShape(t: Transfer, cc: Condition, rd: Dest)
    ensures var i := AddToBase(t, cc, rd, 0); i.kind.Arith? && i.rd == rd && i.cc == cc
  {
  }

  lemma AccToBaseShape(t: Transfer, pc: Word)
    ensures var i := AccToBase(t.(pc := pc));
            i.kind.Logic? && i.rd == MapDest(t.rn) && i.cc == CP && i.f == (t.rd == 15) && !i.rd.ToCondition?
  {
  }

  /** A state that only differs in the shifter asks for the same transfer. */
  lemma SameTransfer(u: Arch, s: Arch, t: Transfer)
    requires u.regs == s.regs && u.memory == s.memory && u.core.flags == s.core.flags
    ensures forall o :: PcAfter(t, u, o) == PcAfter(t, s, o)
    ensures forall v: Arch, o :: Transferred(v, u, t, o) <==> Transferred(v, s, t, o)
  {
  }

  /** A comparison whose operand is no ASR and not shifted by a register. */
  predicate IsPlainCompare(i: DataProcessing) {
    && i.op.OpCmp? && i.s && i.cc == 14
    && !i.operand.ByRegister? && !(i.operand.ByImmediate? && i.operand.how.HowAsr?)
  }

  lemma CompareSteps(i: DataProcessing)
    requires IsPlainCompare(i)
    ensures forall n <- Expand(i, 0) :: !n.rd.ToCondition? && !IsAsr(n) && (n.kind.Shift? ==> ShiftsByConstant(n))
  {
    hide RotateImmediate, MapCondition;
  }

  class SingleStep {
    var pc: Word
    var regs: Regs
    var aluAIn: Word
    var aluBIn: Word
    var core: Core
    var memory: Memory
    ghost var log: seq<Write>

    ghost function View(): (a: Arch)
      reads this
    {
      Arch(regs, memory, core, aluBIn, log)
    }

    function ReadIntRegister(inst: Instruction, src: Source): (w: Word)
      reads `regs
    {
      if src.Reg? then regs[src.r] else inst.pc
    }

    /** Executes one internal instruction: operands, ALU, memory, write-back. A shift takes
        its inputs straight from the registers, and ASR differs from the other model. */
    method ExecuteInt(inst: Instruction) returns (results: Results)
      requires !inst.rd.ToCondition? && (inst.kind.Shift? ==> ShiftsByConstant(inst))
      modifies this
      ensures !IsAsr(inst) ==> View() == Execute(false, old(View()), inst)
      ensures IsAsr(inst) ==>
                && View() == Execute(false, old(View()), inst).(core := core)
                && core == SingleAsr(Execute(false, old(View()), inst).core, inst,
                                     ReadSource(old(regs), inst.rn, inst.pc), inst.rm.value)
      ensures pc == old(pc)
      ensures results.flush == (inst.f && ConditionMet(false, old(core), inst.cc))
      ensures results.writePc == (inst.rd.ToPc? && ConditionMet(false, old(core), inst.cc))
      ensures results.writePc ==> log != [] && log[|log| - 1] == Write(ToPc, results.rfwData)
    {
      hide ExecuteAlu, ConditionMet, SingleAsr;
      aluAIn := ReadIntRegister(inst, inst.rn);
      if IsMlb(inst) {
        aluBIn := Wrap(aluBIn * 4);
      } else if inst.rm.Immediate? {
        aluBIn := inst.rm.value;
      } else {
        aluBIn := ReadIntRegister(inst, inst.rm.source);
      }
      PreviousInputIgnored(old(View()), inst, aluAIn, aluBIn);
      ghost var log';
      results, regs, memory, core, log' := ExecuteOperands(inst, regs, memory, core, aluAIn, aluBIn, log);
      log := log';
    }

    /** MUL and MLA. */
    method ExecuteArmMul(opcode: Word) returns (handled: bool)
      modifies this
      ensures handled <==> IsMultiply(opcode)
      ensures !handled ==> View() == old(View()) && pc == old(pc)
      ensures handled ==>
                var pc8 := Wrap(old(pc) + 8);
                var operand := (r: ArmReg) => ReadSource(old(regs), MapSource(r), pc8);
                var sum := if Flag(opcode, 0x20_0000) then operand(RegField(opcode, 0x1000)) else 0;
                var product := Wrap(operand(RegField(opcode, 1)) * operand(RegField(opcode, 0x100)) + sum);
                var f := old(core.flags);
                && pc == Wrap(old(pc) + 4)
                && memory == old(memory)
                && (if ConditionMet(false, old(core), MapCondition(CcField(opcode))) then
                      && regs == SetReg(old(regs), MapDest(RegField(opcode, 0x1_0000)), product)
                      && (if Flag(opcode, 0x10_0000)
                          then core.flags.z == (product == 0) && core.flags.n == (product >= 0x8000_0000)
                          else core.flags == f)
                    else regs == old(regs) && core.flags == f && core.acc == old(core.acc))
    {
      hide Execute, Wrap, ConditionMet, CcField, RegField, Flag;
      if !IsMultiply(opcode) {
        return false;
      }
      var cc := MapCondition(CcField(opcode));
      var accum, sign := Flag(opcode, 0x20_0000), Flag(opcode, 0x10_0000);
      var rd, rn := RegField(opcode, 0x1_0000), RegField(opcode, 0x1000);
      var rs, rm := RegField(opcode, 0x100), RegField(opcode, 1);
      var pc8 := Wrap(pc + 8);
      var addend := if accum then Register(MapSource(rn)) else Immediate(0, 0);
      ghost var s := View();
      MultiplyComputesProduct(s, cc, rm, rs, addend, sign, rd, 0, pc8);
      var _ := ExecuteInt(InitStep(cc, rm, addend, pc8));
      var _ := ExecuteInt(FirstStep(rs, pc8));
      ghost var started := View();
      for i := 0 to 14
        invariant View() == AfterMiddle(started, 0, pc8, i) && pc == old(pc)
      {
        var _ := ExecuteInt(LaterStep(false, NoDest, 0, pc8));
      }
      var _ := ExecuteInt(LaterStep(sign, MapDest(rd), 0, pc8));
      assert View() == AfterMultiply(s, cc, rm, rs, addend, sign, rd, 0, pc8);
      pc := Wrap(pc + 4);
      return true;
    }

    // One internal instruction of a block transfer each.

    method StepBase(cc: Condition, m: Mode, n: nat)
      requires n <= 16
      modifies this
      ensures memory == old(memory) && core.flags == old(core.flags) && pc == old(pc)
      ensures Explained(old(regs), old(log), regs, log)
      ensures core.cp == ConditionMet(false, old(core), cc)
      ensures var low := Wrap(ReadSource(old(regs), MapSource(m.rn), Wrap(pc + 8)) - 4 * n);
              && core.acc == (if core.cp then low else old(core.acc))
              && log == (if core.cp && m.wb then old(log) + [Write(MapDest(m.rn), low)] else old(log))
    {
      hide Execute, ConditionMet, Wrap, ReadSource, Explained;
      BaseEffect(View(), cc, m, n, 0, Wrap(pc + 8));
      ExecuteExplains(View(), BaseInst(cc, m, n, 0, Wrap(pc + 8)));
      var _ := ExecuteInt(BaseInst(cc, m, n, 0, Wrap(pc + 8)));
    }

    /** A load, after which the first instruction of a block moves the PC on and a
        loaded PC replaces it. */
    method StepLoad(cc: Condition, src: Source, m: Mode, j: ArmReg, first: bool)
      modifies this
      ensures memory == old(memory) && core.flags == old(core.flags)
      ensures Explained(old(regs), old(log), regs, log)
      ensures core.cp == ConditionMet(false, old(core), cc)
      ensures var at := FirstOperand(old(View()), src, Wrap(old(pc) + 8));
              var data := memory.Read(ChainStart(m, at));
              && core.acc == (if core.cp then Wrap(at + 4) else old(core.acc))
              && log == (if core.cp then old(log) + [Write(MapDest(j), data)] else old(log))
              && pc == (if j == 15 && core.cp then data else if first then Wrap(old(pc) + 4) else old(pc))
    {
      hide Execute, ConditionMet, Wrap, ReadSource, Explained;
      ArmBlockTransfer.LoadEffect(View(), cc, src, m, j, 0, Wrap(pc + 8));
      ExecuteExplains(View(), LoadInst(cc, src, m, j, 0, Wrap(pc + 8)));
      var results := ExecuteInt(LoadInst(cc, src, m, j, 0, Wrap(pc + 8)));
      if first {
        pc := Wrap(pc + 4);
      }
      if results.writePc {
        pc := results.rfwData;
      }
    }

    method StepStore(cc: Condition, src: Source, m: Mode, j: ArmReg, rd: Dest)
      requires !rd.ToCondition?
      modifies this
      ensures core.flags == old(core.flags) && pc == old(pc)
      ensures Explained(old(regs), old(log), regs, log)
      ensures core.cp == ConditionMet(false, old(core), cc)
      ensures var at := FirstOperand(old(View()), src, Wrap(pc + 8));
              && core.acc == (if core.cp then Wrap(at + 4) else old(core.acc))
              && memory == (if core.cp
                            then old(memory).Write(ChainStart(m, at),
                                                   ReadSource(old(regs), MapSource(j), Wrap(pc + 8)), 15)
                            else old(memory))
              && log == (if core.cp && rd != NoDest then old(log) + [Write(rd, Wrap(at + 4))] else old(log))
              && (rd == NoDest ==> regs == old(regs))
    {
      hide Execute, ConditionMet, Wrap, ReadSource, Explained, Memory.Write;
      ArmBlockTransfer.StoreEffect(View(), cc, src, m, j, rd, Wrap(pc + 8));
      ExecuteExplains(View(), StoreInst(cc, src, m, j, rd, Wrap(pc + 8)));
      var _ := ExecuteInt(StoreInst(cc, src, m, j, rd, Wrap(pc + 8)));
    }

    method StepFinal(m: Mode, flush: bool)
      modifies this
      ensures memory == old(memory) && core.flags == old(core.flags) && pc == old(pc) && core.acc == old(core.acc)
      ensures Explained(old(regs), old(log), regs, log)
      ensures log == (if old(core.cp) then old(log) + [Write(MapDest(m.rn), core.acc)] else old(log))
    {
      hide Execute, Explained;
      FinalEffect(View(), m, flush, Wrap(pc + 8));
      ExecuteExplains(View(), FinalInst(m, flush, Wrap(pc + 8)));
      var _ := ExecuteInt(FinalInst(m, flush, Wrap(pc + 8)));
    }

    /** One load per register. The first one supplies condition and base itself if
        direct is set; low is the base. */
    method LoadRegisters(cc: Condition, m: Mode, flags: RegFlags, n: nat, direct: bool, ghost low: Word)
      requires n == |RegList(flags, 0)| > 0
      requires low == if direct then ReadSource(regs, MapSource(m.rn), Wrap(pc + 8)) else core.acc
      modifies this
      ensures memory == old(memory) && core.flags == old(core.flags)
      ensures Explained(old(regs), old(log), regs, log)
      ensures core.cp == (if direct then ConditionMet(false, old(core), cc) else old(core.cp))
      ensures var list := RegList(flags, 0);
              var start := ChainStart(m, low);
              && core.acc == (if core.cp then Wrap(low + 4 * n) else old(core.acc))
              && log == (if core.cp then old(log) + LoadWrites(memory, list, start) else old(log))
              && pc == (if core.cp && list[n - 1] == 15 then memory.Read(Wrap(start + 4 * (n - 1)))
                        else if direct then Wrap(old(pc) + 4) else old(pc))
    {
      hide Execute, Wrap, ConditionMet, LoadWrites, Memory.Read, Explained, ReadSource, RegList;
      ghost var list := RegList(flags, 0);
      ghost var passed := if direct then ConditionMet(false, core, cc) else core.cp;
      ghost var start := ChainStart(m, low);
      ghost var regs0, log0 := regs, log;
      ghost var pc4 := if direct then Wrap(pc + 4) else pc;
      ExplainedRefl(regs, log);
      PcComesLast(flags);
      WrapOfWord(low);
      LoadWritesOfNone(memory, start);
      var first, rest := direct, flags;
      for i := 0 to n
        invariant RegList(rest, 0) == list[i..]
        invariant memory == old(memory) && core.flags == old(core.flags)
        invariant Explained(regs0, log0, regs, log)
        invariant first <==> direct && i == 0
        invariant i == 0 ==> core == old(core) && regs == regs0 && log == log0 && pc == old(pc)
        invariant !first ==> core.cp == passed && core.acc == (if passed then Wrap(low + 4 * i) else old(core.acc))
        invariant log == if passed then log0 + LoadWrites(memory, list[..i], start) else log0
        invariant !first ==> pc == if passed && i > 0 && list[i - 1] == 15
                                   then memory.Read(Wrap(start + 4 * (i - 1))) else pc4
      {
        var j;
        j, rest := LowestRegister(rest);
        assert list[i..][0] == list[i] == j && list[i..][1..] == list[i + 1..];
        NextLoad(m, memory, list, i, low, log0);
        CpMet(core);
        ghost var regs1, log1 := regs, log;
        var condition, source := CP, Acc;
        if first {
          condition, source := cc, MapSource(m.rn);
        }
        StepLoad(condition, source, m, j, first);
        ExplainedChain(regs0, log0, regs1, log1, regs, log);
        first := false;
      }
      assert list[..n] == list;
    }

    /** The load half: base adjustment, one load per register, final base. */
    method LoadBlock(cc: Condition, m: Mode, flags: RegFlags)
      requires RegList(flags, 0) != []
      modifies this
      ensures var list := RegList(flags, 0);
              var base := ReadSource(old(regs), MapSource(m.rn), Wrap(old(pc) + 8));
              var passed := ConditionMet(false, old(core), cc);
              && memory == old(memory) && core.flags == old(core.flags)
              && log == (if passed then old(log) + LoadMultipleWrites(m, old(memory), base, list) else old(log))
              && Explained(old(regs), old(log), regs, log)
              && (!passed ==> core.acc == old(core.acc))
              && pc == (if passed && list[|list| - 1] == 15
                        then memory.Read(Wrap(StartAddress(m, base, |list|) + 4 * (|list| - 1)))
                        else Wrap(old(pc) + 4))
    {
      hide Wrap, ConditionMet, LoadWrites, Memory.Read, Explained, ReadSource, RegList, LoadMultipleWrites,
        StartAddress, MapDest, MapSource;
      ghost var list := RegList(flags, 0);
      ghost var base := ReadSource(regs, MapSource(m.rn), Wrap(pc + 8));
      ghost var regs0, log0 := regs, log;
      ghost var low := if m.up then base else Wrap(base - 4 * |list|);
      var n := CountRegisters(flags);
      AssembleLoads(m, memory, base, list, low, log);
      ExplainedRefl(regs, log);
      if !m.up {
        StepBase(cc, m, n);
        pc := Wrap(pc + 4);
      }
      ghost var regs1, log1 := regs, log;
      LoadRegisters(cc, m, flags, n, m.up, if m.up then base else core.acc);
      ExplainedChain(regs0, log0, regs1, log1, regs, log);
      ghost var regs2, log2 := regs, log;
      if m.up && m.wb {
        StepFinal(m, flags[15]);
        ExplainedChain(regs0, log0, regs2, log2, regs, log);
      }
    }

    /** One store per register, as the loads; the last one may deliver the base. */
    method StoreRegisters(cc: Condition, m: Mode, flags: RegFlags, n: nat, direct: bool, ghost low: Word)
      requires n == |RegList(flags, 0)| > 0
      requires low == if direct then ReadSource(regs, MapSource(m.rn), Wrap(pc + 8)) else core.acc
      modifies this
      ensures core.flags == old(core.flags) && pc == old(pc)
      ensures Explained(old(regs), old(log), regs, log)
      ensures core.cp == (if direct then ConditionMet(false, old(core), cc) else old(core.cp))
      ensures core.acc == (if core.cp then Wrap(low + 4 * n) else old(core.acc))
      ensures memory == if core.cp
                        then StoredMemory(old(memory), old(regs), RegList(flags, 0), ChainStart(m, low), Wrap(pc + 8))
                        else old(memory)
      ensures log == if core.cp && m.up && m.wb then old(log) + [Write(MapDest(m.rn), Wrap(low + 4 * n))] else old(log)
    {
      hide Execute, Wrap, ConditionMet, StoredMemory, Memory.Write, Explained, ReadSource, RegList;
      ghost var list := RegList(flags, 0);
      ghost var passed := if direct then ConditionMet(false, core, cc) else core.cp;
      ghost var start := ChainStart(m, low);
      ghost var regs0, log0, memory0 := regs, log, memory;
      ExplainedRefl(regs, log);
      WrapOfWord(low);
      StoredNothing(memory, regs, start, Wrap(pc + 8));
      var first, rest := direct, flags;
      for i := 0 to n
        invariant RegList(rest, 0) == list[i..]
        invariant core.flags == old(core.flags) && pc == old(pc)
        invariant Explained(regs0, log0, regs, log)
        invariant first <==> direct && i == 0
        invariant i == 0 ==> core == old(core)
        invariant i < n ==> regs == regs0
        invariant !first ==> core.cp == passed && core.acc == (if passed then Wrap(low + 4 * i) else old(core.acc))
        invariant memory == if passed then StoredMemory(memory0, regs0, list[..i], start, Wrap(pc + 8)) else memory0
        invariant log == if passed && i == n && m.up && m.wb then log0 + [Write(MapDest(m.rn), Wrap(low + 4 * n))]
                         else log0
      {
        var j;
        j, rest := LowestRegister(rest);
        assert list[i..][0] == list[i] == j && list[i..][1..] == list[i + 1..];
        NextStore(m, memory0, regs0, list, i, low, Wrap(pc + 8));
        CpMet(core);
        ghost var regs1, log1 := regs, log;
        var condition, source, rd := CP, Acc, NoDest;
        if first {
          condition, source := cc, MapSource(m.rn);
        }
        if i == n - 1 && m.up && m.wb {
          rd := MapDest(m.rn);
        }
        StepStore(condition, source, m, j, rd);
        ExplainedChain(regs0, log0, regs1, log1, regs, log);
        first := false;
      }
      assert list[..n] == list;
    }

    /** The store half: base adjustment, one store per register. */
    method StoreBlock(cc: Condition, m: Mode, flags: RegFlags)
      requires RegList(flags, 0) != []
      modifies this
      ensures var list := RegList(flags, 0);
              var base := ReadSource(old(regs), MapSource(m.rn), Wrap(old(pc) + (if m.up then 12 else 8)));
              var passed := ConditionMet(false, old(core), cc);
              var writes := if m.wb && passed then [Write(MapDest(m.rn), FinalBase(m, base, |list|))] else [];
              var storing := if m.up then old(regs) else ApplyWrites(old(regs), writes);
              && core.flags == old(core.flags) && pc == Wrap(old(pc) + 4)
              && log == (if m.wb && passed then old(log) + writes else old(log))
              && Explained(old(regs), old(log), regs, log)
              && (!passed ==> core.acc == old(core.acc))
              && memory == (if passed
                            then StoredMemory(old(memory), storing, list, StartAddress(m, base, |list|),
                                              Wrap(old(pc) + 12))
                            else old(memory))
    {
      hide Wrap, ConditionMet, StoredMemory, Explained, ReadSource, RegList, ApplyWrites;
      ghost var list := RegList(flags, 0);
      ghost var base := ReadSource(regs, MapSource(m.rn), Wrap(pc + (if m.up then 12 else 8)));
      ghost var regs0, log0 := regs, log;
      WrapPlus(pc + 4, 8);
      WrapPlus(base - 4 * |list|, 4);
      var n := CountRegisters(flags);
      ExplainedRefl(regs, log);
      if !m.up {
        StepBase(cc, m, n);
        ExplainedByOne(regs0, log0, regs, log);
      }
      pc := Wrap(pc + 4);
      ghost var regs1, log1 := regs, log;
      StoreRegisters(cc, m, flags, n, m.up, if m.up then base else core.acc);
      ExplainedChain(regs0, log0, regs1, log1, regs, log);
    }

    /** LDM and STM. */
    method ExecuteArmLdmStm(opcode: Word) returns (handled: bool)
      modifies this
      ensures handled <==> IsBlockTransfer(opcode)
      ensures !handled ==> View() == old(View()) && pc == old(pc)
      ensures handled && RegList(ListField(opcode), 0) != [] ==>
                var list := RegList(ListField(opcode), 0);
                var m := Mode(Flag(opcode, 0x100_0000), Flag(opcode, 0x80_0000), Flag(opcode, 0x20_0000),
                              RegField(opcode, 0x1_0000));
                var passed := ConditionMet(false, old(core), MapCondition(CcField(opcode)));
                && core.flags == old(core.flags)
                && Explained(old(regs), old(log), regs, log)
                && (if !passed then
                      memory == old(memory) && log == old(log) && core.acc == old(core.acc) && pc == Wrap(old(pc) + 4)
                    else if Flag(opcode, 0x10_0000) then
                      var base := ReadSource(old(regs), MapSource(m.rn), Wrap(old(pc) + 8));
                      && memory == old(memory)
                      && log == old(log) + LoadMultipleWrites(m, memory, base, list)
                      && pc == (if list[|list| - 1] == 15
                                then memory.Read(Wrap(StartAddress(m, base, |list|) + 4 * (|list| - 1)))
                                else Wrap(old(pc) + 4))
                    else
                      var base := ReadSource(old(regs), MapSource(m.rn), Wrap(old(pc) + (if m.up then 12 else 8)));
                      var writes := if m.wb then [Write(MapDest(m.rn), FinalBase(m, base, |list|))] else [];
                      var storing := if m.up then old(regs) else ApplyWrites(old(regs), writes);
                      && memory == StoredMemory(old(memory), storing, list, StartAddress(m, base, |list|),
                                                Wrap(old(pc) + 12))
                      && log == (if m.wb then old(log) + writes else old(log))
                      && pc == Wrap(old(pc) + 4))
    {
      hide Wrap, ConditionMet, StoredMemory, Explained, ReadSource, RegList, ApplyWrites, LoadMultipleWrites, CcField,
        RegField, Flag;
      if !IsBlockTransfer(opcode) {
        return false;
      }
      var cc := MapCondition(CcField(opcode));
      var m := Mode(Flag(opcode, 0x100_0000), Flag(opcode, 0x80_0000), Flag(opcode, 0x20_0000),
                    RegField(opcode, 0x1_0000));
      var flags := ListField(opcode);
      var n := CountRegisters(flags);
      if n != 0 {
        if Flag(opcode, 0x10_0000) {
          LoadBlock(cc, m, flags);
        } else {
          StoreBlock(cc, m, flags);
        }
      } else {
        EmptyBlock(cc, m, Flag(opcode, 0x10_0000));
      }
      return true;
    }

    /** With no register to transfer only the base instructions are left; an upward
        load then does not even advance the PC. */
    method EmptyBlock(cc: Condition, m: Mode, load: bool)
      modifies this
      ensures memory == old(memory) && core.flags == old(core.flags)
      ensures pc == if load && m.up then old(pc) else Wrap(old(pc) + 4)
    {
      if !m.up {
        StepBase(cc, m, 0);
      }
      if !(load && m.up) {
        pc := Wrap(pc + 4);
      }
      if load && m.up && m.wb {
        StepFinal(m, false);
      }
    }

    method StepSubtractFour(cc: Condition, rd: Dest, f: bool) returns (results: Results)
      requires rd == ToPc || rd == ToReg(14)
      modifies this
      ensures memory == old(memory) && core.flags == old(core.flags) && pc == old(pc)
        && core.acc == old(core.acc)
      ensures var passed := ConditionMet(false, old(core), cc);
              && (cc.Always? ==> passed)
              && results.flush == (f && passed) && results.writePc == (rd.ToPc? && passed)
              && (results.writePc ==> results.rfwData == Wrap(pc + 4))
              && regs == if passed then SetReg(old(regs), rd, Wrap(pc + 4)) else old(regs)
    {
      hide ConditionMet, Wrap, Execute;
      AlwaysMet(core);
      SubtractFour(View(), cc, rd, f, 0, pc);
      results := ExecuteInt(PcLessFour(cc, rd, f, 0, pc));
    }

    method StepMoveToPc(cc: Condition, target: Word) returns (results: Results)
      modifies this
      ensures memory == old(memory) && core.flags == old(core.flags) && pc == old(pc) && regs == old(regs)
        && core.acc == old(core.acc)
      ensures results.writePc == ConditionMet(false, old(core), cc)
      ensures results.writePc ==> results.rfwData == target
    {
      hide ConditionMet, Wrap, Execute;
      MoveToPc(View(), cc, target, 0, pc);
      results := ExecuteInt(TargetToPc(cc, target, 0, pc));
    }

    /** B and BL. A conditional branch backwards is taken first and undone when the inverted
        condition passes; forwards the target is moved to the PC. */
    method ExecuteArmBranch(opcode: Word) returns (handled: bool)
      modifies this
      ensures handled <==> IsBranch(opcode)
      ensures !handled ==> View() == old(View()) && pc == old(pc)
      ensures handled && CcField(opcode) != 15 ==>
                var taken := ArmPasses(CcField(opcode), old(core.flags));
                && memory == old(memory) && core.flags == old(core.flags) && core.acc == old(core.acc)
                && pc == (if taken then BranchTarget(opcode, old(pc)) else Wrap(old(pc) + 4))
                && regs == (if taken && Flag(opcode, 0x100_0000) then old(regs)[14 := Wrap(old(pc) + 4)] else old(regs))
    {
      hide ConditionMet, Wrap, Flag, MapCondition, ArmPasses, SignedOffset;
      if !IsBranch(opcode) {
        return false;
      }
      ghost var cc0 := CcField(opcode);
      if cc0 < 14 {
        ConditionIsArm(false, core, cc0);
        InvertedCondition(core, cc0);
      } else {
        AlwaysPasses(core.flags);
      }
      var cc, link, back := CcField(opcode), Flag(opcode, 0x100_0000), Flag(opcode, 0x80_0000);
      if !link {
        if cc == 14 {
          pc := BranchTarget(opcode, pc);
        } else if back {
          var results := StepSubtractFour(MapCondition(InvertedCc(cc)), ToPc, true);
          pc := BranchTarget(opcode, pc);
          if results.writePc {
            pc := results.rfwData;
          }
        } else {
          var results := StepMoveToPc(MapCondition(cc), BranchTarget(opcode, pc));
          pc := Wrap(pc + 4);
          if results.writePc {
            pc := results.rfwData;
          }
        }
      } else if cc == 14 {
        var _ := StepSubtractFour(Always, ToReg(14), false);
        pc := BranchTarget(opcode, pc);
      } else {
        var results := StepSubtractFour(MapCondition(InvertedCc(cc)), ToPc, true);
        if results.writePc {
          pc := results.rfwData;
        }
        if results.flush {
          return true;
        }
        results := StepSubtractFour(Always, ToReg(14), false);
        pc := BranchTarget(opcode, pc);
        if results.writePc {
          pc := results.rfwData;
        }
      }
      return true;
    }

    /** CMP, with an operand that this model shifts as the other one does. */
    method RunCompare(i: DataProcessing)
      requires IsPlainCompare(i) && i.pc == pc
      modifies this
      ensures View() == ExecuteAll(false, old(View()), Expand(i, 0)) && pc == Wrap(old(pc) + 4)
    {
      hide Execute, ExecuteAll, Expand, Wrap;
      ghost var s := View();
      var insts := Expand(i, 0);
      CompareSteps(i);
      var _ := ExecuteInt(insts[0]);
      if |insts| == 1 {
        ExecuteOne(false, s, insts[0]);
        assert insts == [insts[0]];
      } else {
        var _ := ExecuteInt(insts[1]);
        TwoSteps(false, s, insts[0], insts[1]);
        assert insts == [insts[0], insts[1]];
      }
      pc := Wrap(pc + 4);
    }

    /** CMP and then a branch: it goes to its target exactly when the comparison that its
        condition names holds of the operands, and else on; BL then links. */
    method CompareThenBranch(i: DataProcessing, opcode: Word)
      requires IsPlainCompare(i) && i.pc == pc && IsBranch(opcode) && CcField(opcode) < 14
      modifies this
      ensures var a, b := ReadArm(old(regs), i.rn, old(pc)), OperandOf(i, old(regs), old(core.flags.c)).0;
              var at := Wrap(old(pc) + 4);
              var holds := Compares(CcField(opcode), a, b);
              && memory == old(memory)
              && pc == (if holds then BranchTarget(opcode, at) else Wrap(at + 4))
              && regs == (if holds && Flag(opcode, 0x100_0000) then old(regs)[14 := Wrap(at + 4)] else old(regs))
    {
      hide Expand, ExecuteAll, Compares, ArmPasses, OperandOf, ReadArm, Wrap, Flag, CcField, IsBranch, BranchTarget;
      CompareDecides(View(), i, 0, CcField(opcode));
      RunCompare(i);
      var _ := ExecuteArmBranch(opcode);
    }

    // Word loads and stores, form by form.

    method RunShift(t: Transfer, cc: Condition)
      requires IsShifted(t)
      modifies this
      ensures pc == old(pc) && regs == old(regs) && memory == old(memory) && log == old(log)
      ensures core.flags == old(core.flags) && core.shf == SingleOffset(t, old(regs), old(core.flags.c))
      ensures core.cp == ConditionMet(false, old(core), cc)
    {
      hide Execute, UsedOffset, ConditionMet, ReadSource, ReadArm, OffsetShift;
      ghost var u, i := View(), OffsetShift(t, cc, 0);
      ShiftEffect(false, u, t, cc, 0);
      ShiftReads(t, cc, regs);
      if t.offset.how.HowAsr? {
        SingleShifts(t, cc, regs, Execute(false, u, i).core);
      }
      var _ := ExecuteInt(OffsetShift(t, cc, 0));
    }

    method RunPlainLoad(t: Transfer, ghost o: Word)
      requires t.load && t.pre && !t.wb && t.pc == pc
      modifies this
      ensures LdStOk(t) && Ready(old(View()), t, o) ==>
                Transferred(View(), old(View()), t, o) && pc == PcAfter(t, old(View()), o)
    {
      hide Execute, Transferred, LoadStep, OffsetOperand, TransferAddress, ArmPasses, ConditionMet, MapCondition;
      ghost var u := View();
      var i := LoadStep(t, MapCondition(t.cc), true, t.up, MapSource(t.rn), OffsetOperand(t, 0), true, t.rd == 15);
      LoadStepShape(t, MapCondition(t.cc), true, t.up, MapSource(t.rn), OffsetOperand(t, 0), true, t.rd == 15);
      var results := ExecuteInt(i);
      if LdStOk(t) && Ready(u, t, o) {
        PlainLoad(u, t, o, 0);
        ConditionIsArm(false, u.core, t.cc);
        ExecuteOne(false, u, i);
      }
      pc := Wrap(pc + 4);
      if results.writePc {
        pc := results.rfwData;
      }
    }

    method RunPreLoad(t: Transfer, ghost o: Word)
      requires t.load && t.pre && t.wb && t.pc == pc
      modifies this
      ensures LdStOk(t) && Ready(old(View()), t, o) ==>
                Transferred(View(), old(View()), t, o) && pc == PcAfter(t, old(View()), o)
    {
      hide Execute, Transferred, LoadStep, AddToBase, TransferAddress, ArmPasses, ConditionMet, MapCondition;
      ghost var u := View();
      var i := AddToBase(t, MapCondition(t.cc), MapDest(t.rn), 0);
      var j := LoadStep(t, CP, false, IsShifted(t) || t.up, Acc, Immediate(0, 0), false, IsShifted(t) && t.rd == 15);
      AddShape(t, MapCondition(t.cc), MapDest(t.rn));
      LoadStepShape(t, CP, false, IsShifted(t) || t.up, Acc, Immediate(0, 0), false, IsShifted(t) && t.rd == 15);
      var _ := ExecuteInt(i);
      CpMet(core);
      var results := ExecuteInt(j);
      if LdStOk(t) && Ready(u, t, o) {
        PreLoad(u, t, o, 0);
        TwoSteps(false, u, i, j);
      }
      pc := Wrap(pc + 4);
      if results.writePc {
        pc := results.rfwData;
      }
    }

    /** A loaded PC is in place before the base is moved, and the flush of the second
        instruction keeps it from being advanced. */
    method RunPostLoad(t: Transfer, ghost o: Word)
      requires t.load && !t.pre && t.pc == pc
      modifies this
      ensures LdStOk(t) && Ready(old(View()), t, o) ==>
                Transferred(View(), old(View()), t, o) && pc == PcAfter(t, old(View()), o)
    {
      hide Execute, Transferred, LoadStep, OffsetOperand, AccToBase, TransferAddress, ArmPasses, ConditionMet,
        MapCondition;
      ghost var u := View();
      var i := LoadStep(t, MapCondition(t.cc), false, t.up, MapSource(t.rn), OffsetOperand(t, 0), true, false);
      LoadStepShape(t, MapCondition(t.cc), false, t.up, MapSource(t.rn), OffsetOperand(t, 0), true, false);
      var results := ExecuteInt(i);
      if results.writePc {
        pc := results.rfwData;
      }
      var j := AccToBase(t.(pc := pc));
      AccToBaseShape(t, pc);
      CpMet(core);
      results := ExecuteInt(j);
      if LdStOk(t) && Ready(u, t, o) {
        PostLoad(u, t, o, 0, pc);
        ConditionIsArm(false, u.core, t.cc);
        TwoSteps(false, u, i, j);
      }
      if results.flush {
        return;
      }
      pc := Wrap(pc + 4);
    }

    method RunStorePair(t: Transfer, i: Instruction, j: Instruction)
      requires !i.rd.ToCondition? && !i.kind.Shift?
      requires !j.rd.ToCondition? && !j.kind.Shift?
      modifies this
      ensures View() == ExecuteAll(false, old(View()), [i, j])
      ensures pc == Wrap(old(pc) + 4)
    {
      hide Execute, SingleAsr;
      ghost var u := View();
      var _ := ExecuteInt(i);
      var _ := ExecuteInt(j);
      TwoSteps(false, u, i, j);
      pc := Wrap(pc + 4);
    }

    method RunShiftedStore(t: Transfer)
      requires !t.load && IsShifted(t)
      modifies this
      ensures pc == Wrap(old(pc) + 4)
      ensures LdStOk(t) ==> Transferred(View(), old(View()), t, SingleOffset(t, old(regs), old(core.flags.c)))
    {
      hide Execute, MapCondition, Transferred, SingleOffset, StoreStep, ConditionMet;
      ghost var s, o := View(), SingleOffset(t, regs, core.flags.c);
      var base := if MovesBase(t) then MapDest(t.rn) else NoDest;
      RunShift(t, MapCondition(t.cc));
      StoreStepShape(t, CP, t.pre, t.up, true, MapSource(t.rn), base, true);
      ghost var v := View();
      var _ := ExecuteInt(StoreStep(t, CP, t.pre, t.up, true, MapSource(t.rn), base, true));
      if LdStOk(t) {
        ConditionIsArm(false, s.core, t.cc);
        StoreAfterShift(v, s, t, o);
      }
      pc := Wrap(pc + 4);
    }

    method RunStore(t: Transfer)
      requires !t.load && t.pc == pc
      modifies this
      ensures LdStOk(t) ==> Transferred(View(), old(View()), t, SingleOffset(t, old(regs), old(core.flags.c)))
      ensures pc == Wrap(old(pc) + 4)
    {
      hide Execute, ExecuteAll, Transferred, MapCondition, UsedOffset;
      ghost var u := View();
      var cc := MapCondition(t.cc);
      var base := if t.wb then MapDest(t.rn) else NoDest;
      if t.offset == ImmediateOffset(0) {
        var i := StoreStep(t, cc, false, true, false, MapSource(t.rn), NoDest, false);
        var _ := ExecuteInt(i);
        pc := Wrap(pc + 4);
        ExecuteOne(false, u, i);
      } else if IsShifted(t) {
        RunShiftedStore(t);
      } else if t.pre {
        RunStorePair(t, AddToBase(t, cc, NoDest, 0), StoreStep(t, CP, true, t.up, true, Acc, base, true));
      } else {
        RunStorePair(t, StoreStep(t, cc, false, false, false, MapSource(t.rn), NoDest, false),
                     AddToBase(t, CP, MapDest(t.rn), 0));
      }
      if LdStOk(t) && !IsShifted(t) {
        StoresTransfer(u, t, 0);
      }
    }

    /** LDR and STR; the byte bit is decoded but makes no difference. */
    method ExecuteArmLdSt(opcode: Word) returns (handled: bool)
      modifies this
      ensures handled <==> IsTransfer(opcode)
      ensures !handled ==> View() == old(View()) && pc == old(pc)
      ensures var t := TransferOf(opcode, old(pc));
              var c := old(core.flags.c);
              handled && LdStOk(t) ==>
                && Transferred(View(), old(View()), t, SingleOffset(t, old(regs), c))
                && pc == PcAfter(t, old(View()), SingleOffset(t, old(regs), c))
                && (!SingleDeparts(t, old(regs), c) ==>
                      && Transferred(View(), old(View()), t, OffsetOf(t, old(regs), c))
                      && pc == PcAfter(t, old(View()), OffsetOf(t, old(regs), c)))
    {
      hide Execute, Transferred, TransferOf, OffsetOf, TransferAddress, ArmPasses, SingleOffset, SingleDeparts,
        SamePlaces;
      if !IsTransfer(opcode) {
        return false;
      }
      var t := TransferOf(opcode, pc);
      assert t.pc == pc by { TransferPc(opcode, pc); }
      SingleDepartsExactly(t, regs, core.flags.c);
      ghost var s, o := View(), SingleOffset(t, regs, core.flags.c);
      if t.load {
        if IsShifted(t) {
          RunShift(t, Always);
        } else {
          UnshiftedSingle(s, t);
        }
        SameTransfer(View(), s, t);
        if t.pre && !t.wb {
          RunPlainLoad(t, o);
        } else if t.pre {
          RunPreLoad(t, o);
        } else {
          RunPostLoad(t, o);
        }
      } else {
        RunStore(t);
      }
      return true;
    }
  }

  lemma UnshiftedSingle(s: Arch, t: Transfer)
    requires !IsShifted(t)
    ensures Ready(s, t, SingleOffset(t, s.regs, s.core.flags.c))
  {
    hide OffsetOf, Ready;
    UnshiftedOffset(s, t);
  }

  lemma ShiftReads(t: Transfer, cc: Condition, regs: Regs)
    requires IsShifted(t)
    ensures var i := OffsetShift(t, cc, 0);
            && ReadSource(regs, i.rn, i.pc) == ReadArm(regs, t.offset.rm, t.pc)
            && (IsAsr(i) <==> t.offset.how.HowAsr?) && ShiftsByConstant(i)
            && i.rm == Immediate(t.offset.amount, 0) && !i.rd.ToCondition? && i.kind == Shift(i.kind.shiftOp, false)
  {
  }

  lemma SingleShifts(t: Transfer, cc: Condition, regs: Regs, next: Core)
    requires IsShifted(t) && t.offset.how.HowAsr?
    ensures var i := OffsetShift(t, cc, 0);
            SingleAsr(next, i, ReadArm(regs, t.offset.rm, t.pc), t.offset.amount)
            == next.(shf := SingleOffset(t, regs, next.flags.c))
  {
    hide ReadArm;
    assert Pow2(0) == 1;
  }

  lemma StoreStepShape(t: Transfer, cc: Condition, pre: bool, up: bool, useShf: bool, rn: Source, rd: Dest, a: bool)
    ensures var i := StoreStep(t, cc, pre, up, useShf, rn, rd, a); i.kind.Store? && i.rd == rd
  {
  }
}
