/** LDM and STM as a chain of word accesses through the accumulator. */
module ArmBlockTransfer {
  import opened Words
  import opened FlatMemory
  import opened GipInstruction
  import opened GipAlu
  import opened GipSequential

  /** Addressing mode, write-back and base register of a block transfer. */
  datatype Mode = Mode(pre: bool, up: bool, wb: bool, rn: ArmReg)

  /** Registers of a list in ascending order. */
  ghost predicate Ascending(list: seq<ArmReg>) {
    forall i, j | 0 <= i < j < |list| :: list[i] < list[j]
  }

  // ----- the internal instructions -----

  /** DB and DA first take the size of the block off the base. */
  function BaseInst(cc: Condition, m: Mode, n: nat, stale: RegNo, pc: Word): (i: Instruction)
    requires n <= 16
  {
    Instruction(Arith(Sub, false, false), cc, MapSource(m.rn), Immediate(n * 4, stale),
                if m.wb then MapDest(m.rn) else NoDest, true, false, false, pc)
  }

  /** The blocks always run upwards, pre-indexed for IB and DA. */
  function Preindexed(m: Mode): (b: bool) {
    m.pre != !m.up
  }

  function LoadInst(cc: Condition, src: Source, m: Mode, rd: ArmReg, stale: RegNo, pc: Word): (i: Instruction) {
    Instruction(Load(SizeWord, true, Preindexed(m)), cc, src, Immediate(4, stale), MapDest(rd),
                true, rd == 15 && !(m.up && m.wb), false, pc)
  }

  function StoreInst(cc: Condition, src: Source, m: Mode, rs: ArmReg, rd: Dest, pc: Word): (i: Instruction) {
    Instruction(Store(SizeWord, true, Preindexed(m), false), cc, src, Register(MapSource(rs)), rd,
                true, false, false, pc)
  }

  /** LDMIA and LDMIB finally move the accumulator to the base. */
  function FinalInst(m: Mode, flush: bool, pc: Word): (i: Instruction) {
    Instruction(Logic(Mov, false, false), CP, Acc, Register(Acc), MapDest(m.rn), false, flush, false, pc)
  }

  function LoadChain(m: Mode, list: seq<ArmReg>, stale: RegNo, pc: Word): (insts: seq<Instruction>)
    decreases |list|
  {
    if list == [] then []
    else [LoadInst(CP, Acc, m, list[0], stale, pc)] + LoadChain(m, list[1..], stale, pc)
  }

  /** The last store of STMIA and STMIB with write-back delivers the base. */
  function StoreDest(m: Mode, last: bool): (rd: Dest) {
    if last && m.up && m.wb then MapDest(m.rn) else NoDest
  }

  function StoreChain(m: Mode, list: seq<ArmReg>, pc: Word): (insts: seq<Instruction>)
    decreases |list|
  {
    if list == [] then []
    else [StoreInst(CP, Acc, m, list[0], StoreDest(m, |list| == 1), pc)] + StoreChain(m, list[1..], pc)
  }

  function LoadMultiple(cc: Condition, m: Mode, list: seq<ArmReg>, stale: RegNo, pc: Word): (insts: seq<Instruction>)
    requires 0 < |list| <= 16
  {
    if !m.up then [BaseInst(cc, m, |list|, stale, pc)] + LoadChain(m, list, stale, pc)
    else
      [LoadInst(cc, MapSource(m.rn), m, list[0], stale, pc)] + LoadChain(m, list[1..], stale, pc)
      + (if m.wb then [FinalInst(m, list[|list| - 1] == 15, pc)] else [])
  }

  function StoreMultiple(cc: Condition, m: Mode, list: seq<ArmReg>, stale: RegNo, pc: Word): (insts: seq<Instruction>)
    requires 0 < |list| <= 16
  {
    if !m.up then [BaseInst(cc, m, |list|, stale, pc)] + StoreChain(m, list, pc)
    else
      [StoreInst(cc, MapSource(m.rn), m, list[0], StoreDest(m, |list| == 1), pc)] + StoreChain(m, list[1..], pc)
  }

  // ----- the architecture -----

  /** Lowest address of the block (ARM DDI 0100, section A5.4). */
  function StartAddress(m: Mode, base: Word, n: nat): (w: Word) {
    if m.up then (if m.pre then Wrap(base + 4) else base)
    else (if m.pre then Wrap(base - 4 * n) else Wrap(base - 4 * n + 4))
  }

  function FinalBase(m: Mode, base: Word, n: nat): (w: Word) {
    if m.up then Wrap(base + 4 * n) else Wrap(base - 4 * n)
  }

  /** What loading list from ascending words sends through the write port. */
  function LoadWrites(memory: Memory, list: seq<ArmReg>, address: Word): (w: seq<Write>)
    ensures |w| == |list|
    decreases |list|
  {
    if list == [] then []
    else [Write(MapDest(list[0]), memory.Read(address))] + LoadWrites(memory, list[1..], Wrap(address + 4))
  }

  /** Memory after storing list to ascending words. */
  function StoredMemory(memory: Memory, regs: Regs, list: seq<ArmReg>, address: Word, pc: Word): (m: Memory)
    decreases |list|
  {
    if list == [] then memory
    else StoredMemory(memory.Write(address, ReadSource(regs, MapSource(list[0]), pc), 15), regs, list[1..],
                      Wrap(address + 4), pc)
  }

  /** The write-backs of a whole LDM: the loaded words in ascending order, with the
      new base before them (DB, DA) or after them (IA, IB). */
  function LoadMultipleWrites(m: Mode, memory: Memory, base: Word, list: seq<ArmReg>): (w: seq<Write>) {
    var newBase := [Write(MapDest(m.rn), FinalBase(m, base, |list|))];
    (if m.wb && !m.up then newBase else [])
    + LoadWrites(memory, list, StartAddress(m, base, |list|))
    + (if m.wb && m.up then newBase else [])
  }

  // ----- one instruction of the chain -----

  /** An upward word access with offset four in the ALU. */
  lemma NextWordOutcome(inst: Instruction, aIn: Word, bIn: Word, core: Core)
    requires (inst.kind.Load? || inst.kind.Store?) && inst.kind.up && !inst.rd.ToCondition? && inst.a
    requires Operand2(inst, bIn, core) == 4
    ensures var o := Evaluate(false, inst, aIn, bIn, core);
            && o.op1 == Operand1(inst, aIn, core) && o.value == Wrap(o.op1 + 4)
            && o.core.flags == core.flags && o.core.cp == o.passed
            && o.core.acc == (if o.passed then o.value else core.acc)
  {
    AddOpAdds(Operand1(inst, aIn, core), 4, false);
    hide AddOp, Wrap, LogicResult, ConditionMet, BarrelShift;
  }

  /** First address used by a chain whose first operand has this value. */
  function ChainStart(m: Mode, at: Word): (w: Word) {
    if Preindexed(m) then Wrap(at + 4) else at
  }

  function FirstOperand(s: Arch, src: Source, pc: Word): (w: Word) {
    if src.Acc? then s.core.acc else ReadSource(s.regs, src, pc)
  }

  lemma LoadEffect(s: Arch, cc: Condition, src: Source, m: Mode, rd: ArmReg, stale: RegNo, pc: Word)
    ensures var t := Execute(false, s, LoadInst(cc, src, m, rd, stale, pc));
            var at := FirstOperand(s, src, pc);
            && t.core.flags == s.core.flags && t.core.cp == ConditionMet(false, s.core, cc)
            && t.memory == s.memory
            && t.core.acc == (if t.core.cp then Wrap(at + 4) else s.core.acc)
            && t.log == (if t.core.cp then s.log + [Write(MapDest(rd), s.memory.Read(ChainStart(m, at)))] else s.log)
  {
    hide Evaluate, Wrap, ConditionMet, Execute, SetReg, Memory.Read, Memory.Write;
    var inst := LoadInst(cc, src, m, rd, stale, pc);
    NextWordOutcome(inst, ReadSource(s.regs, src, pc), 4, s.core);
    WordAccessExecutes(false, s, inst);
  }

  lemma StoreEffect(s: Arch, cc: Condition, src: Source, m: Mode, rs: ArmReg, rd: Dest, pc: Word)
    requires !rd.ToCondition?
    ensures var t := Execute(false, s, StoreInst(cc, src, m, rs, rd, pc));
            var at := FirstOperand(s, src, pc);
            && t.core.flags == s.core.flags && t.core.cp == ConditionMet(false, s.core, cc)
            && t.core.acc == (if t.core.cp then Wrap(at + 4) else s.core.acc)
            && t.log == (if t.core.cp && rd != NoDest then s.log + [Write(rd, Wrap(at + 4))] else s.log)
            && (rd == NoDest ==> t.regs == s.regs)
            && t.memory == (if t.core.cp
                            then s.memory.Write(ChainStart(m, at), ReadSource(s.regs, MapSource(rs), pc), 15)
                            else s.memory)
  {
    hide Evaluate, Wrap, ConditionMet, Execute, SetReg, Memory.Read, Memory.Write;
    var inst := StoreInst(cc, src, m, rs, rd, pc);
    NextWordOutcome(inst, ReadSource(s.regs, src, pc), ReadSource(s.regs, MapSource(rs), pc), s.core);
    WordAccessExecutes(false, s, inst);
  }

  lemma BaseEffect(s: Arch, cc: Condition, m: Mode, n: nat, stale: RegNo, pc: Word)
    requires n <= 16
    ensures var t := Execute(false, s, BaseInst(cc, m, n, stale, pc));
            var low := Wrap(ReadSource(s.regs, MapSource(m.rn), pc) - 4 * n);
            && t.core.flags == s.core.flags && t.core.cp == ConditionMet(false, s.core, cc)
            && t.memory == s.memory
            && t.core.acc == (if t.core.cp then low else s.core.acc)
            && t.log == (if t.core.cp && m.wb then s.log + [Write(MapDest(m.rn), low)] else s.log)
  {
    var base := ReadSource(s.regs, MapSource(m.rn), pc);
    AddOpAdds(base, Not(n * 4), true);
    WrapShift(base - 4 * n, 1);
    hide AddOp, Wrap, LoadFrom, StoreTo, LogicResult, ConditionMet, BarrelShift;
  }

  lemma FinalEffect(s: Arch, m: Mode, flush: bool, pc: Word)
    ensures var t := Execute(false, s, FinalInst(m, flush, pc));
            && t.core.flags == s.core.flags && t.core.cp == s.core.cp && t.core.acc == s.core.acc
            && t.memory == s.memory
            && t.log == (if s.core.cp then s.log + [Write(MapDest(m.rn), s.core.acc)] else s.log)
  {
    hide AddOp, Wrap, LoadFrom, StoreTo, BarrelShift;
  }

  // ----- the chains -----

  lemma WrapAgain(w: int, n: int)
    ensures Wrap(Wrap(w + 4) + 4 * n) == Wrap(w + 4 * (n + 1))
  {
    WrapPlus(w + 4, 4 * n);
  }

  lemma {:induction false} LoadChainRuns(s: Arch, m: Mode, list: seq<ArmReg>, stale: RegNo, pc: Word)
    ensures var t := ExecuteAll(false, s, LoadChain(m, list, stale, pc));
            && t.core.flags == s.core.flags && t.memory == s.memory && t.core.cp == s.core.cp
            && t.core.acc == (if s.core.cp then Wrap(s.core.acc + 4 * |list|) else s.core.acc)
            && t.log == (if s.core.cp then s.log + LoadWrites(s.memory, list, ChainStart(m, s.core.acc)) else s.log)
    decreases |list|
  {
    hide Execute, Wrap, LoadInst, ConditionMet, Memory.Read;
    if list == [] {
      WrapOfWord(s.core.acc);
    } else {
      var first := LoadInst(CP, Acc, m, list[0], stale, pc);
      LoadEffect(s, CP, Acc, m, list[0], stale, pc);
      CpMet(s.core);
      var u := Execute(false, s, first);
      ExecuteFirst(false, s, first, LoadChain(m, list[1..], stale, pc));
      LoadChainRuns(u, m, list[1..], stale, pc);
      WrapAgain(s.core.acc, |list| - 1);
      hide ExecuteAll;
      if s.core.cp {
        var start: int := ChainStart(m, s.core.acc);
        assert ChainStart(m, u.core.acc) == Wrap(start + 4);
        var w := [Write(MapDest(list[0]), s.memory.Read(start))];
        assert LoadWrites(s.memory, list, start) == w + LoadWrites(s.memory, list[1..], Wrap(start + 4));
        AppendAssociates(s.log, w, LoadWrites(s.memory, list[1..], Wrap(start + 4)));
      }
    }
  }

  lemma AppendAssociates<T>(a: seq<T>, b: seq<T>, c: seq<T>)
    ensures a + b + c == a + (b + c)
  {
  }

  lemma {:induction false} StoreChainRuns(s: Arch, m: Mode, list: seq<ArmReg>, pc: Word)
    ensures var t := ExecuteAll(false, s, StoreChain(m, list, pc));
            && t.core.flags == s.core.flags && t.core.cp == s.core.cp
            && t.core.acc == (if s.core.cp then Wrap(s.core.acc + 4 * |list|) else s.core.acc)
            && t.memory == (if s.core.cp then StoredMemory(s.memory, s.regs, list, ChainStart(m, s.core.acc), pc)
                            else s.memory)
            && t.log == (if s.core.cp && list != [] && m.up && m.wb then s.log + [Write(MapDest(m.rn), t.core.acc)]
                         else s.log)
    decreases |list|
  {
    hide Execute, Wrap, StoreInst, ConditionMet, Memory.Write, ReadSource;
    if list == [] {
      WrapOfWord(s.core.acc);
    } else {
      var rd := StoreDest(m, |list| == 1);
      var first := StoreInst(CP, Acc, m, list[0], rd, pc);
      StoreEffect(s, CP, Acc, m, list[0], rd, pc);
      CpMet(s.core);
      var u := Execute(false, s, first);
      ExecuteFirst(false, s, first, StoreChain(m, list[1..], pc));
      StoreChainRuns(u, m, list[1..], pc);
      WrapAgain(s.core.acc, |list| - 1);
      hide ExecuteAll;
      if s.core.cp {
        assert ChainStart(m, u.core.acc) == Wrap(ChainStart(m, s.core.acc) + 4);
      }
    }
  }

  // ----- whole instructions -----

  lemma LoadDown(s: Arch, cc: Condition, m: Mode, list: seq<ArmReg>, stale: RegNo, pc: Word)
    requires 0 < |list| <= 16 && !m.up
    ensures var t := ExecuteAll(false, s, LoadMultiple(cc, m, list, stale, pc));
            var base := ReadSource(s.regs, MapSource(m.rn), pc);
            && t.memory == s.memory && t.core.flags == s.core.flags
            && t.log == (if ConditionMet(false, s.core, cc) then s.log + LoadMultipleWrites(m, s.memory, base, list)
                         else s.log)
            && (!ConditionMet(false, s.core, cc) ==> t.core.acc == s.core.acc)
  {
    hide Execute, ConditionMet, LoadWrites, Wrap, ReadSource;
    var base := ReadSource(s.regs, MapSource(m.rn), pc);
    var first := BaseInst(cc, m, |list|, stale, pc);
    BaseEffect(s, cc, m, |list|, stale, pc);
    ExecuteFirst(false, s, first, LoadChain(m, list, stale, pc));
    LoadChainRuns(Execute(false, s, first), m, list, stale, pc);
    WrapPlus(base - 4 * |list|, 4);
    hide LoadChain, ExecuteAll, BaseInst;
  }

  lemma LoadUpChain(s: Arch, cc: Condition, m: Mode, list: seq<ArmReg>, stale: RegNo, pc: Word)
    requires 0 < |list| <= 16 && m.up
    ensures var insts := [LoadInst(cc, MapSource(m.rn), m, list[0], stale, pc)] + LoadChain(m, list[1..], stale, pc);
            var t := ExecuteAll(false, s, insts);
            var base := ReadSource(s.regs, MapSource(m.rn), pc);
            && t.memory == s.memory && t.core.flags == s.core.flags && t.core.cp == ConditionMet(false, s.core, cc)
            && t.core.acc == (if t.core.cp then FinalBase(m, base, |list|) else s.core.acc)
            && t.log == (if t.core.cp then s.log + LoadWrites(s.memory, list, StartAddress(m, base, |list|)) else s.log)
  {
    hide Execute, ExecuteAll, ConditionMet, Wrap, ReadSource, LoadChain, LoadInst, Memory.Read;
    var base: int := ReadSource(s.regs, MapSource(m.rn), pc);
    var first := LoadInst(cc, MapSource(m.rn), m, list[0], stale, pc);
    LoadEffect(s, cc, MapSource(m.rn), m, list[0], stale, pc);
    var chain := LoadChain(m, list[1..], stale, pc);
    ExecuteFirst(false, s, first, chain);
    var u := Execute(false, s, first);
    LoadChainRuns(u, m, list[1..], stale, pc);
    WrapAgain(base, |list| - 1);
    if u.core.cp {
      var start: int := StartAddress(m, base, |list|);
      assert ChainStart(m, u.core.acc) == Wrap(start + 4);
      var w := [Write(MapDest(list[0]), s.memory.Read(start))];
      assert LoadWrites(s.memory, list, start) == w + LoadWrites(s.memory, list[1..], Wrap(start + 4));
      AppendAssociates(s.log, w, LoadWrites(s.memory, list[1..], Wrap(start + 4)));
    }
  }

  lemma LoadUp(s: Arch, cc: Condition, m: Mode, list: seq<ArmReg>, stale: RegNo, pc: Word)
    requires 0 < |list| <= 16 && m.up
    ensures var t := ExecuteAll(false, s, LoadMultiple(cc, m, list, stale, pc));
            var base := ReadSource(s.regs, MapSource(m.rn), pc);
            && t.memory == s.memory && t.core.flags == s.core.flags
            && t.log == (if ConditionMet(false, s.core, cc) then s.log + LoadMultipleWrites(m, s.memory, base, list)
                         else s.log)
            && (!ConditionMet(false, s.core, cc) ==> t.core.acc == s.core.acc)
  {
    hide Execute, ConditionMet, LoadWrites, Wrap, ReadSource;
    LoadUpChain(s, cc, m, list, stale, pc);
    var insts := [LoadInst(cc, MapSource(m.rn), m, list[0], stale, pc)] + LoadChain(m, list[1..], stale, pc);
    if !m.wb {
      assert LoadMultiple(cc, m, list, stale, pc) == insts;
    } else {
      var last := FinalInst(m, list[|list| - 1] == 15, pc);
      assert LoadMultiple(cc, m, list, stale, pc) == insts + [last];
      ExecuteAllSplits(false, s, insts, [last]);
      ExecuteOne(false, ExecuteAll(false, s, insts), last);
      FinalEffect(ExecuteAll(false, s, insts), m, list[|list| - 1] == 15, pc);
    }
  }

  /** LDM leaves memory and flags, and sends exactly the architectural words and base
      to the registers; if the condition fails, nothing, and the accumulator stays. */
  lemma LoadMultipleLoads(s: Arch, cc: Condition, m: Mode, list: seq<ArmReg>, stale: RegNo, pc: Word)
    requires 0 < |list| <= 16
    ensures var t := ExecuteAll(false, s, LoadMultiple(cc, m, list, stale, pc));
            var writes := if ConditionMet(false, s.core, cc)
                          then LoadMultipleWrites(m, s.memory, ReadSource(s.regs, MapSource(m.rn), pc), list) else [];
            && t.memory == s.memory && t.core.flags == s.core.flags
            && t.log == s.log + writes && t.regs == ApplyWrites(s.regs, writes)
            && (!ConditionMet(false, s.core, cc) ==> t.core.acc == s.core.acc)
  {
    hide Execute, ConditionMet, LoadMultiple, LoadMultipleWrites, ReadSource, ApplyWrites;
    if m.up {
      LoadUp(s, cc, m, list, stale, pc);
    } else {
      LoadDown(s, cc, m, list, stale, pc);
    }
    LogExplainsRegs(false, s, LoadMultiple(cc, m, list, stale, pc));
    var writes := if ConditionMet(false, s.core, cc)
                  then LoadMultipleWrites(m, s.memory, ReadSource(s.regs, MapSource(m.rn), pc), list) else [];
    assert (s.log + writes)[|s.log|..] == writes;
  }

  lemma StoreDown(s: Arch, cc: Condition, m: Mode, list: seq<ArmReg>, stale: RegNo, pc: Word)
    requires 0 < |list| <= 16 && !m.up
    ensures var t := ExecuteAll(false, s, StoreMultiple(cc, m, list, stale, pc));
            var base := ReadSource(s.regs, MapSource(m.rn), pc);
            var writes := if m.wb && ConditionMet(false, s.core, cc)
                          then [Write(MapDest(m.rn), FinalBase(m, base, |list|))] else [];
            && t.core.flags == s.core.flags && t.log == (if writes == [] then s.log else s.log + writes)
            && t.memory == (if ConditionMet(false, s.core, cc)
                            then StoredMemory(s.memory, ApplyWrites(s.regs, writes), list,
                                              StartAddress(m, base, |list|), pc)
                            else s.memory)
            && (!ConditionMet(false, s.core, cc) ==> t.core.acc == s.core.acc)
  {
    hide Execute, ExecuteAll, ConditionMet, StoredMemory, Wrap, ReadSource, ApplyWrites, StoreChain, BaseInst;
    var base := ReadSource(s.regs, MapSource(m.rn), pc);
    var first := BaseInst(cc, m, |list|, stale, pc);
    BaseEffect(s, cc, m, |list|, stale, pc);
    var u := Execute(false, s, first);
    ExecuteFirst(false, s, first, StoreChain(m, list, pc));
    ExecuteLogs(false, s, first);
    var writes := if m.wb && ConditionMet(false, s.core, cc) then [Write(MapDest(m.rn), FinalBase(m, base, |list|))]
                  else [];
    assert u.log[|s.log|..] == writes;
    StoreChainRuns(u, m, list, pc);
    WrapPlus(base - 4 * |list|, 4);
  }

  lemma StoreUp(s: Arch, cc: Condition, m: Mode, list: seq<ArmReg>, stale: RegNo, pc: Word)
    requires 0 < |list| <= 16 && m.up
    ensures var t := ExecuteAll(false, s, StoreMultiple(cc, m, list, stale, pc));
            var base := ReadSource(s.regs, MapSource(m.rn), pc);
            && t.core.flags == s.core.flags
            && t.log == (if m.wb && ConditionMet(false, s.core, cc)
                         then s.log + [Write(MapDest(m.rn), FinalBase(m, base, |list|))] else s.log)
            && t.memory == (if ConditionMet(false, s.core, cc)
                            then StoredMemory(s.memory, s.regs, list, StartAddress(m, base, |list|), pc)
                            else s.memory)
            && (!ConditionMet(false, s.core, cc) ==> t.core.acc == s.core.acc)
  {
    hide *;
    var rd := StoreDest(m, |list| == 1);
    var first, chain := StoreInst(cc, MapSource(m.rn), m, list[0], rd, pc), StoreChain(m, list[1..], pc);
    UpwardStore(s, cc, m, list, stale, pc);
    StoreEffect(s, cc, MapSource(m.rn), m, list[0], rd, pc);
    ExecuteFirst(false, s, first, chain);
    var u := Execute(false, s, first);
    StoreChainRuns(u, m, list[1..], pc);
    if |list| == 1 {
      assert list[1..] == [];
      StoredNothing(u.memory, u.regs, ChainStart(m, u.core.acc), pc);
      StoredNothing(u.memory, s.regs, ChainStart(m, u.core.acc), pc);
    }
  }

  lemma StoredNothing(memory: Memory, regs: Regs, address: Word, pc: Word)
    ensures StoredMemory(memory, regs, [], address, pc) == memory
  {
  }

  /** The parts of an upward STM. */
  lemma UpwardStore(s: Arch, cc: Condition, m: Mode, list: seq<ArmReg>, stale: RegNo, pc: Word)
    requires 0 < |list| <= 16 && m.up
    ensures var rd := StoreDest(m, |list| == 1);
            var base, n: nat := ReadSource(s.regs, MapSource(m.rn), pc), |list|;
            && StoreMultiple(cc, m, list, stale, pc)
               == [StoreInst(cc, MapSource(m.rn), m, list[0], rd, pc)] + StoreChain(m, list[1..], pc)
            && FirstOperand(s, MapSource(m.rn), pc) == base
            && (rd == if n == 1 && m.wb then MapDest(m.rn) else NoDest) && !MapDest(m.rn).ToCondition?
            && MapDest(m.rn) != NoDest
            && ChainStart(m, base) == StartAddress(m, base, n)
            && Wrap(Wrap(base + 4) + 4 * (n - 1)) == FinalBase(m, base, n)
            && (n == 1 ==> Wrap(base + 4) == FinalBase(m, base, n))
            && StoredMemory(s.memory, s.regs, list, StartAddress(m, base, n), pc)
               == StoredMemory(s.memory.Write(ChainStart(m, base), ReadSource(s.regs, MapSource(list[0]), pc), 15),
                               s.regs, list[1..], ChainStart(m, Wrap(base + 4)), pc)
  {
    hide Wrap, ReadSource, StoreChain, StoreInst, Memory.Write;
    var base := ReadSource(s.regs, MapSource(m.rn), pc);
    WrapAgain(base, |list| - 1);
  }

  /** STM leaves the flags, stores the registers of the list to the architectural
      words in ascending order and sends the architectural base to its register. With
      DB and DA the base register is updated before the stores. */
  lemma StoreMultipleStores(s: Arch, cc: Condition, m: Mode, list: seq<ArmReg>, stale: RegNo, pc: Word)
    requires 0 < |list| <= 16
    ensures var t := ExecuteAll(false, s, StoreMultiple(cc, m, list, stale, pc));
            var base := ReadSource(s.regs, MapSource(m.rn), pc);
            var writes := if m.wb && ConditionMet(false, s.core, cc)
                          then [Write(MapDest(m.rn), FinalBase(m, base, |list|))] else [];
            var storing := if m.up then s.regs else ApplyWrites(s.regs, writes);
            && t.core.flags == s.core.flags && t.log == s.log + writes && t.regs == ApplyWrites(s.regs, writes)
            && t.memory == (if ConditionMet(false, s.core, cc)
                            then StoredMemory(s.memory, storing, list, StartAddress(m, base, |list|), pc)
                            else s.memory)
            && (!ConditionMet(false, s.core, cc) ==> t.core.acc == s.core.acc)
  {
    hide Execute, ConditionMet, StoreMultiple, StoredMemory, ReadSource, ApplyWrites, FinalBase, StartAddress;
    if m.up {
      StoreUp(s, cc, m, list, stale, pc);
    } else {
      StoreDown(s, cc, m, list, stale, pc);
    }
    LogExplainsRegs(false, s, StoreMultiple(cc, m, list, stale, pc));
    var base := ReadSource(s.regs, MapSource(m.rn), pc);
    var writes := if m.wb && ConditionMet(false, s.core, cc) then [Write(MapDest(m.rn), FinalBase(m, base, |list|))]
                  else [];
    assert (s.log + writes)[|s.log|..] == writes;
  }
}
