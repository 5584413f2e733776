/** One-at-a-time execution of internal instructions: the machine that the
    pipeline and the single-step model implement. */
module GipSequential {
  import opened Words
  import opened FlatMemory
  import opened GipInstruction
  import opened GipAlu

  type Regs = s: seq<Word> | |s| == 32 witness seq(32, i => 0)

  /** A result going through the write port of the register file. */
  datatype Write = Write(rd: Dest, value: Word)

  /** Architectural state. bIn is the second ALU input, which a multiplication step
      shifts on; log lists every write-back in the order of execution. */
  datatype Arch = Arch(regs: Regs, memory: Memory, core: Core, bIn: Word, log: seq<Write>)

  function SetReg(regs: Regs, rd: Dest, value: Word): (r: Regs) {
    if rd.ToReg? then regs[rd.r := value] else regs
  }

  lemma NothingWritten(regs: Regs, value: Word)
    ensures SetReg(regs, NoDest, value) == regs
  {
  }

  function WriteBack(s: Arch, rd: Dest, value: Word): (t: Arch) {
    if rd.NoDest? then s
    else s.(regs := SetReg(s.regs, rd, value), log := s.log + [Write(rd, value)])
  }

  function ReadSource(regs: Regs, src: Source, pc: Word): (w: Word) {
    if src.Reg? then regs[src.r] else pc
  }

  /** The second ALU input of an instruction, given the previous one. */
  function SecondInput(regs: Regs, inst: Instruction, bIn: Word): (w: Word) {
    if IsMlb(inst) then Wrap(bIn * 4)
    else if inst.rm.Immediate? then inst.rm.value
    else ReadSource(regs, inst.rm.source, inst.pc)
  }

  function LaneOffset(size: Size, address: Word): (n: nat)
    ensures n <= address && n < 4
  {
    match size
    case SizeWord => 0
    case SizeHalf => address / 2 % 2 * 2
    case SizeByte => address % 4
  }

  function LaneMask(size: Size): (n: nat) {
    match size
    case SizeWord => 15
    case SizeHalf => 3
    case SizeByte => 1
  }

  function LoadFrom(m: Memory, size: Size, address: Word): (w: Word) {
    var data := m.Read(address);
    ShiftRightBelow(data, 8 * LaneOffset(size, address));
    data / Pow2(8 * LaneOffset(size, address))
  }

  function StoreTo(m: Memory, size: Size, address: Word, data: Word): (m': Memory) {
    var n := LaneOffset(size, address);
    m.Write(address - n, Wrap(data * Pow2(8 * n)), LaneMask(size) * Pow2(n))
  }

  lemma WordAccess(memory: Memory, address: Word, data: Word)
    ensures LoadFrom(memory, SizeWord, address) == memory.Read(address)
    ensures StoreTo(memory, SizeWord, address, data) == memory.Write(address, data, 15)
  {
    assert Pow2(0) == 1;
    WrapOfWord(data);
  }

  function AccessAddress(inst: Instruction, o: Outcome): (w: Word)
    requires inst.kind.Load? || inst.kind.Store?
  {
    if inst.kind.preindex then o.value else o.op1
  }

  /** The ALU and memory half of an instruction, its two inputs having been read. */
  function ExecuteAlu(trail2: bool, s: Arch, inst: Instruction, aIn: Word, bIn: Word): (t: Arch) {
    var o := Evaluate(trail2, inst, aIn, bIn, s.core);
    var t := s.(core := o.core, bIn := bIn);
    if !o.passed then t
    else
      match inst.kind
      case Load(size, _, _) => WriteBack(t, inst.rd, LoadFrom(s.memory, size, AccessAddress(inst, o)))
      case Store(size, _, _, _) =>
        WriteBack(t.(memory := StoreTo(s.memory, size, AccessAddress(inst, o), bIn)), inst.rd, o.value)
      case _ => WriteBack(t, inst.rd, o.value)
  }

  function Execute(trail2: bool, s: Arch, inst: Instruction): (t: Arch) {
    ExecuteAlu(trail2, s, inst, ReadSource(s.regs, inst.rn, inst.pc), SecondInput(s.regs, inst, s.bIn))
  }

  function ExecuteAll(trail2: bool, s: Arch, insts: seq<Instruction>): (t: Arch)
    decreases |insts|
  {
    if insts == [] then s
    else ExecuteAll(trail2, Execute(trail2, s, insts[0]), insts[1..])
  }

  /** A word load or store in terms of what the ALU makes of it. */
  lemma WordAccessExecutes(trail2: bool, s: Arch, inst: Instruction)
    requires (inst.kind.Load? || inst.kind.Store?) && inst.kind.size.SizeWord?
    ensures var t := Execute(trail2, s, inst);
            var bIn := SecondInput(s.regs, inst, s.bIn);
            var o := Evaluate(trail2, inst, ReadSource(s.regs, inst.rn, inst.pc), bIn, s.core);
            var data := if inst.kind.Load? then s.memory.Read(AccessAddress(inst, o)) else o.value;
            var writes := o.passed && inst.rd != NoDest;
            && t.core == o.core
            && t.memory == (if o.passed && inst.kind.Store? then s.memory.Write(AccessAddress(inst, o), bIn, 15)
                            else s.memory)
            && t.regs == (if writes then SetReg(s.regs, inst.rd, data) else s.regs)
            && t.log == (if writes then s.log + [Write(inst.rd, data)] else s.log)
  {
    hide Evaluate, LoadFrom, StoreTo, Memory.Read, Memory.Write, SetReg, ReadSource, SecondInput, AccessAddress;
    var bIn := SecondInput(s.regs, inst, s.bIn);
    var o := Evaluate(trail2, inst, ReadSource(s.regs, inst.rn, inst.pc), bIn, s.core);
    WordAccess(s.memory, AccessAddress(inst, o), bIn);
  }

  // ----- the number left over beside an immediate is never read -----

  function WithoutStale(inst: Instruction): (r: Instruction) {
    if inst.rm.Immediate? then inst.(rm := inst.rm.(stale := 0)) else inst
  }

  predicate Alike(a: seq<Instruction>, b: seq<Instruction>) {
    |a| == |b| && forall k | 0 <= k < |a| :: WithoutStale(a[k]) == WithoutStale(b[k])
  }

  lemma ExecuteIgnoresStale(trail2: bool, s: Arch, a: Instruction, b: Instruction)
    requires WithoutStale(a) == WithoutStale(b)
    ensures Execute(trail2, s, a) == Execute(trail2, s, b)
  {
    hide Evaluate, LoadFrom, StoreTo, SecondInput, ReadSource;
    StaleNotRead(s.regs, a, b, s.bIn);
    StaleNotEvaluated(trail2, a, b, ReadSource(s.regs, a.rn, a.pc), SecondInput(s.regs, a, s.bIn), s.core);
  }

  lemma StaleNotRead(regs: Regs, a: Instruction, b: Instruction, bIn: Word)
    requires WithoutStale(a) == WithoutStale(b)
    ensures b.(rm := a.rm) == a && SecondInput(regs, a, bIn) == SecondInput(regs, b, bIn)
  {
  }

  lemma StaleNotEvaluated(trail2: bool, a: Instruction, b: Instruction, aIn: Word, bIn: Word, core: Core)
    requires WithoutStale(a) == WithoutStale(b)
    ensures Evaluate(trail2, a, aIn, bIn, core) == Evaluate(trail2, b, aIn, bIn, core)
  {
    hide ArithResult, ArithShift, LogicResult, BarrelShift, ConditionMet, SumFlags, NextCp, Operand1, Operand2;
    SameOperandsRead(a, b, aIn, bIn, core);
    assert a.kind == b.kind && a.cc == b.cc && a.rd == b.rd && a.a == b.a;
  }

  lemma SameOperandsRead(a: Instruction, b: Instruction, aIn: Word, bIn: Word, core: Core)
    requires WithoutStale(a) == WithoutStale(b)
    ensures Operand1(a, aIn, core) == Operand1(b, aIn, core) && Operand2(a, bIn, core) == Operand2(b, bIn, core)
  {
  }

  lemma {:induction false} AllIgnoreStale(trail2: bool, s: Arch, a: seq<Instruction>, b: seq<Instruction>)
    requires Alike(a, b)
    ensures ExecuteAll(trail2, s, a) == ExecuteAll(trail2, s, b)
    decreases |a|
  {
    hide Execute, WithoutStale;
    if a != [] {
      ExecuteIgnoresStale(trail2, s, a[0], b[0]);
      AllIgnoreStale(trail2, Execute(trail2, s, a[0]), a[1..], b[1..]);
    }
  }

  // ----- general facts -----

  /** The registers after a sequence of write-backs. */
  function ApplyWrites(regs: Regs, writes: seq<Write>): (r: Regs)
    decreases |writes|
  {
    if writes == [] then regs else ApplyWrites(SetReg(regs, writes[0].rd, writes[0].value), writes[1..])
  }

  lemma {:induction false} ApplyWritesSplits(regs: Regs, a: seq<Write>, b: seq<Write>)
    ensures ApplyWrites(regs, a + b) == ApplyWrites(ApplyWrites(regs, a), b)
    decreases |a|
  {
    if a == [] {
      assert a + b == b;
    } else {
      ApplyWritesSplits(SetReg(regs, a[0].rd, a[0].value), a[1..], b);
      assert (a + b)[1..] == a[1..] + b;
    }
  }

  lemma {:induction false} ExecuteAllSplits(trail2: bool, s: Arch, a: seq<Instruction>, b: seq<Instruction>)
    ensures ExecuteAll(trail2, s, a + b) == ExecuteAll(trail2, ExecuteAll(trail2, s, a), b)
    decreases |a|
  {
    hide Execute;
    if a == [] {
      assert a + b == b;
    } else {
      ExecuteAllSplits(trail2, Execute(trail2, s, a[0]), a[1..], b);
      assert (a + b)[1..] == a[1..] + b;
    }
  }

  lemma ExecuteFirst(trail2: bool, s: Arch, i: Instruction, rest: seq<Instruction>)
    ensures ExecuteAll(trail2, s, [i] + rest) == ExecuteAll(trail2, Execute(trail2, s, i), rest)
  {
    hide Execute;
    assert ([i] + rest)[1..] == rest;
  }

  lemma ExecuteOne(trail2: bool, s: Arch, i: Instruction)
    ensures ExecuteAll(trail2, s, [i]) == Execute(trail2, s, i)
  {
    hide Execute;
    assert ExecuteAll(trail2, Execute(trail2, s, i), [i][1..]) == Execute(trail2, s, i);
  }

  /** An instruction writes back at most one result. */
  lemma ExecuteLogs(trail2: bool, s: Arch, inst: Instruction)
    ensures var t := Execute(trail2, s, inst);
            && s.log <= t.log && |t.log| <= |s.log| + 1
            && t.regs == ApplyWrites(s.regs, t.log[|s.log|..])
  {
    hide Evaluate, LoadFrom, StoreTo, ReadSource, SecondInput;
    var t := Execute(trail2, s, inst);
    if |t.log| == |s.log| + 1 {
      var w := t.log[|s.log|];
      assert t.log[|s.log|..] == [w] && [w][1..] == [];
      assert ApplyWrites(s.regs, [w]) == ApplyWrites(SetReg(s.regs, w.rd, w.value), []);
    }
  }

  /** Registers change by write-backs only: the log of an execution explains them. */
  lemma {:induction false} LogExplainsRegs(trail2: bool, s: Arch, insts: seq<Instruction>)
    ensures var t := ExecuteAll(trail2, s, insts);
            s.log <= t.log && t.regs == ApplyWrites(s.regs, t.log[|s.log|..])
    decreases |insts|
  {
    hide Execute;
    var t := ExecuteAll(trail2, s, insts);
    if insts == [] {
      assert t.log[|s.log|..] == [];
    } else {
      var u := Execute(trail2, s, insts[0]);
      ExecuteLogs(trail2, s, insts[0]);
      LogExplainsRegs(trail2, u, insts[1..]);
      ApplyWritesSplits(s.regs, u.log[|s.log|..], t.log[|u.log|..]);
      assert t.log[|s.log|..] == u.log[|s.log|..] + t.log[|u.log|..];
    }
  }
}
