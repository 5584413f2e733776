/** One clock of the staged datapath as a function of its registered state, and the
    proof that the stages together execute one instruction at a time. */
module GipPipeline {
  import opened Words
  import opened FlatMemory
  import opened GipInstruction
  import opened GipAlu
  import opened GipSequential

  /** Register file: the registers, the instruction in the read stage, and the two
      results in the write stage (value is the ALU or the shifter result, whichever
      the instruction uses). */
  datatype RfStage = RfStage(regs: Regs, valid: bool, inst: Instruction,
                             aluRd: Dest, aluValue: Word, memRd: Dest, memResult: Word, acceptingAluRd: bool)

  datatype AluStage = AluStage(valid: bool, inst: Instruction, aIn: Word, bIn: Word, core: Core)

  datatype MemOp = NoAccess | LoadAccess(size: Size) | StoreAccess(size: Size)

  datatype MemStage = MemStage(rd: Dest, op: MemOp, dataIn: Word, address: Word)

  /** memResult is the output of the synchronous memory; written is the history of
      what went through the write port. */
  datatype Pipe = Pipe(rf: RfStage, alu: AluStage, mem: MemStage, memResult: Word, memory: Memory, written: seq<Write>)

  /** What the decoder offers in a cycle. */
  datatype Offer = Offer(valid: bool, inst: Instruction)

  // ----- combinatorial signals -----

  function AluOutcome(trail2: bool, s: Pipe): (o: Outcome) {
    Evaluate(trail2, s.alu.inst, s.alu.aIn, s.alu.bIn, s.alu.core)
  }

  predicate Passed(trail2: bool, s: Pipe) {
    s.alu.valid && ConditionMet(trail2, s.alu.core, s.alu.inst.cc)
  }

  function AluRd(trail2: bool, s: Pipe): (rd: Dest) {
    if Passed(trail2, s) && !s.alu.inst.kind.Load? then s.alu.inst.rd else NoDest
  }

  function MemRd(trail2: bool, s: Pipe): (rd: Dest) {
    if Passed(trail2, s) && s.alu.inst.kind.Load? then s.alu.inst.rd else NoDest
  }

  function MemOpOf(trail2: bool, s: Pipe): (op: MemOp) {
    if !Passed(trail2, s) then NoAccess
    else if s.alu.inst.kind.Load? then LoadAccess(s.alu.inst.kind.size)
    else if s.alu.inst.kind.Store? then StoreAccess(s.alu.inst.kind.size)
    else NoAccess
  }

  function MemAddress(trail2: bool, s: Pipe): (w: Word) {
    var o := AluOutcome(trail2, s);
    if s.alu.inst.kind.Load? || s.alu.inst.kind.Store? then AccessAddress(s.alu.inst, o) else o.op1
  }

  /** The ALU stage hands over its instruction unless the result has no room in the
      write stage. */
  predicate AluAccepts(trail2: bool, s: Pipe) {
    !Passed(trail2, s) || s.alu.inst.kind.Load? || s.rf.acceptingAluRd
  }

  predicate Flush(trail2: bool, s: Pipe) {
    Passed(trail2, s) && s.alu.inst.f && AluAccepts(trail2, s)
  }

  /** Register r is written by an instruction whose result cannot be forwarded yet. */
  predicate Pending(s: Pipe, r: RegNo) {
    || (s.alu.valid && s.alu.inst.rd == ToReg(r))
    || s.mem.rd == ToReg(r)
    || (s.rf.memRd != NoDest && s.rf.aluRd == ToReg(r))
  }

  /** The hazard check looks at the register description of the second operand even
      when an immediate shares its storage: an immediate of zero reads as "register". */
  predicate WaitsFor(inst: Instruction, r: RegNo) {
    || inst.rn == Reg(r)
    || (if inst.rm.Immediate? then inst.rm.value == 0 && inst.rm.stale == r else inst.rm.source == Reg(r))
  }

  predicate Held(s: Pipe) {
    s.rf.valid && exists r: RegNo :: WaitsFor(s.rf.inst, r) && Pending(s, r)
  }

  predicate RfTakes(trail2: bool, s: Pipe) {
    !s.rf.valid || (!Held(s) && AluAccepts(trail2, s))
  }

  /** Read port with forwarding from the write stage. */
  function ReadPort(rf: RfStage, src: Source, pc: Word): (w: Word) {
    if !src.Reg? then pc
    else if rf.memRd == ToReg(src.r) then rf.memResult
    else if rf.aluRd == ToReg(src.r) then rf.aluValue
    else rf.regs[src.r]
  }

  /** The write port serves the memory result first. */
  function PortRd(rf: RfStage): (rd: Dest) {
    if rf.memRd != NoDest then rf.memRd else rf.aluRd
  }

  function PortValue(rf: RfStage): (w: Word) {
    if rf.memRd != NoDest then rf.memResult else rf.aluValue
  }

  // ----- next state -----

  function NextRf(trail2: bool, s: Pipe, offer: Offer): (rf: RfStage) {
    var flush := Flush(trail2, s);
    var take := RfTakes(trail2, s);
    var valid := if take then offer.valid && !flush else s.rf.valid && !(flush && !s.rf.inst.d);
    var inst := if take then offer.inst else s.rf.inst;
    var aluRd := if s.rf.acceptingAluRd then AluRd(trail2, s) else s.rf.aluRd;
    var aluValue := if s.rf.acceptingAluRd then AluOutcome(trail2, s).value else s.rf.aluValue;
    RfStage(SetReg(s.rf.regs, PortRd(s.rf), PortValue(s.rf)), valid, inst, aluRd, aluValue,
            s.mem.rd, s.memResult, aluRd == NoDest || s.mem.rd == NoDest)
  }

  /** The instruction that enters the ALU stage at the end of the cycle. */
  predicate Enters(trail2: bool, s: Pipe) {
    s.rf.valid && !Held(s) && AluAccepts(trail2, s) && !Flush(trail2, s)
  }

  function NextAlu(trail2: bool, s: Pipe): (alu: AluStage) {
    var accepts := AluAccepts(trail2, s);
    var flush := Flush(trail2, s);
    var latch := s.rf.valid && !flush && accepts;
    var inst := s.rf.inst;
    AluStage(
      if flush then false else if accepts then Enters(trail2, s) else s.alu.valid,
      if accepts then inst else s.alu.inst,
      if latch then ReadPort(s.rf, inst.rn, inst.pc) else s.alu.aIn,
      if !latch then s.alu.bIn
      else if IsMlb(inst) then Wrap(s.alu.bIn * 4)
      else if inst.rm.Immediate? then inst.rm.value
      else ReadPort(s.rf, inst.rm.source, inst.pc),
      if accepts && s.alu.valid then AluOutcome(trail2, s).core else s.alu.core)
  }

  function NextMem(trail2: bool, s: Pipe): (mem: MemStage) {
    MemStage(MemRd(trail2, s), MemOpOf(trail2, s), s.alu.bIn, MemAddress(trail2, s))
  }

  function StoreOf(mem: MemStage, m: Memory): (m': Memory) {
    if mem.op.StoreAccess? then StoreTo(m, mem.op.size, mem.address, mem.dataIn) else m
  }

  function LoadOf(mem: MemStage, m: Memory, before: Word): (w: Word) {
    if mem.op.LoadAccess? then LoadFrom(m, mem.op.size, mem.address) else before
  }

  function Step(trail2: bool, s: Pipe, offer: Offer): (t: Pipe) {
    var mem := NextMem(trail2, s);
    var memory := StoreOf(s.mem, s.memory);
    Pipe(NextRf(trail2, s, offer), NextAlu(trail2, s), mem, LoadOf(mem, memory, s.memResult), memory,
         if PortRd(s.rf) == NoDest then s.written else s.written + [Write(PortRd(s.rf), PortValue(s.rf))])
  }

  // ----- the write-port invariant -----

  /** There is at most one result too many in the write stage, and then nothing
      follows it from the memory stage. */
  ghost predicate Inv(s: Pipe) {
    && (s.rf.acceptingAluRd <==> (s.rf.aluRd == NoDest || s.rf.memRd == NoDest))
    && (!s.rf.acceptingAluRd ==> s.mem.rd == NoDest)
    && (s.mem.rd != NoDest ==> s.mem.op.LoadAccess?)
  }

  lemma StepKeepsInv(trail2: bool, s: Pipe, offer: Offer)
    requires Inv(s)
    ensures Inv(Step(trail2, s, offer))
  {
  }

  // ----- refinement -----

  /** The architectural state once everything past the ALU stage has drained. */
  ghost function Complete(s: Pipe): (a: Arch) {
    var a := Arch(s.rf.regs, StoreOf(s.mem, s.memory), s.alu.core, s.alu.bIn, s.written);
    WriteBack(WriteBack(WriteBack(a, s.rf.memRd, s.rf.memResult), s.rf.aluRd, s.rf.aluValue), s.mem.rd, s.memResult)
  }

  /** ... and once the instruction in the ALU stage has executed too. */
  ghost function AfterAlu(trail2: bool, s: Pipe): (a: Arch) {
    if s.alu.valid then ExecuteAlu(trail2, Complete(s), s.alu.inst, s.alu.aIn, s.alu.bIn) else Complete(s)
  }

  /** The pipeline stands for the sequential machine m. The second ALU input may
      only differ while a waiting instruction that will overwrite it holds a bubble
      in front of it. */
  ghost predicate Refines(trail2: bool, s: Pipe, m: Arch) {
    && AfterAlu(trail2, s) == m.(bIn := s.alu.bIn)
    && (s.alu.bIn == m.bIn || (s.rf.valid && !IsMlb(s.rf.inst) && !s.alu.valid))
  }

  /** A multiplication step is stuck behind the hazard check while the ALU moves on:
      its operand is shifted without it being executed. */
  predicate MlbHeld(trail2: bool, s: Pipe) {
    Held(s) && IsMlb(s.rf.inst) && AluAccepts(trail2, s) && !Flush(trail2, s)
  }

  /** The write stage in a cycle in which the ALU hands over: the port serves the oldest
      result and the new ones queue up behind the others. */
  lemma QueueMoves(trail2: bool, s: Pipe, offer: Offer)
    requires Inv(s) && AluAccepts(trail2, s)
    ensures var t := Step(trail2, s, offer);
            var a := Complete(s).(memory := StoreOf(t.mem, t.memory), core := t.alu.core, bIn := t.alu.bIn);
            && StoreOf(s.mem, s.memory) == Complete(s).memory == t.memory
            && Complete(s).core == s.alu.core
            && Complete(t) == WriteBack(WriteBack(a, AluRd(trail2, s), AluOutcome(trail2, s).value), t.mem.rd,
                                        LoadOf(t.mem, t.memory, 0))
  {
    hide Evaluate, LoadFrom, StoreTo, Held, SetReg, ReadPort, StoreOf, MemAddress;
    NothingWritten(s.rf.regs, PortValue(s.rf));
  }

  lemma AluRetires(trail2: bool, s: Pipe, offer: Offer)
    requires Inv(s) && AluAccepts(trail2, s)
    ensures var t := Step(trail2, s, offer);
            Complete(t) == AfterAlu(trail2, s).(bIn := t.alu.bIn)
  {
    hide Evaluate, LoadFrom, StoreTo, Held, SetReg, ReadPort, Complete;
    QueueMoves(trail2, s, offer);
  }

  lemma AluWaits(trail2: bool, s: Pipe, offer: Offer)
    requires Inv(s) && !AluAccepts(trail2, s)
    ensures var t := Step(trail2, s, offer);
            AfterAlu(trail2, t) == AfterAlu(trail2, s) && t.alu == s.alu
  {
    hide Evaluate, LoadFrom, StoreTo, Held;
    if s.alu.inst.kind.Store? {
      StoreTwice(StoreOf(s.mem, s.memory), s.alu.inst.kind.size, MemAddress(trail2, s), s.alu.bIn);
    }
  }

  /** A store that is blocked for a cycle reaches the memory twice, to no effect. */
  lemma StoreTwice(m: Memory, size: Size, address: Word, data: Word)
    ensures StoreTo(StoreTo(m, size, address, data), size, address, data) == StoreTo(m, size, address, data)
  {
    var n := LaneOffset(size, address);
    WriteTwice(m, address - n, Wrap(data * Pow2(8 * n)), LaneMask(size) * Pow2(n));
  }

  lemma ForwardingReadsLatest(trail2: bool, s: Pipe, src: Source, pc: Word)
    requires Inv(s)
    requires src.Reg? ==> !Pending(s, src.r)
    ensures ReadPort(s.rf, src, pc) == ReadSource(AfterAlu(trail2, s).regs, src, pc)
  {
    hide Complete, ExecuteAlu;
    if src.Reg? {
      CompleteReads(s, src.r, pc);
      if s.alu.valid {
        OnlyDestinationChanges(trail2, Complete(s), s.alu.inst, s.alu.aIn, s.alu.bIn, src.r);
      }
    }
  }

  lemma OnlyDestinationChanges(trail2: bool, s: Arch, inst: Instruction, aIn: Word, bIn: Word, r: RegNo)
    requires inst.rd != ToReg(r)
    ensures ExecuteAlu(trail2, s, inst, aIn, bIn).regs[r] == s.regs[r]
  {
    hide Evaluate, LoadFrom, StoreTo;
  }

  lemma CompleteReads(s: Pipe, r: RegNo, pc: Word)
    requires !Pending(s, r)
    ensures Complete(s).regs[r] == ReadPort(s.rf, Reg(r), pc)
  {
    hide StoreOf;
  }

  /** The refinement step, with the one case in which it fails: a multiplication step
      that waits behind the hazard check while the second ALU input is not zero. */
  lemma StepRefines(trail2: bool, s: Pipe, offer: Offer, m: Arch)
    requires Inv(s) && Refines(trail2, s, m)
    ensures Refines(trail2, Step(trail2, s, offer),
                    if Enters(trail2, s) then Execute(trail2, m, s.rf.inst) else m)
            <==> !(MlbHeld(trail2, s) && s.alu.bIn != 0)
  {
    hide Evaluate, LoadFrom, StoreTo, Complete, ReadPort, NextMem, SetReg;
    if !AluAccepts(trail2, s) {
      AluWaits(trail2, s, offer);
    } else {
      AluRetires(trail2, s, offer);
      if Enters(trail2, s) {
        var inst := s.rf.inst;
        ForwardingReadsLatest(trail2, s, inst.rn, inst.pc);
        if inst.rm.Register? {
          ForwardingReadsLatest(trail2, s, inst.rm.source, inst.pc);
        }
      }
    }
  }

  // ----- runs -----

  function Run(trail2: bool, s: Pipe, offers: seq<Offer>): (t: Pipe)
    decreases |offers|
  {
    if offers == [] then s else Run(trail2, Step(trail2, s, offers[0]), offers[1..])
  }

  /** The instructions that reach the ALU stage during a run, in order. */
  function Entered(trail2: bool, s: Pipe, offers: seq<Offer>): (insts: seq<Instruction>)
    decreases |offers|
  {
    if offers == [] then []
    else
      (if Enters(trail2, s) then [s.rf.inst] else []) + Entered(trail2, Step(trail2, s, offers[0]), offers[1..])
  }

  predicate NoMlbHeld(trail2: bool, s: Pipe, offers: seq<Offer>)
    decreases |offers|
  {
    offers != [] ==>
      && !(MlbHeld(trail2, s) && s.alu.bIn != 0)
      && NoMlbHeld(trail2, Step(trail2, s, offers[0]), offers[1..])
  }

  /** What a clock does to the sequential machine. A multiplication step that is held
      quadruples its operand once more. */
  datatype Event = Enter(inst: Instruction) | Quadruple

  function Perform(trail2: bool, m: Arch, e: Event): (r: Arch) {
    match e
    case Enter(inst) => Execute(trail2, m, inst)
    case Quadruple => m.(bIn := Wrap(m.bIn * 4))
  }

  function PerformAll(trail2: bool, m: Arch, events: seq<Event>): (r: Arch)
    decreases |events|
  {
    if events == [] then m else PerformAll(trail2, Perform(trail2, m, events[0]), events[1..])
  }

  function Happens(trail2: bool, s: Pipe): (events: seq<Event>)
    ensures |events| <= 1
  {
    if Enters(trail2, s) then [Enter(s.rf.inst)] else if MlbHeld(trail2, s) then [Quadruple] else []
  }

  function Events(trail2: bool, s: Pipe, offers: seq<Offer>): (events: seq<Event>)
    decreases |offers|
  {
    if offers == [] then [] else Happens(trail2, s) + Events(trail2, Step(trail2, s, offers[0]), offers[1..])
  }

  lemma PerformFirst(trail2: bool, m: Arch, first: seq<Event>, rest: seq<Event>)
    requires |first| <= 1
    ensures PerformAll(trail2, m, first + rest) == PerformAll(trail2, PerformAll(trail2, m, first), rest)
  {
    hide Perform;
    if first == [] {
      assert first + rest == rest;
    } else {
      assert (first + rest)[1..] == rest && first[1..] == [];
    }
  }

  lemma StepPerforms(trail2: bool, s: Pipe, offer: Offer, m: Arch)
    requires Inv(s) && Refines(trail2, s, m)
    ensures Refines(trail2, Step(trail2, s, offer), PerformAll(trail2, m, Happens(trail2, s)))
  {
    hide *;
    HeldDoesNotEnter(trail2, s);
    if Enters(trail2, s) {
      StepRefines(trail2, s, offer, m);
      PerformOne(trail2, m, Enter(s.rf.inst));
    } else if MlbHeld(trail2, s) {
      HeldStepQuadruples(trail2, s, offer, m);
      PerformOne(trail2, m, Quadruple);
    } else {
      StepRefines(trail2, s, offer, m);
    }
    HappensIs(trail2, s, m);
  }

  lemma HeldDoesNotEnter(trail2: bool, s: Pipe)
    ensures MlbHeld(trail2, s) ==> !Enters(trail2, s)
  {
    hide Held, AluAccepts, Flush;
  }

  lemma HappensIs(trail2: bool, s: Pipe, m: Arch)
    ensures Happens(trail2, s)
            == if Enters(trail2, s) then [Enter(s.rf.inst)] else if MlbHeld(trail2, s) then [Quadruple] else []
    ensures PerformAll(trail2, m, []) == m
  {
    hide Enters, MlbHeld;
  }

  lemma PerformOne(trail2: bool, m: Arch, e: Event)
    ensures PerformAll(trail2, m, [e]) == match e case Enter(inst) => Execute(trail2, m, inst)
                                                  case Quadruple => m.(bIn := Wrap(m.bIn * 4))
  {
    hide Execute, Wrap;
    assert [e][1..] == [];
  }

  lemma HeldStepQuadruples(trail2: bool, s: Pipe, offer: Offer, m: Arch)
    requires Inv(s) && Refines(trail2, s, m) && MlbHeld(trail2, s)
    ensures Refines(trail2, Step(trail2, s, offer), m.(bIn := Wrap(m.bIn * 4)))
  {
    hide Inv, Evaluate, LoadFrom, StoreTo, Complete, ReadPort, NextMem, SetReg, ExecuteAlu;
    AluRetires(trail2, s, offer);
  }

  /** Every run of the pipeline, whatever the bubbles, stalls and flushes, does what the
      sequential machine does with the instructions that enter the ALU, one at a time,
      each held clock of a multiplication step counting as a quadrupling. */
  lemma {:induction false} RunRefines(trail2: bool, s: Pipe, offers: seq<Offer>, m: Arch)
    requires Inv(s) && Refines(trail2, s, m)
    ensures Inv(Run(trail2, s, offers))
    ensures Refines(trail2, Run(trail2, s, offers), PerformAll(trail2, m, Events(trail2, s, offers)))
    decreases |offers|
  {
    hide Evaluate, Perform, Step, Happens, Refines, Inv, MlbHeld;
    if offers != [] {
      var t := Step(trail2, s, offers[0]);
      StepKeepsInv(trail2, s, offers[0]);
      StepPerforms(trail2, s, offers[0], m);
      RunRefines(trail2, t, offers[1..], PerformAll(trail2, m, Happens(trail2, s)));
      PerformFirst(trail2, m, Happens(trail2, s), Events(trail2, t, offers[1..]));
    }
  }

  /** Without such a clock, that is plain execution of the entered instructions. */
  lemma {:induction false} RunExecutes(trail2: bool, s: Pipe, offers: seq<Offer>, m: Arch)
    requires Inv(s) && Refines(trail2, s, m) && NoMlbHeld(trail2, s, offers)
    ensures Refines(trail2, Run(trail2, s, offers), ExecuteAll(trail2, m, Entered(trail2, s, offers)))
    decreases |offers|
  {
    hide Evaluate, Execute, Step, Enters, Refines, Inv, MlbHeld;
    if offers != [] {
      var t := Step(trail2, s, offers[0]);
      StepKeepsInv(trail2, s, offers[0]);
      StepRefines(trail2, s, offers[0], m);
      var rest := Entered(trail2, t, offers[1..]);
      if Enters(trail2, s) {
        RunExecutes(trail2, t, offers[1..], Execute(trail2, m, s.rf.inst));
        assert ([s.rf.inst] + rest)[1..] == rest;
      } else {
        RunExecutes(trail2, t, offers[1..], m);
        assert [] + rest == rest;
      }
    }
  }
}
