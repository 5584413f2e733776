/** What follows from the refinement for whole runs of the pipeline: the write port
    serves every result once and in program order, stalls are bounded, flushes cancel
    exactly the younger instructions, and idle cycles drain the stages. */
module GipArbitration {
  import opened Words
  import opened FlatMemory
  import opened GipInstruction
  import opened GipAlu
  import opened GipSequential
  import opened GipPipeline

  // ----- the write port -----

  function WriteOf(rd: Dest, value: Word): (w: seq<Write>) {
    if rd == NoDest then [] else [Write(rd, value)]
  }

  /** Results past the ALU stage that the write port has not served, oldest first. */
  function InFlight(s: Pipe): (w: seq<Write>) {
    WriteOf(s.rf.memRd, s.rf.memResult) + WriteOf(s.rf.aluRd, s.rf.aluValue) + WriteOf(s.mem.rd, s.memResult)
  }

  /** The result that the instruction in the ALU stage is about to produce. */
  function AluResult(trail2: bool, s: Pipe): (w: seq<Write>) {
    if !Passed(trail2, s) then []
    else if s.alu.inst.kind.Load? then
      WriteOf(s.alu.inst.rd,
              LoadFrom(StoreOf(s.mem, s.memory), s.alu.inst.kind.size, MemAddress(trail2, s)))
    else WriteOf(s.alu.inst.rd, AluOutcome(trail2, s).value)
  }

  /** In every state the port history, followed by what is in flight and the result
      in the ALU stage, is exactly the write-back sequence of sequential execution:
      no result is lost, repeated or overtaken. */
  lemma WritePortExact(trail2: bool, s: Pipe, m: Arch)
    requires Inv(s) && Refines(trail2, s, m)
    ensures m.log == s.written + InFlight(s) + AluResult(trail2, s)
    ensures |InFlight(s)| <= 2
  {
    hide Evaluate, LoadFrom, StoreTo;
    InFlightIsPending(s);
    assert m.log == AfterAlu(trail2, s).log;
    hide Complete, InFlight;
    assert AfterAlu(trail2, s).log == Complete(s).log + AluResult(trail2, s);
  }

  lemma InFlightIsPending(s: Pipe)
    requires Inv(s)
    ensures Complete(s).log == s.written + InFlight(s)
    ensures |InFlight(s)| <= 2
  {
    hide StoreOf;
  }

  /** A result that finds the port taken is served in the next cycle. */
  lemma HeldResultWaitsOneCycle(trail2: bool, s: Pipe, offer: Offer)
    requires Inv(s) && !s.rf.acceptingAluRd
    ensures var t := Step(trail2, s, offer);
            t.rf.acceptingAluRd && PortRd(t.rf) == s.rf.aluRd && PortValue(t.rf) == s.rf.aluValue
  {
  }

  // ----- stalls -----

  /** How long the instruction in the read stage can still be held. */
  function HoldRank(trail2: bool, s: Pipe): (n: nat)
    ensures n <= 3
  {
    if !Held(s) then 0
    else if !s.alu.valid then 1
    else if AluAccepts(trail2, s) then 2
    else 3
  }

  lemma HoldRankFalls(trail2: bool, s: Pipe, offer: Offer)
    requires Inv(s) && Held(s)
    ensures HoldRank(trail2, Step(trail2, s, offer)) < HoldRank(trail2, s)
  {
    hide Evaluate, LoadFrom, StoreTo, Refines;
  }

  /** The hazard check holds an instruction for at most three cycles, whatever is
      offered meanwhile. */
  lemma {:induction false} HoldsAreBounded(trail2: bool, s: Pipe, offers: seq<Offer>)
    requires Inv(s) && |offers| >= HoldRank(trail2, s)
    ensures exists k :: 0 <= k <= HoldRank(trail2, s) && !Held(Run(trail2, s, offers[..k]))
    decreases HoldRank(trail2, s)
  {
    hide Step, Inv, Held;
    if !Held(s) {
      assert offers[..0] == [];
      assert !Held(Run(trail2, s, offers[..0]));
    } else {
      var t := Step(trail2, s, offers[0]);
      StepKeepsInv(trail2, s, offers[0]);
      HoldRankFalls(trail2, s, offers[0]);
      HoldsAreBounded(trail2, t, offers[1..]);
      var k :| 0 <= k <= HoldRank(trail2, t) && !Held(Run(trail2, t, offers[1..][..k]));
      assert offers[..k + 1][0] == offers[0] && offers[..k + 1][1..] == offers[1..][..k];
      assert !Held(Run(trail2, s, offers[..k + 1]));
    }
  }

  /** The ALU stage never refuses two cycles running. */
  lemma AluAcceptsNextCycle(trail2: bool, s: Pipe, offer: Offer)
    requires Inv(s) && !AluAccepts(trail2, s)
    ensures AluAccepts(trail2, Step(trail2, s, offer))
  {
    hide Evaluate;
  }

  // ----- flushes -----

  function ReadStage(s: Pipe): (q: seq<Instruction>) {
    if s.rf.valid then [s.rf.inst] else []
  }

  /** The instruction the read stage takes from the decoder. */
  function Taken(trail2: bool, s: Pipe, offer: Offer): (q: seq<Instruction>) {
    if RfTakes(trail2, s) && offer.valid then [offer.inst] else []
  }

  function EnteredNow(trail2: bool, s: Pipe): (q: seq<Instruction>) {
    if Enters(trail2, s) then [s.rf.inst] else []
  }

  /** Without a flush the read stage is a queue; a flush empties it and refuses the
      offer. A delay-slot instruction survives exactly when a hazard holds it in the
      read stage in that very cycle. */
  lemma FlushCancelsYounger(trail2: bool, s: Pipe, offer: Offer)
    ensures var t := Step(trail2, s, offer);
            if Flush(trail2, s) then
              EnteredNow(trail2, s) == []
              && ReadStage(t) == (if Held(s) && s.rf.inst.d then ReadStage(s) else [])
            else
              ReadStage(s) + Taken(trail2, s, offer) == EnteredNow(trail2, s) + ReadStage(t)
  {
    hide Evaluate, LoadFrom, StoreTo, Pending;
  }

  predicate NoFlush(trail2: bool, s: Pipe, offers: seq<Offer>)
    decreases |offers|
  {
    offers != [] ==> !Flush(trail2, s) && NoFlush(trail2, Step(trail2, s, offers[0]), offers[1..])
  }

  function Accepted(trail2: bool, s: Pipe, offers: seq<Offer>): (q: seq<Instruction>)
    decreases |offers|
  {
    if offers == [] then []
    else Taken(trail2, s, offers[0]) + Accepted(trail2, Step(trail2, s, offers[0]), offers[1..])
  }

  /** Between flushes every accepted instruction enters the ALU once, in order. */
  lemma {:induction false} AcceptedInstructionsEnter(trail2: bool, s: Pipe, offers: seq<Offer>)
    requires NoFlush(trail2, s, offers)
    ensures ReadStage(s) + Accepted(trail2, s, offers)
            == Entered(trail2, s, offers) + ReadStage(Run(trail2, s, offers))
    decreases |offers|
  {
    hide Step, Flush, Enters, Taken, ReadStage, EnteredNow;
    if offers != [] {
      var t := Step(trail2, s, offers[0]);
      FlushCancelsYounger(trail2, s, offers[0]);
      AcceptedInstructionsEnter(trail2, t, offers[1..]);
      EntersFirst(trail2, s, offers);
      Regroup(ReadStage(s), Taken(trail2, s, offers[0]), EnteredNow(trail2, s), ReadStage(t),
              Accepted(trail2, t, offers[1..]), Entered(trail2, t, offers[1..]), ReadStage(Run(trail2, s, offers)));
    }
  }

  lemma EntersFirst(trail2: bool, s: Pipe, offers: seq<Offer>)
    requires offers != []
    ensures Entered(trail2, s, offers)
        == EnteredNow(trail2, s) + Entered(trail2, Step(trail2, s, offers[0]), offers[1..])
  {
    hide Step, Enters;
  }

  lemma Regroup<T>(a: seq<T>, b: seq<T>, c: seq<T>, d: seq<T>, e: seq<T>, f: seq<T>, g: seq<T>)
    requires a + b == c + d && d + e == f + g
    ensures a + (b + e) == (c + f) + g
  {
    assert a + (b + e) == (a + b) + e;
    assert (c + d) + e == c + (d + e);
    assert c + (f + g) == (c + f) + g;
  }

  // ----- draining -----

  predicate Drained(s: Pipe) {
    && !s.rf.valid && !s.alu.valid && !s.mem.op.StoreAccess?
    && s.mem.rd == NoDest && s.rf.memRd == NoDest && s.rf.aluRd == NoDest
  }

  /** Cycles of work left in the stages. */
  function Work(s: Pipe): (n: nat)
    ensures n <= 15
  {
    (if s.rf.valid then 5 else 0) + (if s.alu.valid then 4 else 0)
    + (if s.mem.rd != NoDest then 2 else 0) + (if s.mem.op.StoreAccess? then 1 else 0)
    + (if s.rf.memRd != NoDest then 1 else 0) + (if s.rf.aluRd != NoDest then 1 else 0)
    + (if s.rf.memRd != NoDest && s.rf.aluRd != NoDest then 1 else 0)
  }

  lemma IdleStepWorks(trail2: bool, s: Pipe, offer: Offer)
    requires Inv(s) && !Drained(s) && !offer.valid
    ensures Work(Step(trail2, s, offer)) < Work(s)
  {
    hide Evaluate, LoadFrom, StoreTo;
  }

  lemma IdleStepStaysDrained(trail2: bool, s: Pipe, offer: Offer)
    requires Drained(s) && !offer.valid
    ensures Drained(Step(trail2, s, offer))
  {
    hide Evaluate, LoadFrom, StoreTo;
  }

  /** Idle cycles drain the pipeline in bounded time. */
  lemma {:induction false} IdleCyclesDrain(trail2: bool, s: Pipe, offers: seq<Offer>)
    requires Inv(s) && |offers| >= Work(s) && forall o <- offers :: !o.valid
    ensures Drained(Run(trail2, s, offers))
    decreases |offers|
  {
    hide Step, Inv;
    if offers != [] {
      StepKeepsInv(trail2, s, offers[0]);
      if Drained(s) {
        IdleStepStaysDrained(trail2, s, offers[0]);
      } else {
        IdleStepWorks(trail2, s, offers[0]);
      }
      IdleCyclesDrain(trail2, Step(trail2, s, offers[0]), offers[1..]);
    }
  }

  // ----- multiplication steps -----

  /** A multiplication step waits for no register, or is offered right behind an
      instruction without destination that waits for the same ones; the expansion
      of a multiply instruction has the second form. */
  ghost predicate ChainedStep(s: Pipe, offer: Offer) {
    offer.valid && IsMlb(offer.inst) && (exists r: RegNo :: WaitsFor(offer.inst, r)) ==>
      s.rf.valid && s.rf.inst.rd == NoDest && forall r: RegNo | WaitsFor(offer.inst, r) :: WaitsFor(s.rf.inst, r)
  }

  ghost predicate Chained(trail2: bool, s: Pipe, offers: seq<Offer>)
    decreases |offers|
  {
    offers != [] ==> ChainedStep(s, offers[0]) && Chained(trail2, Step(trail2, s, offers[0]), offers[1..])
  }

  ghost predicate MlbReady(s: Pipe) {
    s.rf.valid && IsMlb(s.rf.inst) ==> !Held(s)
  }

  lemma ChainedStepKeepsReady(trail2: bool, s: Pipe, offer: Offer)
    requires Inv(s) && MlbReady(s) && ChainedStep(s, offer)
    ensures MlbReady(Step(trail2, s, offer))
  {
    hide Evaluate, LoadFrom, StoreTo;
    var t := Step(trail2, s, offer);
    if t.rf.valid && IsMlb(t.rf.inst) {
      forall r: RegNo | WaitsFor(t.rf.inst, r) ensures !Pending(t, r) {
        if RfTakes(trail2, s) {
          assert WaitsFor(offer.inst, r);
          assert WaitsFor(s.rf.inst, r);
        } else {
          assert WaitsFor(s.rf.inst, r);
        }
        assert !Pending(s, r);
      }
    }
  }

  /** Chained multiplication steps are never held, so such runs refine execution. */
  lemma {:induction false} ChainedRunsNeverHold(trail2: bool, s: Pipe, offers: seq<Offer>)
    requires Inv(s) && MlbReady(s) && Chained(trail2, s, offers)
    ensures NoMlbHeld(trail2, s, offers)
    decreases |offers|
  {
    hide Step, Inv;
    if offers != [] {
      StepKeepsInv(trail2, s, offers[0]);
      ChainedStepKeepsReady(trail2, s, offers[0]);
      ChainedRunsNeverHold(trail2, Step(trail2, s, offers[0]), offers[1..]);
    }
  }

  const EXAMPLE_MOV: Instruction :=
    Instruction(Logic(Mov, false, false), Always, Acc, Immediate(1, 0), ToReg(1), false, false, false, 0)

  const EXAMPLE_MLB: Instruction :=
    Instruction(Arith(Mlb, false, false), Always, Acc, Immediate(0, 1), NoDest, true, false, false, 0)

  const EXAMPLE_CORE: Core := Core(0, 1, Flags(false, false, false, false), false, false, false)

  /** MOV R1, #1 with a multiplication step behind it whose unused immediate zero
      happens to share storage with the number of R1. */
  function HeldStepExample(): (s: Pipe) {
    Pipe(RfStage(seq(32, i => 0), true, EXAMPLE_MLB, NoDest, 0, NoDest, 0, true),
         AluStage(true, EXAMPLE_MOV, 0, 1, EXAMPLE_CORE),
         MemStage(NoDest, NoAccess, 0, 0), 0, Memory(4, map[]), [])
  }

  /** An empty pipeline with 1 in the shifter. */
  function EmptyExample(): (s: Pipe) {
    Pipe(RfStage(seq(32, i => 0), false, EXAMPLE_MOV, NoDest, 0, NoDest, 0, true),
         AluStage(false, EXAMPLE_MOV, 0, 0, EXAMPLE_CORE),
         MemStage(NoDest, NoAccess, 0, 0), 0, Memory(4, map[]), [])
  }

  /** The example is what offering its two instructions to the empty pipeline leads to. */
  lemma HeldStepIsReached(trail2: bool)
    ensures Inv(EmptyExample()) && Drained(EmptyExample())
    ensures Run(trail2, EmptyExample(), [Offer(true, EXAMPLE_MOV), Offer(true, EXAMPLE_MLB)]) == HeldStepExample()
  {
    var first, second := Offer(true, EXAMPLE_MOV), Offer(true, EXAMPLE_MLB);
    var s := EmptyExample();
    var t := Step(trail2, s, first);
    assert t == s.(rf := s.rf.(valid := true));
    assert Step(trail2, t, second) == HeldStepExample();
    hide Step;
    assert [first, second][1..] == [second] && [second][1..] == [];
    assert Run(trail2, t, [second]) == Run(trail2, Step(trail2, t, second), []);
  }

  lemma ExampleMov(trail2: bool, s: Arch)
    requires s.core == EXAMPLE_CORE
    ensures ExecuteAlu(trail2, s, EXAMPLE_MOV, 0, 1)
            == Arch(s.regs[1 := 1], s.memory, EXAMPLE_CORE.(cp := true), 1, s.log + [Write(ToReg(1), 1)])
  {
  }

  lemma ExampleMlb(trail2: bool, s: Arch, aIn: Word, bIn: Word)
    requires s.core == EXAMPLE_CORE.(cp := true)
    ensures ExecuteAlu(trail2, s, EXAMPLE_MLB, aIn, bIn).core.acc == bIn
  {
    hide MultiplyStep, AddOp, BarrelShift, LogicResult, LoadFrom, StoreTo;
    DigitOne(s.core, bIn);
  }

  lemma DigitOne(core: Core, multiplicand: Word)
    requires core.shf == 1 && !core.p
    ensures MultiplyStep(core, 0, multiplicand).0.value == multiplicand
  {
    hide AddOp;
    AddOpAdds(0, multiplicand, false);
    WrapOfWord(multiplicand);
  }

  /** Held for one cycle, the step adds sixteen times the multiplicand, not four times. */
  lemma HeldStepGoesWrong(trail2: bool)
    ensures var s := HeldStepExample();
            var m := AfterAlu(trail2, s);
            var idle := Offer(false, s.rf.inst);
            && Inv(s) && Refines(trail2, s, m) && MlbHeld(trail2, s)
            && Entered(trail2, s, [idle, idle]) == [s.rf.inst]
            && Execute(trail2, m, s.rf.inst).core.acc == 4
            && AfterAlu(trail2, Run(trail2, s, [idle, idle])).core.acc == 16
  {
    hide Evaluate, LoadFrom, StoreTo, ExecuteAlu;
    var s := HeldStepExample();
    var m := AfterAlu(trail2, s);
    var idle := Offer(false, s.rf.inst);
    ExampleMov(trail2, Complete(s));
    ExampleMlb(trail2, m, ReadSource(m.regs, Acc, 0), 4);
    assert WaitsFor(s.rf.inst, 1) && Pending(s, 1);
    var t := Step(trail2, s, idle);
    AluRetires(trail2, s, idle);
    assert !t.alu.valid && t.alu.bIn == 4 && t.rf.inst == s.rf.inst && t.rf.valid;
    assert t.mem.rd == NoDest && t.rf.memRd == NoDest && !Held(t);
    assert Complete(t).core == EXAMPLE_CORE.(cp := true);
    StepKeepsInv(trail2, s, idle);
    var u := Step(trail2, t, idle);
    AluRetires(trail2, t, idle);
    assert u.alu.valid && u.alu.bIn == 16 && u.alu.inst == EXAMPLE_MLB;
    ExampleMlb(trail2, Complete(u), u.alu.aIn, 16);
    assert [idle, idle][1..] == [idle] && [idle][1..] == [];
    assert Run(trail2, t, [idle]) == Run(trail2, u, []);
    assert Entered(trail2, t, [idle]) == [t.rf.inst] + Entered(trail2, u, []);
    assert Entered(trail2, s, [idle, idle]) == [] + Entered(trail2, t, [idle]);
    assert Run(trail2, s, [idle, idle]) == Run(trail2, t, [idle]);
  }

  // ----- programs -----

  ghost function ArchOf(s: Pipe): (a: Arch) {
    Arch(s.rf.regs, s.memory, s.alu.core, s.alu.bIn, s.written)
  }

  lemma DrainedIsArch(trail2: bool, s: Pipe, m: Arch)
    requires Drained(s)
    ensures Refines(trail2, s, m) <==> ArchOf(s) == m
  {
  }

  /** From an empty pipeline, any offers followed by enough idle cycles leave the
      registers, memory, flags, accumulator, shifter and port history of executing
      the entered instructions one at a time, with a quadrupling for every clock in
      which a multiplication step was held; without a flush the entered instructions
      are the accepted ones. */
  lemma ProgramsExecute(trail2: bool, s: Pipe, offers: seq<Offer>, idle: seq<Offer>)
    requires Inv(s) && Drained(s)
    requires |idle| >= 15 && forall o <- idle :: !o.valid
    ensures var t := Run(trail2, s, offers + idle);
            && Drained(t)
            && ArchOf(t) == PerformAll(trail2, ArchOf(s), Events(trail2, s, offers + idle))
            && (NoMlbHeld(trail2, s, offers + idle) ==>
                  ArchOf(t) == ExecuteAll(trail2, ArchOf(s), Entered(trail2, s, offers + idle)))
            && (NoFlush(trail2, s, offers + idle) ==>
                  Entered(trail2, s, offers + idle) == Accepted(trail2, s, offers + idle))
  {
    hide Step, Inv, Refines, ArchOf, PerformAll, ExecuteAll, Happens;
    var t := Run(trail2, s, offers + idle);
    DrainedIsArch(trail2, s, ArchOf(s));
    RunRefines(trail2, s, offers + idle, ArchOf(s));
    RunKeepsInv(trail2, s, offers);
    IdleCyclesDrain(trail2, Run(trail2, s, offers), idle);
    RunSplits(trail2, s, offers, idle);
    DrainedIsArch(trail2, t, PerformAll(trail2, ArchOf(s), Events(trail2, s, offers + idle)));
    if NoMlbHeld(trail2, s, offers + idle) {
      RunExecutes(trail2, s, offers + idle, ArchOf(s));
      DrainedIsArch(trail2, t, ExecuteAll(trail2, ArchOf(s), Entered(trail2, s, offers + idle)));
    }
    if NoFlush(trail2, s, offers + idle) {
      AcceptedInstructionsEnter(trail2, s, offers + idle);
      assert ReadStage(s) == [] && ReadStage(t) == [];
      assert ReadStage(s) + Accepted(trail2, s, offers + idle) == Accepted(trail2, s, offers + idle);
    }
  }

  lemma {:induction false} RunSplits(trail2: bool, s: Pipe, first: seq<Offer>, second: seq<Offer>)
    ensures Run(trail2, s, first + second) == Run(trail2, Run(trail2, s, first), second)
    decreases |first|
  {
    hide Step;
    if first == [] {
      assert first + second == second;
    } else {
      RunSplits(trail2, Step(trail2, s, first[0]), first[1..], second);
      assert (first + second)[1..] == first[1..] + second;
    }
  }

  lemma {:induction false} RunKeepsInv(trail2: bool, s: Pipe, offers: seq<Offer>)
    requires Inv(s)
    ensures Inv(Run(trail2, s, offers))
    decreases |offers|
  {
    hide Step, Inv;
    if offers != [] {
      StepKeepsInv(trail2, s, offers[0]);
      RunKeepsInv(trail2, Step(trail2, s, offers[0]), offers[1..]);
    }
  }
}
