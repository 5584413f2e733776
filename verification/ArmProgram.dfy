/** Straight-line ARM programs end to end: architecture, decoder with its accumulator
    substitution, and pipeline. */
module ArmProgram {
  import opened Words
  import opened GipInstruction
  import opened GipAlu
  import opened GipSequential
  import opened GipPipeline
  import opened GipArbitration
  import opened GipFeeding
  import opened ArmDataProcessing
  import opened ArmAccumulator

  /** Registers and flags, all that data-processing instructions change. */
  datatype ArmState = ArmState(regs: Regs, flags: Flags)

  function ArmStep(a: ArmState, i: DataProcessing): (b: ArmState) {
    var e := ArmEffect(i, a.regs, a.flags);
    ArmState(if e.written && i.rd != 15 then a.regs[i.rd := e.value] else a.regs, e.flags)
  }

  function ArmRun(a: ArmState, program: seq<DataProcessing>): (b: ArmState)
    decreases |program|
  {
    if program == [] then a else ArmRun(ArmStep(a, program[0]), program[1..])
  }

  /** No instruction of the run writes the PC, has the condition "never", or meets one of
      the two cases where the C code departs from the architecture. */
  ghost predicate Conforms(a: ArmState, program: seq<DataProcessing>)
    decreases |program|
  {
    program != [] ==>
      var i := program[0];
      && i.cc != 15 && (IsCompare(i.op) ==> i.s) && i.rd != 15
      && !OperandDeparts(i, a.regs) && !CarryDeparts(i, a.flags)
      && Conforms(ArmStep(a, i), program[1..])
  }

  ghost predicate Agrees(t: Arch, a: ArmState) {
    t.regs == a.regs && t.core.flags == a.flags
  }

  lemma {:induction false} ExpandedIsArm(trail2: bool, s: Arch, program: seq<DataProcessing>)
    requires Conforms(ArmState(s.regs, s.core.flags), program)
    ensures var t := ExecuteAll(trail2, s, Expanded(program));
            Agrees(t, ArmRun(ArmState(s.regs, s.core.flags), program)) && t.memory == s.memory
    decreases |program|
  {
    hide Execute, Expand, ArmEffect, CarryDeparts, OperandDeparts;
    if program != [] {
      var i := program[0];
      var t := ExecuteAll(trail2, s, Expand(i, 0));
      ExpansionIsArm(trail2, s, i, 0);
      assert ArmState(t.regs, t.core.flags) == ArmStep(ArmState(s.regs, s.core.flags), i);
      ExecuteAllSplits(trail2, s, Expand(i, 0), Expanded(program[1..]));
      ExpandedIsArm(trail2, t, program[1..]);
    }
  }

  lemma {:induction false} ComparesSetFlags(a: ArmState, program: seq<DataProcessing>)
    requires Conforms(a, program)
    ensures forall i <- program :: (IsCompare(i.op) ==> i.s) && i.rd != 15
    decreases |program|
  {
    hide ArmStep, CarryDeparts, OperandDeparts;
    if program != [] {
      ComparesSetFlags(ArmStep(a, program[0]), program[1..]);
      assert program == [program[0]] + program[1..];
    }
  }

  /** What the decoder makes of a program does what the architecture says. */
  lemma DecodedIsArm(trail2: bool, s: Arch, program: seq<DataProcessing>, stale: RegNo, cache: Cache)
    requires Conforms(ArmState(s.regs, s.core.flags), program) && Copies(s, cache)
    ensures var t := ExecuteAll(trail2, s, Decoded(program, stale, cache));
            Agrees(t, ArmRun(ArmState(s.regs, s.core.flags), program)) && t.memory == s.memory
  {
    hide ExecuteAll, Conforms, Decoded, Expanded, ArmRun;
    ComparesSetFlags(ArmState(s.regs, s.core.flags), program);
    ExpandedIsArm(trail2, s, program);
    AccumulatorCachesRegister(trail2, s, s, program, stale, cache);
  }

  // ----- in the pipeline -----

  predicate Ordinary(inst: Instruction) {
    !inst.f && !IsMlb(inst)
  }

  ghost predicate OrdinaryStages(s: Pipe) {
    (s.rf.valid ==> Ordinary(s.rf.inst)) && (s.alu.valid ==> !s.alu.inst.f)
  }

  lemma {:induction false} OrdinaryRun(trail2: bool, s: Pipe, offers: seq<Offer>)
    requires OrdinaryStages(s) && forall o <- offers | o.valid :: Ordinary(o.inst)
    ensures NoFlush(trail2, s, offers) && NoMlbHeld(trail2, s, offers)
    decreases |offers|
  {
    if offers != [] {
      OrdinaryStep(trail2, s, offers[0]);
      hide Step, OrdinaryStages, Ordinary;
      OrdinaryRun(trail2, Step(trail2, s, offers[0]), offers[1..]);
    }
  }

  lemma OrdinaryStep(trail2: bool, s: Pipe, offer: Offer)
    requires OrdinaryStages(s) && (offer.valid ==> Ordinary(offer.inst))
    ensures OrdinaryStages(Step(trail2, s, offer)) && !Flush(trail2, s) && !MlbHeld(trail2, s)
  {
    hide Evaluate, LoadFrom, StoreTo, Held;
    HeldIsValid(s);
  }

  lemma HeldIsValid(s: Pipe)
    ensures Held(s) ==> s.rf.valid
  {
  }

  lemma {:induction false} DecodedIsOrdinary(program: seq<DataProcessing>, stale: RegNo, cache: Cache)
    requires forall i <- program :: (IsCompare(i.op) ==> i.s) && i.rd != 15
    ensures forall n <- Decoded(program, stale, cache) :: Ordinary(n)
    decreases |program|
  {
    hide Track, DecodedOne, StaleAfterOne, Ordinary;
    if program != [] {
      var i := program[0];
      ExpansionIsOrdinary(i, stale, cache);
      DecodedIsOrdinary(program[1..], StaleAfterOne(i, stale, cache), Track(cache, i));
    }
  }

  lemma ExpansionIsOrdinary(i: DataProcessing, stale: RegNo, cache: Cache)
    requires (IsCompare(i.op) ==> i.s) && i.rd != 15
    ensures forall n <- DecodedOne(i, stale, cache) :: Ordinary(n)
  {
    ExpansionIsAlu(i, stale);
    forall n <- DecodedOne(i, stale, cache) ensures Ordinary(n) {
      var k :| 0 <= k < |Expand(i, stale)| && n == Substitute(Expand(i, stale)[k], cache);
      assert IsAlu(Expand(i, stale)[k]);
    }
  }

  /** A decoder that offers the instructions it makes of a program, with any bubbles and
      repeats while it waits, and then falls idle leaves the pipeline drained with the registers
      and flags of the architecture. */
  lemma ProgramOnPipeline(trail2: bool, s: Pipe, offers: seq<Offer>, idle: seq<Offer>,
                          program: seq<DataProcessing>, stale: RegNo, cache: Cache)
    requires Inv(s) && Drained(s) && Copies(ArchOf(s), cache)
    requires |idle| >= 15 && forall o <- idle :: !o.valid
    requires forall o <- offers | o.valid :: o.inst in Decoded(program, stale, cache)
    requires Accepted(trail2, s, offers + idle) == Decoded(program, stale, cache)
    requires Conforms(ArmState(s.rf.regs, s.alu.core.flags), program)
    ensures var t := Run(trail2, s, offers + idle);
            && Drained(t) && t.memory == s.memory
            && ArmState(t.rf.regs, t.alu.core.flags) == ArmRun(ArmState(s.rf.regs, s.alu.core.flags), program)
  {
    hide Run, Decoded, Conforms, ArmRun, ExecuteAll, Accepted, Entered, Ordinary, NoFlush, NoMlbHeld, Inv, Copies;
    ComparesSetFlags(ArmState(s.rf.regs, s.alu.core.flags), program);
    DecodedIsOrdinary(program, stale, cache);
    OrdinaryRun(trail2, s, offers + idle);
    ProgramsExecute(trail2, s, offers, idle);
    DecodedIsArm(trail2, ArchOf(s), program, stale, cache);
  }

  /** Every conforming straight-line program completes: offered instruction by instruction
      until taken, it leaves the registers and flags of the architecture within sixteen
      cycles for each internal instruction and thirty more. */
  lemma ProgramCompletes(trail2: bool, s: Pipe, program: seq<DataProcessing>, stale: RegNo, cache: Cache)
    requires Inv(s) && Drained(s) && Copies(ArchOf(s), cache)
    requires Conforms(ArmState(s.rf.regs, s.alu.core.flags), program)
    ensures var insts := Decoded(program, stale, cache);
            var t := Run(trail2, s, Feed(trail2, s, insts, Cycles(insts)) + Idle(15));
            && Drained(t) && t.memory == s.memory
            && ArmState(t.rf.regs, t.alu.core.flags) == ArmRun(ArmState(s.rf.regs, s.alu.core.flags), program)
  {
    hide Run, Decoded, Conforms, ArmRun, Accepted, Feed, Inv, Copies, Drained;
    var insts := Decoded(program, stale, cache);
    FedProgramIsAccepted(trail2, s, insts);
    ProgramOnPipeline(trail2, s, Feed(trail2, s, insts, Cycles(insts)), Idle(15), program, stale, cache);
  }
}
