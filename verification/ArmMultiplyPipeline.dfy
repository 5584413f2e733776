/** The seventeen internal instructions of a multiplication in the pipeline. */
module ArmMultiplyPipeline {
  import opened Words
  import opened GipInstruction
  import opened GipAlu
  import opened GipSequential
  import opened GipPipeline
  import opened GipArbitration
  import opened GipFeeding
  import opened ArmMultiply

  /** The unused immediate zero of the later steps shares its storage with the number of rs. */
  function Middle(rs: ArmReg, pc: Word): (i: Instruction) {
    LaterStep(false, NoDest, rs, pc)
  }

  function MiddleSteps(rs: ArmReg, pc: Word, n: nat): (s: seq<Instruction>) {
    if n == 0 then [] else MiddleSteps(rs, pc, n - 1) + [Middle(rs, pc)]
  }

  function MultiplySequence(cc: Condition, rm: ArmReg, rs: ArmReg, addend: Operand, sign: bool, rd: ArmReg, pc: Word)
    : (s: seq<Instruction>)
  {
    [InitStep(cc, rm, addend, pc)]
        + ([FirstStep(rs, pc)] + (MiddleSteps(rs, pc, 14) + [LaterStep(sign, MapDest(rd), rs, pc)]))
  }

  lemma {:induction false} MiddleStepsExecute(s: Arch, rs: ArmReg, pc: Word, n: nat)
    ensures ExecuteAll(false, s, MiddleSteps(rs, pc, n)) == AfterMiddle(s, rs, pc, n)
  {
    hide Execute;
    if n > 0 {
      MiddleStepsExecute(s, rs, pc, n - 1);
      ExecuteAllSplits(false, s, MiddleSteps(rs, pc, n - 1), [Middle(rs, pc)]);
      ExecuteOne(false, AfterMiddle(s, rs, pc, n - 1), Middle(rs, pc));
    }
  }

  /** Seventeen steps, none of which flushes or outlives a flush as a delay slot; only the
      last has a destination. */
  lemma SequenceIsPlain(cc: Condition, rm: ArmReg, rs: ArmReg, addend: Operand, sign: bool, rd: ArmReg, pc: Word,
                        k: nat)
    requires k < 17
    ensures var s := MultiplySequence(cc, rm, rs, addend, sign, rd, pc);
            |s| == 17 && !s[k].f && !s[k].d && (k < 16 ==> s[k].rd.NoDest?)
  {
    hide MiddleSteps;
    MiddleStepsArePlain(rs, pc, 14, if 2 <= k < 16 then k - 2 else 0);
  }

  lemma {:induction false} MiddleStepsArePlain(rs: ArmReg, pc: Word, n: nat, k: nat)
    requires k < n
    ensures |MiddleSteps(rs, pc, n)| == n && MiddleSteps(rs, pc, n)[k] == Middle(rs, pc)
    decreases n
  {
    if n == 1 {
      assert MiddleSteps(rs, pc, 0) == [];
    } else {
      MiddleStepsArePlain(rs, pc, n - 1, if k < n - 1 then k else 0);
    }
  }

  lemma SequenceExecutes(s: Arch, cc: Condition, rm: ArmReg, rs: ArmReg, addend: Operand, sign: bool, rd: ArmReg,
                         pc: Word)
    ensures ExecuteAll(false, s, MultiplySequence(cc, rm, rs, addend, sign, rd, pc))
            == AfterMultiply(s, cc, rm, rs, addend, sign, rd, rs, pc)
  {
    hide Execute, ExecuteAll, InitStep, FirstStep, LaterStep, MiddleSteps, AfterMiddle;
    var init, first, last := InitStep(cc, rm, addend, pc), FirstStep(rs, pc), LaterStep(sign, MapDest(rd), rs, pc);
    var s1 := Execute(false, s, init);
    var s2 := Execute(false, s1, first);
    var middle := MiddleSteps(rs, pc, 14);
    ExecuteFirst(false, s, init, [first] + (middle + [last]));
    ExecuteFirst(false, s1, first, middle + [last]);
    ExecuteAllSplits(false, s2, middle, [last]);
    MiddleStepsExecute(s2, rs, pc, 14);
    ExecuteOne(false, AfterMiddle(s2, rs, pc, 14), last);
  }

  /** The decoder offers a later step only while the step before it is in the read stage. */
  ghost predicate InStep(s: Pipe, offers: seq<Offer>, rs: ArmReg, pc: Word)
    decreases |offers|
  {
    offers != [] ==>
      && (offers[0].valid && IsMlb(offers[0].inst) ==>
            && s.rf.valid && (s.rf.inst == FirstStep(rs, pc) || s.rf.inst == Middle(rs, pc))
            && exists sign: bool, rd: Dest :: offers[0].inst == LaterStep(sign, rd, rs, pc))
      && InStep(Step(false, s, offers[0]), offers[1..], rs, pc)
  }

  /** A later step waits for no register that the step before it did not wait for. */
  lemma {:induction false} StepsAreChained(s: Pipe, offers: seq<Offer>, rs: ArmReg, pc: Word)
    requires rs != 15 && InStep(s, offers, rs, pc)
    ensures Chained(false, s, offers)
    decreases |offers|
  {
    hide Step;
    if offers != [] {
      StepsAreChained(Step(false, s, offers[0]), offers[1..], rs, pc);
    }
  }

  ghost predicate NeverFlushes(s: Pipe) {
    (s.rf.valid ==> !s.rf.inst.f) && (s.alu.valid ==> !s.alu.inst.f)
  }

  lemma {:induction false} RunNeverFlushes(s: Pipe, offers: seq<Offer>)
    requires NeverFlushes(s) && forall o <- offers | o.valid :: !o.inst.f
    ensures NoFlush(false, s, offers)
    decreases |offers|
  {
    if offers != [] {
      StepNeverFlushes(s, offers[0]);
      hide Step, NeverFlushes;
      RunNeverFlushes(Step(false, s, offers[0]), offers[1..]);
    }
  }

  lemma StepNeverFlushes(s: Pipe, offer: Offer)
    requires NeverFlushes(s) && (offer.valid ==> !offer.inst.f)
    ensures NeverFlushes(Step(false, s, offer)) && !Flush(false, s)
  {
    hide Evaluate, LoadFrom, StoreTo, Held;
  }

  /** A multiplication that goes through the pipeline leaves the product in rd, whatever the
      stalls, or changes no register and no flag when its condition fails. */
  lemma MultiplyOnPipeline(s: Pipe, offers: seq<Offer>, idle: seq<Offer>, cc: Condition, rm: ArmReg, rs: ArmReg,
                           addend: Operand, sign: bool, rd: ArmReg, pc: Word)
    requires addend.Immediate? || addend.source.Reg? || addend.source.Pc?
    requires rs != 15 && Inv(s) && Drained(s)
    requires |idle| >= 15 && forall o <- idle :: !o.valid
    requires forall o <- offers | o.valid :: !o.inst.f
    requires InStep(s, offers + idle, rs, pc)
    requires Accepted(false, s, offers + idle) == MultiplySequence(cc, rm, rs, addend, sign, rd, pc)
    ensures var t := Run(false, s, offers + idle);
            var operand := (r: ArmReg) => ReadSource(s.rf.regs, MapSource(r), pc);
            var sum := if addend.Immediate? then addend.value else ReadSource(s.rf.regs, addend.source, pc);
            var product := Wrap(operand(rm) * operand(rs) + sum);
            && Drained(t) && t.memory == s.memory
            && (if ConditionMet(false, s.alu.core, cc) then
                  && t.rf.regs == SetReg(s.rf.regs, MapDest(rd), product)
                  && (if sign then t.alu.core.flags.z == (product == 0)
                      && t.alu.core.flags.n == (product >= 0x8000_0000)
                      else t.alu.core.flags == s.alu.core.flags)
                else t.rf.regs == s.rf.regs && t.alu.core.flags == s.alu.core.flags)
  {
    hide Run, ExecuteAll, Accepted, Entered, NoFlush, NoMlbHeld, Inv, InStep, Chained, MultiplySequence, ConditionMet,
      AfterMultiply, Wrap, MapSource, ReadSource, Step;
    StepsAreChained(s, offers + idle, rs, pc);
    ChainedRunsNeverHold(false, s, offers + idle);
    RunNeverFlushes(s, offers + idle);
    ProgramsExecute(false, s, offers, idle);
    SequenceExecutes(ArchOf(s), cc, rm, rs, addend, sign, rd, pc);
    MultiplyComputesProduct(ArchOf(s), cc, rm, rs, addend, sign, rd, rs, pc);
  }

  // ----- every multiplication completes -----

  /** A later step comes right behind the first or another later one. */
  ghost predicate Follows(before: Instruction, i: Instruction, rs: ArmReg, pc: Word) {
    IsMlb(i) ==>
      && (before == FirstStep(rs, pc) || before == Middle(rs, pc))
      && exists sign: bool, rd: Dest :: i == LaterStep(sign, rd, rs, pc)
  }

  ghost predicate InOrder(insts: seq<Instruction>, rs: ArmReg, pc: Word) {
    forall k | 0 < k < |insts| :: Follows(insts[k - 1], insts[k], rs, pc)
  }

  ghost predicate HeadFollows(s: Pipe, insts: seq<Instruction>, rs: ArmReg, pc: Word) {
    insts != [] && IsMlb(insts[0]) ==> s.rf.valid && Follows(s.rf.inst, insts[0], rs, pc)
  }

  lemma HeadStaysReady(s: Pipe, insts: seq<Instruction>, rs: ArmReg, pc: Word)
    requires NeverFlushes(s) && InOrder(insts, rs, pc) && HeadFollows(s, insts, rs, pc)
    ensures HeadFollows(Step(false, s, NextOffer(insts)), Rest(false, s, insts), rs, pc)
    ensures InOrder(Rest(false, s, insts), rs, pc)
  {
    hide Evaluate, LoadFrom, StoreTo, Held, AluAccepts, Follows, NextAlu, NextMem;
    NoFlushNow(s);
  }

  lemma NoFlushNow(s: Pipe)
    requires NeverFlushes(s)
    ensures !Flush(false, s)
  {
  }

  lemma {:induction false} FeedIsInStep(s: Pipe, insts: seq<Instruction>, n: nat, idle: nat, rs: ArmReg, pc: Word)
    requires NeverFlushes(s) && InOrder(insts, rs, pc) && HeadFollows(s, insts, rs, pc)
    requires forall i <- insts :: !i.f
    ensures InStep(s, Feed(false, s, insts, n) + Idle(idle), rs, pc)
    decreases n + idle
  {
    hide Step, NeverFlushes, InOrder, HeadFollows, RfTakes;
    var offers := Feed(false, s, insts, n) + Idle(idle);
    if n > 0 {
      var t, rest := Step(false, s, NextOffer(insts)), Rest(false, s, insts);
      HeadStaysReady(s, insts, rs, pc);
      StepNeverFlushes(s, NextOffer(insts));
      FeedIsInStep(t, rest, n - 1, idle, rs, pc);
      assert offers[0] == NextOffer(insts) && offers[1..] == Feed(false, t, rest, n - 1) + Idle(idle);
      HeadMeans(s, insts, rs, pc);
    } else if idle > 0 {
      var t := Step(false, s, NOTHING);
      StepNeverFlushes(s, NOTHING);
      assert offers == Idle(idle) && offers[0] == NOTHING && offers[1..] == Idle(idle - 1);
      HeadMeans(t, [], rs, pc);
      FeedIsInStep(t, [], 0, idle - 1, rs, pc);
      assert Feed(false, t, [], 0) + Idle(idle - 1) == Idle(idle - 1);
    }
  }

  lemma HeadMeans(s: Pipe, insts: seq<Instruction>, rs: ArmReg, pc: Word)
    ensures HeadFollows(s, insts, rs, pc) && insts != [] && IsMlb(insts[0]) ==>
              s.rf.valid && Follows(s.rf.inst, insts[0], rs, pc)
    ensures insts == [] ==> HeadFollows(s, insts, rs, pc) && InOrder(insts, rs, pc)
  {
  }

  lemma {:induction false} MiddleStepsInOrder(rs: ArmReg, pc: Word, n: nat)
    ensures |MiddleSteps(rs, pc, n)| == n && forall i <- MiddleSteps(rs, pc, n) :: i == Middle(rs, pc)
  {
    if n > 0 {
      MiddleStepsInOrder(rs, pc, n - 1);
    }
  }

  lemma SequenceInOrder(cc: Condition, rm: ArmReg, rs: ArmReg, addend: Operand, sign: bool, rd: ArmReg, pc: Word)
    ensures var insts := MultiplySequence(cc, rm, rs, addend, sign, rd, pc);
            |insts| == 17 && InOrder(insts, rs, pc) && !IsMlb(insts[0]) && forall i <- insts :: !i.f
  {
    hide MiddleSteps;
    var insts := MultiplySequence(cc, rm, rs, addend, sign, rd, pc);
    var middle := MiddleSteps(rs, pc, 14);
    MiddleStepsInOrder(rs, pc, 14);
    forall k | 0 < k < 17 ensures Follows(insts[k - 1], insts[k], rs, pc) {
      if 2 <= k < 16 {
        assert insts[k] == middle[k - 2] && middle[k - 2] in middle;
      }
      if 3 <= k {
        assert insts[k - 1] == middle[k - 3] && middle[k - 3] in middle;
      }
    }
  }

  /** Offered instruction by instruction until taken, a multiplication completes from any
      drained pipeline with the product in rd and Z and N as asked for. */
  lemma MultiplyCompletes(s: Pipe, cc: Condition, rm: ArmReg, rs: ArmReg, addend: Operand, sign: bool, rd: ArmReg,
                          pc: Word)
    requires addend.Immediate? || addend.source.Reg? || addend.source.Pc?
    requires rs != 15 && Inv(s) && Drained(s)
    ensures var insts := MultiplySequence(cc, rm, rs, addend, sign, rd, pc);
            var t := Run(false, s, Feed(false, s, insts, Cycles(insts)) + Idle(15));
            var operand := (r: ArmReg) => ReadSource(s.rf.regs, MapSource(r), pc);
            var sum := if addend.Immediate? then addend.value else ReadSource(s.rf.regs, addend.source, pc);
            var product := Wrap(operand(rm) * operand(rs) + sum);
            && Drained(t) && t.memory == s.memory
            && (if ConditionMet(false, s.alu.core, cc) then
                  && t.rf.regs == SetReg(s.rf.regs, MapDest(rd), product)
                  && (if sign then t.alu.core.flags.z == (product == 0)
                      && t.alu.core.flags.n == (product >= 0x8000_0000)
                      else t.alu.core.flags == s.alu.core.flags)
                else t.rf.regs == s.rf.regs && t.alu.core.flags == s.alu.core.flags)
  {
    hide Run, Accepted, Feed, Inv, InStep, MultiplySequence, ConditionMet, Wrap, MapSource, ReadSource, Step, InOrder;
    var insts := MultiplySequence(cc, rm, rs, addend, sign, rd, pc);
    var offers := Feed(false, s, insts, Cycles(insts));
    SequenceInOrder(cc, rm, rs, addend, sign, rd, pc);
    FedProgramIsAccepted(false, s, insts);
    FeedIsInStep(s, insts, Cycles(insts), 15, rs, pc);
    MultiplyOnPipeline(s, offers, Idle(15), cc, rm, rs, addend, sign, rd, pc);
  }
}
