/** A decoder that offers each instruction until the read stage takes it. Stalls are bounded,
    so every program gets through. */
module GipFeeding {
  import opened Words
  import opened GipInstruction
  import opened GipAlu
  import opened GipSequential
  import opened GipPipeline
  import opened GipArbitration

  const NOTHING: Offer := Offer(false, Instruction(Logic(Mov, false, false), Always, Acc, Immediate(0, 0), NoDest,
                                                  false, false, false, 0))

  function NextOffer(program: seq<Instruction>): (o: Offer) {
    if program == [] then NOTHING else Offer(true, program[0])
  }

  /** What is left to offer after a cycle. */
  function Rest(trail2: bool, s: Pipe, program: seq<Instruction>): (p: seq<Instruction>)
    ensures |p| <= |program|
  {
    if program != [] && RfTakes(trail2, s) then program[1..] else program
  }

  /** The offers of n cycles. */
  function Feed(trail2: bool, s: Pipe, program: seq<Instruction>, n: nat): (offers: seq<Offer>)
    decreases n
  {
    if n == 0 then []
    else
      [NextOffer(program)]
      + Feed(trail2, Step(trail2, s, NextOffer(program)), Rest(trail2, s, program), n - 1)
  }

  function Idle(n: nat): (offers: seq<Offer>) {
    seq(n, _ => NOTHING)
  }

  /** Cycles in which a program is certainly taken from a drained pipeline. */
  function Cycles(program: seq<Instruction>): (n: nat) {
    16 * |program| + 15
  }

  lemma RefusedOffer(trail2: bool, s: Pipe, offer: Offer)
    requires !RfTakes(trail2, s)
    ensures Step(trail2, s, offer) == Step(trail2, s, NOTHING) && s.rf.valid
  {
    hide Evaluate, LoadFrom, StoreTo, Held, AluAccepts, Flush;
  }

  /** A cycle takes an instruction or does some of the work left in the stages. */
  lemma CycleMakesProgress(trail2: bool, s: Pipe, program: seq<Instruction>)
    requires Inv(s)
    ensures var t := Step(trail2, s, NextOffer(program));
            && Inv(t)
            && (16 * |Rest(trail2, s, program)| + Work(t) < 16 * |program| + Work(s)
                || (program == [] && Work(t) == Work(s) == 0))
  {
    hide Step, RfTakes;
    StepKeepsInv(trail2, s, NextOffer(program));
    if program == [] {
      if Drained(s) {
        IdleStepStaysDrained(trail2, s, NOTHING);
      } else {
        IdleStepWorks(trail2, s, NOTHING);
      }
    } else if !RfTakes(trail2, s) {
      RefusedOffer(trail2, s, NextOffer(program));
      IdleStepWorks(trail2, s, NOTHING);
    }
  }

  /** The whole program is taken, in order. */
  lemma {:induction false} FeedIsAccepted(trail2: bool, s: Pipe, program: seq<Instruction>, n: nat)
    requires Inv(s) && n >= 16 * |program| + Work(s)
    ensures Accepted(trail2, s, Feed(trail2, s, program, n)) == program
    decreases n
  {
    hide Step, Inv, RfTakes, Work;
    if n > 0 {
      var o, rest := NextOffer(program), Rest(trail2, s, program);
      var t := Step(trail2, s, o);
      CycleMakesProgress(trail2, s, program);
      FeedIsAccepted(trail2, t, rest, n - 1);
      var offers := Feed(trail2, s, program, n);
      assert offers[0] == o && offers[1..] == Feed(trail2, t, rest, n - 1);
      assert Taken(trail2, s, o) + rest == program;
    }
  }

  lemma {:induction false} FeedOffersProgram(trail2: bool, s: Pipe, program: seq<Instruction>, n: nat)
    ensures forall o <- Feed(trail2, s, program, n) | o.valid :: o.inst in program
    decreases n
  {
    hide Step, RfTakes;
    if n > 0 {
      FeedOffersProgram(trail2, Step(trail2, s, NextOffer(program)), Rest(trail2, s, program), n - 1);
    }
  }

  lemma {:induction false} AcceptedSplits(trail2: bool, s: Pipe, first: seq<Offer>, second: seq<Offer>)
    ensures Accepted(trail2, s, first + second)
            == Accepted(trail2, s, first) + Accepted(trail2, Run(trail2, s, first), second)
    decreases |first|
  {
    hide Step, Taken;
    if first == [] {
      assert first + second == second;
    } else {
      AcceptedSplits(trail2, Step(trail2, s, first[0]), first[1..], second);
      assert (first + second)[1..] == first[1..] + second;
    }
  }

  lemma {:induction false} NothingIsAccepted(trail2: bool, s: Pipe, idle: seq<Offer>)
    requires forall o <- idle :: !o.valid
    ensures Accepted(trail2, s, idle) == []
    decreases |idle|
  {
    hide Step;
    if idle != [] {
      NothingIsAccepted(trail2, Step(trail2, s, idle[0]), idle[1..]);
    }
  }

  /** Fed from a drained pipeline and followed by idle cycles, a program is accepted whole. */
  lemma FedProgramIsAccepted(trail2: bool, s: Pipe, program: seq<Instruction>)
    requires Inv(s) && Drained(s)
    ensures var offers := Feed(trail2, s, program, Cycles(program));
            && Accepted(trail2, s, offers + Idle(15)) == program
            && (forall o <- offers | o.valid :: o.inst in program)
  {
    hide Step, Inv, Accepted, Feed, Run;
    var offers := Feed(trail2, s, program, Cycles(program));
    FeedIsAccepted(trail2, s, program, Cycles(program));
    FeedOffersProgram(trail2, s, program, Cycles(program));
    AcceptedSplits(trail2, s, offers, Idle(15));
    NothingIsAccepted(trail2, Run(trail2, s, offers), Idle(15));
    assert program + [] == program;
  }
}
