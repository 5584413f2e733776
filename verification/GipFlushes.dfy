/** Flushes measured against the sequential machine: an instruction cancels younger ones
    exactly when its condition holds there at its turn. */
module GipFlushes {
  import opened Words
  import opened FlatMemory
  import opened GipInstruction
  import opened GipAlu
  import opened GipSequential
  import opened GipPipeline
  import opened GipArbitration

  /** The instruction asks for a flush and has its condition met in a state. */
  predicate Redirects(trail2: bool, m: Arch, inst: Instruction) {
    inst.f && ConditionMet(trail2, m.core, inst.cc)
  }

  /** In a sequential run from m no instruction redirects at its turn. */
  predicate NoneRedirects(trail2: bool, m: Arch, events: seq<Event>)
    decreases |events|
  {
    events != [] ==>
      && (events[0].Enter? ==> !Redirects(trail2, m, events[0].inst))
      && NoneRedirects(trail2, Perform(trail2, m, events[0]), events[1..])
  }

  /** The ALU stage holds the instruction that the sequential machine executed last, and
      before is the state it was executed in. */
  ghost predicate InAlu(trail2: bool, s: Pipe, before: Arch) {
    s.alu.valid ==> s.alu.core == before.core
  }

  lemma EnteringInAlu(trail2: bool, s: Pipe, offer: Offer, m: Arch, before: Arch)
    requires Inv(s) && Refines(trail2, s, m) && InAlu(trail2, s, before)
    ensures var t := Step(trail2, s, offer);
            && InAlu(trail2, t, if Enters(trail2, s) then m else before)
            && (t.alu.valid ==> t.alu.inst == if Enters(trail2, s) then s.rf.inst else s.alu.inst)
            && (t.alu.valid ==> Enters(trail2, s) || (!AluAccepts(trail2, s) && s.alu.valid))
  {
    hide Evaluate, LoadFrom, StoreTo, Held;
  }

  /** What a clock does to the instructions behind the ALU stage. It cancels if it hands over
      an instruction that redirects in the sequential state it is executed in: then nothing
      enters the ALU, the offer is lost, and so is the read stage but for a held delay-slot
      instruction. Otherwise nothing is lost. */
  lemma ClockCancels(trail2: bool, s: Pipe, offer: Offer, before: Arch)
    requires InAlu(trail2, s, before)
    ensures var t := Step(trail2, s, offer);
            var cancels := s.alu.valid && AluAccepts(trail2, s) && Redirects(trail2, before, s.alu.inst);
            && (Flush(trail2, s) <==> cancels)
            && (if cancels then
                  && !t.alu.valid
                  && EnteredNow(trail2, s) == []
                  && ReadStage(t) == (if Held(s) && s.rf.inst.d then ReadStage(s) else [])
                else
                  ReadStage(s) + Taken(trail2, s, offer) == EnteredNow(trail2, s) + ReadStage(t))
  {
    hide Evaluate, LoadFrom, StoreTo, Pending, Held;
    FlushCancelsYounger(trail2, s, offer);
  }

  lemma NoneRedirectsSplits(trail2: bool, m: Arch, first: seq<Event>, rest: seq<Event>)
    requires |first| <= 1 && NoneRedirects(trail2, m, first + rest)
    ensures first != [] && first[0].Enter? ==> !Redirects(trail2, m, first[0].inst)
    ensures NoneRedirects(trail2, PerformAll(trail2, m, first), rest)
  {
    hide Perform, Redirects;
    if first == [] {
      assert first + rest == rest;
    } else {
      assert (first + rest)[1..] == rest && first[1..] == [] && (first + rest)[0] == first[0];
    }
  }

  /** If no entered instruction redirects at its turn, the pipeline flushes nothing. */
  lemma {:induction false} NothingFlushes(trail2: bool, s: Pipe, offers: seq<Offer>, m: Arch, before: Arch)
    requires Inv(s) && Refines(trail2, s, m) && InAlu(trail2, s, before)
    requires s.alu.valid ==> !Redirects(trail2, before, s.alu.inst)
    requires NoneRedirects(trail2, m, Events(trail2, s, offers))
    ensures NoFlush(trail2, s, offers)
    decreases |offers|
  {
    hide Step, Inv, Refines, InAlu, Redirects, NoneRedirects, Perform, Happens, Flush, PerformAll, Enters;
    if offers != [] {
      var o := offers[0];
      var t := Step(trail2, s, o);
      ClockCancels(trail2, s, o, before);
      StepKeepsInv(trail2, s, o);
      StepPerforms(trail2, s, o, m);
      EnteringInAlu(trail2, s, o, m, before);
      HappensIs(trail2, s, m);
      NoneRedirectsSplits(trail2, m, Happens(trail2, s), Events(trail2, t, offers[1..]));
      NothingFlushes(trail2, t, offers[1..], PerformAll(trail2, m, Happens(trail2, s)),
                     if Enters(trail2, s) then m else before);
    }
  }

  /** From a drained pipeline: if every entered instruction that asks for a flush fails its
      condition in the sequential state at its turn, nothing is cancelled. */
  lemma FailedConditionsCancelNothing(trail2: bool, s: Pipe, offers: seq<Offer>)
    requires Inv(s) && Drained(s)
    requires NoneRedirects(trail2, ArchOf(s), Events(trail2, s, offers))
    ensures Accepted(trail2, s, offers) == Entered(trail2, s, offers) + ReadStage(Run(trail2, s, offers))
    ensures Drained(Run(trail2, s, offers)) ==> Accepted(trail2, s, offers) == Entered(trail2, s, offers)
  {
    hide Step, Inv, Refines, NoneRedirects, Run, Entered, Accepted, NoFlush, Events;
    DrainedIsArch(trail2, s, ArchOf(s));
    NothingFlushes(trail2, s, offers, ArchOf(s), ArchOf(s));
    AcceptedInstructionsEnter(trail2, s, offers);
    assert ReadStage(s) == [] && [] + Accepted(trail2, s, offers) == Accepted(trail2, s, offers);
    assert Entered(trail2, s, offers) + [] == Entered(trail2, s, offers);
  }

  // ----- an instruction that redirects -----

  /** The events of a run with the last one left off. */
  function ButLast(events: seq<Event>): (e: seq<Event>)
    requires events != []
  {
    events[..|events| - 1]
  }

  lemma {:induction false} PerformAllSplits(trail2: bool, m: Arch, a: seq<Event>, b: seq<Event>)
    ensures PerformAll(trail2, m, a + b) == PerformAll(trail2, PerformAll(trail2, m, a), b)
    decreases |a|
  {
    hide Perform;
    if a == [] {
      assert a + b == b;
    } else {
      PerformAllSplits(trail2, Perform(trail2, m, a[0]), a[1..], b);
      assert (a + b)[1..] == a[1..] + b;
    }
  }

  lemma EventsFirst(trail2: bool, s: Pipe, offers: seq<Offer>)
    requires offers != []
    ensures Events(trail2, s, offers)
            == Happens(trail2, s) + Events(trail2, Step(trail2, s, offers[0]), offers[1..])
    ensures Run(trail2, s, offers) == Run(trail2, Step(trail2, s, offers[0]), offers[1..])
  {
    hide Step, Happens;
  }

  /** While an instruction is in the ALU stage, its execution is the last thing that the
      sequential machine has done, in a state with the flags that the stage has. */
  lemma {:induction false} LastEntered(trail2: bool, s: Pipe, offers: seq<Offer>, m: Arch, before: Arch)
    requires Inv(s) && Refines(trail2, s, m) && InAlu(trail2, s, before)
    ensures var u, events := Run(trail2, s, offers), Events(trail2, s, offers);
            u.alu.valid ==>
              if events == [] then s.alu.valid && u.alu.inst == s.alu.inst && u.alu.core == before.core
              else events[|events| - 1] == Enter(u.alu.inst)
                   && u.alu.core == PerformAll(trail2, m, ButLast(events)).core
    decreases |offers|
  {
    hide Step, Inv, Refines, InAlu, Perform, Happens, PerformAll, Enters, MlbHeld, AluAccepts;
    if offers != [] {
      hide Run, Events;
      var o := offers[0];
      var t, rest, h := Step(trail2, s, o), offers[1..], Happens(trail2, s);
      EventsFirst(trail2, s, offers);
      StepKeepsInv(trail2, s, o);
      StepPerforms(trail2, s, o, m);
      EnteringInAlu(trail2, s, o, m, before);
      HappensIs(trail2, s, m);
      HeldHandsOver(trail2, s);
      LastEntered(trail2, t, rest, PerformAll(trail2, m, h), if Enters(trail2, s) then m else before);
      var later := Events(trail2, t, rest);
      if later == [] {
        assert h + later == h;
      } else {
        assert ButLast(h + later) == h + ButLast(later);
        PerformAllSplits(trail2, m, h, ButLast(later));
      }
    } else {
      InAluCore(trail2, s, before);
    }
  }

  lemma InAluCore(trail2: bool, s: Pipe, before: Arch)
    requires InAlu(trail2, s, before)
    ensures s.alu.valid ==> s.alu.core == before.core
  {
  }

  lemma HeldHandsOver(trail2: bool, s: Pipe)
    ensures MlbHeld(trail2, s) ==> AluAccepts(trail2, s)
  {
    hide Held, Flush, AluAccepts;
  }

  /** Until the last instruction to enter is handed over, nothing has flushed if none before
      it redirects. */
  lemma {:induction false} NothingFlushesBefore(trail2: bool, s: Pipe, offers: seq<Offer>, m: Arch, before: Arch)
    requires Inv(s) && Refines(trail2, s, m) && InAlu(trail2, s, before)
    requires Run(trail2, s, offers).alu.valid
    requires var events := Events(trail2, s, offers);
             events != [] ==>
               && (s.alu.valid ==> !Redirects(trail2, before, s.alu.inst))
               && NoneRedirects(trail2, m, ButLast(events))
    ensures NoFlush(trail2, s, offers)
    decreases |offers|
  {
    hide Step, Inv, Refines, InAlu, Redirects, NoneRedirects, Perform, Happens, Flush, PerformAll, Enters, MlbHeld,
      AluAccepts;
    if offers != [] {
      var o := offers[0];
      var t, rest, h := Step(trail2, s, o), offers[1..], Happens(trail2, s);
      var m', before' := PerformAll(trail2, m, h), if Enters(trail2, s) then m else before;
      EventsFirst(trail2, s, offers);
      StepKeepsInv(trail2, s, o);
      StepPerforms(trail2, s, o, m);
      EnteringInAlu(trail2, s, o, m, before);
      HappensIs(trail2, s, m);
      ClockCancels(trail2, s, o, before);
      LastEntered(trail2, t, rest, m', before');
      var later := Events(trail2, t, rest);
      if later != [] {
        assert ButLast(h + later) == h + ButLast(later);
        NoneRedirectsSplits(trail2, m, h, ButLast(later));
      }
      NothingFlushesBefore(trail2, t, rest, m', before');
    }
  }

  lemma {:induction false} RunSplitsOnce(trail2: bool, s: Pipe, offers: seq<Offer>, o: Offer, after: seq<Offer>)
    ensures var u := Run(trail2, s, offers);
            Entered(trail2, s, offers + [o] + after)
            == Entered(trail2, s, offers) + (EnteredNow(trail2, u) + Entered(trail2, Step(trail2, u, o), after))
    decreases |offers|
  {
    hide Step, Enters, EnteredNow;
    if offers == [] {
      assert (offers + [o] + after)[1..] == after;
      EntersFirst(trail2, s, offers + [o] + after);
    } else {
      var t := Step(trail2, s, offers[0]);
      RunSplitsOnce(trail2, t, offers[1..], o, after);
      assert (offers + [o] + after)[1..] == offers[1..] + [o] + after;
      EntersFirst(trail2, s, offers + [o] + after);
      EntersFirst(trail2, s, offers);
      var u := Run(trail2, s, offers);
      var tail := EnteredNow(trail2, u) + Entered(trail2, Step(trail2, u, o), after);
      assert EnteredNow(trail2, s) + (Entered(trail2, t, offers[1..]) + tail)
        == (EnteredNow(trail2, s) + Entered(trail2, t, offers[1..])) + tail;
    }
  }

  /** From a drained pipeline, the first instruction that redirects at its turn cancels, in
      the clock in which it is handed over, exactly the younger instructions accepted by then,
      but for a delay-slot instruction that is held; what is accepted later enters, as long as
      nothing redirects again. */
  lemma RedirectCancelsYounger(trail2: bool, s: Pipe, offers: seq<Offer>, o: Offer, after: seq<Offer>)
    requires Inv(s) && Drained(s)
    requires Events(trail2, s, offers) != []
    requires var events, u := Events(trail2, s, offers), Run(trail2, s, offers);
             var last := events[|events| - 1];
             && u.alu.valid && AluAccepts(trail2, u)
             && NoneRedirects(trail2, ArchOf(s), ButLast(events))
             && last.Enter? && Redirects(trail2, PerformAll(trail2, ArchOf(s), ButLast(events)), last.inst)
    ensures var u := Run(trail2, s, offers);
            var v := Step(trail2, u, o);
            var now := PerformAll(trail2, ArchOf(s), Events(trail2, s, offers) + Happens(trail2, u));
            && Accepted(trail2, s, offers) == Entered(trail2, s, offers) + ReadStage(u)
            && ReadStage(v) == (if Held(u) && u.rf.inst.d then ReadStage(u) else [])
            && Entered(trail2, s, offers + [o] + after) == Entered(trail2, s, offers) + Entered(trail2, v, after)
            && (NoneRedirects(trail2, now, Events(trail2, v, after)) ==>
                  ReadStage(v) + Accepted(trail2, v, after)
                  == Entered(trail2, v, after) + ReadStage(Run(trail2, v, after)))
  {
    hide Step, Inv, Refines, NoneRedirects, Redirects, Run, Entered, Accepted, NoFlush, Events, Happens, PerformAll,
      InAlu, Perform, Flush, Enters, AluAccepts, Held, Drained, ReadStage, EnteredNow, ArchOf;
    var m, events, u := ArchOf(s), Events(trail2, s, offers), Run(trail2, s, offers);
    var v, before := Step(trail2, u, o), PerformAll(trail2, m, ButLast(events));
    DrainedRefines(trail2, s);
    LastEntered(trail2, s, offers, m, m);
    RunRefines(trail2, s, offers, m);
    NothingFlushesBefore(trail2, s, offers, m, m);
    AcceptedInstructionsEnter(trail2, s, offers);
    assert [] + Accepted(trail2, s, offers) == Accepted(trail2, s, offers);
    CoreInAlu(trail2, u, before);
    ClockCancels(trail2, u, o, before);
    RunSplitsOnce(trail2, s, offers, o, after);
    assert [] + Entered(trail2, v, after) == Entered(trail2, v, after);
    PerformAllSplits(trail2, m, events, Happens(trail2, u));
    StepPerforms(trail2, u, o, PerformAll(trail2, m, events));
    StepKeepsInv(trail2, u, o);
    var now := PerformAll(trail2, m, events + Happens(trail2, u));
    if NoneRedirects(trail2, now, Events(trail2, v, after)) {
      EmptyAlu(trail2, v, now);
      NothingFlushes(trail2, v, after, now, now);
      AcceptedInstructionsEnter(trail2, v, after);
    }
  }

  lemma DrainedRefines(trail2: bool, s: Pipe)
    requires Drained(s)
    ensures Refines(trail2, s, ArchOf(s)) && InAlu(trail2, s, ArchOf(s)) && ReadStage(s) == [] && !s.alu.valid
  {
    DrainedIsArch(trail2, s, ArchOf(s));
  }

  lemma CoreInAlu(trail2: bool, s: Pipe, before: Arch)
    requires s.alu.core == before.core
    ensures InAlu(trail2, s, before)
  {
  }

  lemma EmptyAlu(trail2: bool, s: Pipe, m: Arch)
    requires !s.alu.valid
    ensures InAlu(trail2, s, m)
  {
  }
}
