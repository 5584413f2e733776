/** The internal clock domain of the ADC front end: the phase accumulator with its ROM
    stages, the mixer it feeds in step with, and the CIC filter behind. */
module FrontEnd {
  import opened Words
  import opened SineRom
  import opened ClockCrossing
  import opened CicFilter

  datatype PhaseFsm = PhaseIdle | ReadingCosine | ReadingSine

  /** The accumulator, the ROM stage, the calculation stage and the value offered to the
      mixer; the flags say that a stage holds a cosine, ready that the mixer may take it. */
  datatype PhaseAcc = PhaseAcc(phase: Phase, fsm: PhaseFsm, reading: bool, rom: RomStage,
                               calcCosine: bool, interp: CalcStage, ready: bool, out: DataOut)

  function Advanced(phase: Phase, step: nat): (p: Phase) {
    (phase + step) % 0x100_0000
  }

  // ----- the mixer's arithmetic -----

  /** A sample times a table value, in 32 bits and without the low 15. */
  function Times(a: nat, d: DataOut): (v: int) {
    var p := Wrap(a * d.value) / 0x8000;
    if d.sign then -p else p
  }

  function Product18(a: nat, d: DataOut): (p: Product) {
    Times(a, d) % 0x4_0000
  }

  /** A sample turned by an angle. */
  function TurnedI(s: Sample, cosine: DataOut, sine: DataOut): (v: int) {
    Times(s.i, cosine) - Times(s.q, sine)
  }

  function TurnedQ(s: Sample, cosine: DataOut, sine: DataOut): (v: int) {
    Times(s.q, cosine) + Times(s.i, sine)
  }

  /** What the filter makes of a mixer sum. */
  function Widened(v: int): (w: int) {
    SignExtend(v % 0x4_0000)
  }

  lemma RemaindersAdd(a: int, b: int)
    ensures (a % 0x4_0000 + b % 0x4_0000) % 0x4_0000 == (a + b) % 0x4_0000
    ensures (a % 0x4_0000 - b % 0x4_0000) % 0x4_0000 == (a - b) % 0x4_0000
  {
    var p, q := a / 0x4_0000, b / 0x4_0000;
    assert a + b == a % 0x4_0000 + b % 0x4_0000 + (p + q) * 0x4_0000;
    assert a - b == a % 0x4_0000 - b % 0x4_0000 + (p - q) * 0x4_0000;
    RemainderShift(a % 0x4_0000 + b % 0x4_0000, 0x4_0000, p + q);
    RemainderShift(a % 0x4_0000 - b % 0x4_0000, 0x4_0000, p - q);
  }

  /** Table values of fifteen bits. */
  predicate Fits(d: DataOut) {
    0 <= d.value <= 0x8000
  }

  /** Times scales by the table value as a fraction of 2^15, rounding towards zero. */
  lemma TimesScales(a: nat, d: DataOut)
    requires a < 0x1_0000 && Fits(d)
    ensures var t := if d.sign then -Times(a, d) else Times(a, d);
            0 <= t * 0x8000 <= a * d.value < (t + 1) * 0x8000
  {
    hide Wrap;
    TimesMonotone(0, d.value, a);
    TimesMonotone(d.value, 0x8000, a);
    WrapOfWord(a * d.value);
    DivisionRemainder(a * d.value, 0x8000);
  }

  lemma DivisionRemainder(x: nat, d: nat)
    requires d > 0
    ensures 0 <= x / d * d <= x < (x / d + 1) * d
  {
    assert x == x / d * d + x % d;
  }

  lemma TimesBelow(a: nat, d: DataOut)
    requires a < 0x1_0000 && Fits(d)
    ensures -(a as int) <= Times(a, d) <= a
  {
    hide Wrap;
    TimesMonotone(0, d.value, a);
    TimesMonotone(d.value, 0x8000, a);
    WrapOfWord(a * d.value);
    ShiftedBelow(a * d.value, a);
  }

  lemma ShiftedBelow(x: nat, a: nat)
    requires x <= a * 0x8000
    ensures 0 <= x / 0x8000 <= a
  {
  }

  /** With sixteen-bit samples a turned sample always has the size that the widening is for,
      and it is widened rightly exactly if it is below 65536. */
  lemma TurnedIsWidened(s: Sample, cosine: DataOut, sine: DataOut)
    requires s.i < 0x1_0000 && s.q < 0x1_0000 && Fits(cosine) && Fits(sine)
    ensures Widened(TurnedI(s, cosine, sine)) == TurnedI(s, cosine, sine) <==> TurnedI(s, cosine, sine) < 0x1_0000
    ensures Widened(TurnedQ(s, cosine, sine)) == TurnedQ(s, cosine, sine) <==> TurnedQ(s, cosine, sine) < 0x1_0000
  {
    hide SignExtend, Times;
    TimesBelow(s.i, cosine);
    TimesBelow(s.q, sine);
    TimesBelow(s.q, cosine);
    TimesBelow(s.i, sine);
    SignExtendExactly(TurnedI(s, cosine, sine));
    SignExtendExactly(TurnedQ(s, cosine, sine));
  }

  /** Fifteen-bit samples are always safe. */
  lemma SmallSampleIsSafe(s: Sample, cosine: DataOut, sine: DataOut)
    requires s.i < 0x8000 && s.q < 0x8000 && Fits(cosine) && Fits(sine)
    ensures -0x1_0000 <= TurnedI(s, cosine, sine) < 0x1_0000 && -0x1_0000 <= TurnedQ(s, cosine, sine) < 0x1_0000
  {
    hide Times;
    TimesBelow(s.i, cosine);
    TimesBelow(s.q, sine);
    TimesBelow(s.q, cosine);
    TimesBelow(s.i, sine);
  }

  /** A loud sample at an eighth of a turn back comes out with the wrong sign. */
  lemma LoudSampleFolds()
    ensures var s := Sample(0xffff, 0xffff);
            var cosine, sine := DataOut(23170, false), DataOut(23170, true);
            Fits(cosine) && Fits(sine)
            && TurnedI(s, cosine, sine) == 92678 && Widened(TurnedI(s, cosine, sine)) == 92678 - 0x2_0000
  {
  }

  // ----- one clock of the phase accumulator -----

  predicate StartsRead(a: PhaseAcc, taken: bool) {
    a.fsm.PhaseIdle? && (taken || !a.ready)
  }

  function NextPhaseAcc(rom: Rom, step: nat, a: PhaseAcc, taken: bool): (n: PhaseAcc) {
    var readCosine := StartsRead(a, taken);
    var fetched := Fetched(rom, a.phase, readCosine);
    PhaseAcc(
      if a.fsm.ReadingSine? then Advanced(a.phase, step) else a.phase,
      if readCosine then ReadingCosine else if a.fsm.ReadingCosine? then ReadingSine else PhaseIdle,
      readCosine,
      if readCosine || a.fsm.ReadingCosine? then fetched
      else fetched.(base := 0xdead, delta := 0xdead, errorBits := 0xdead),
      if a.ready then a.calcCosine else a.reading,
      if a.ready then a.interp else Selected(a.rom),
      if a.ready && !taken then true else a.calcCosine,
      if a.ready && !taken then a.out else Calculated(a.interp))
  }

  /** How far the values of phase theta have come. */
  datatype Progress = Empty | AtCosine | AtSine | Offered

  ghost predicate Holds(rom: Rom, step: nat, a: PhaseAcc, at: Progress, theta: Phase) {
    && !(a.ready && a.calcCosine)
    && match at
       case Empty => a.fsm.PhaseIdle? && !a.ready && !a.calcCosine && !a.reading && a.phase == theta
       case AtCosine =>
         && a.fsm.ReadingCosine? && !a.ready && !a.calcCosine && a.reading
         && a.rom == Fetched(rom, theta, true) && a.phase == theta
       case AtSine =>
         && a.fsm.ReadingSine? && !a.ready && a.calcCosine && !a.reading
         && a.interp == Selected(Fetched(rom, theta, true)) && a.rom == Fetched(rom, theta, false) && a.phase == theta
       case Offered =>
         && a.fsm.PhaseIdle? && a.ready && !a.calcCosine && !a.reading
         && a.out == Angle(rom, theta, true) && a.interp == Selected(Fetched(rom, theta, false))
         && a.phase == Advanced(theta, step)
  }

  function After(at: Progress, taken: bool): (n: Progress) {
    match at
    case Empty => AtCosine
    case AtCosine => AtSine
    case AtSine => Offered
    case Offered => if taken then AtCosine else Offered
  }

  /** The stages work on one phase after the other: cosine, then sine, then a step on; when
      the cosine is taken the sine follows it in the next clock. */
  lemma PhaseMoves(rom: Rom, step: nat, a: PhaseAcc, at: Progress, theta: Phase, taken: bool)
    requires Holds(rom, step, a, at, theta) && (taken ==> at.Offered?)
    ensures Holds(rom, step, NextPhaseAcc(rom, step, a, taken), After(at, taken),
                  if taken then Advanced(theta, step) else theta)
    ensures taken ==> NextPhaseAcc(rom, step, a, taken).out == Angle(rom, theta, false)
  {
    hide Fetched, Selected, Calculated, Advanced;
  }

  // ----- the mixer in step with it -----

  /** What the mixer holds while it works on sample s, turned by theta. */
  ghost predicate Mixing(rom: Rom, a: PhaseAcc, m: Mixer, at: Progress, s: Sample, theta: Phase) {
    match m.fsm
    case Idle => true
    case CosineDone =>
      && at.AtCosine? && a.out == Angle(rom, theta, false)
      && m.multA == Product18(s.i, Angle(rom, theta, true)) && m.multB == Product18(s.q, Angle(rom, theta, true))
    case SineDone =>
      && at.AtSine?
      && m.iOut == Product18(s.i, Angle(rom, theta, true)) && m.qOut == Product18(s.q, Angle(rom, theta, true))
      && m.multA == Product18(s.i, Angle(rom, theta, false)) && m.multB == Product18(s.q, Angle(rom, theta, false))
  }

  predicate Takes(a: PhaseAcc, m: Mixer, valid: bool) {
    m.fsm.Idle? && valid && a.ready
  }

  /** The sample and the phase that the mixer works on, if it does, in the clock in which s is
      at its input. A sample that was taken stays there for one more clock. */
  lemma MixerMoves(rom: Rom, step: nat, a: PhaseAcc, m: Mixer, at: Progress, theta: Phase, valid: bool, s: Sample,
                   held: Sample, before: Phase)
    requires Holds(rom, step, a, at, theta) && Mixing(rom, a, m, at, held, before)
    requires m.fsm.CosineDone? ==> s == held
    ensures var taken := Takes(a, m, valid);
            var n := NextMixer(m, taken, Product18(s.i, a.out), Product18(s.q, a.out));
            && (taken ==> at.Offered?)
            && (taken <==> n.fsm.CosineDone?) && (m.fsm.Idle? && !taken ==> n.fsm.Idle?)
            && Mixing(rom, NextPhaseAcc(rom, step, a, taken), n, After(at, taken),
                      if taken then s else held, if taken then theta else before)
  {
    hide Fetched, Selected, Calculated, Advanced, Product18;
    if Takes(a, m, valid) {
      PhaseMoves(rom, step, a, at, theta, true);
    }
  }

  /** What leaves the mixer is the sample turned by the one phase. */
  lemma MixerTurns(rom: Rom, a: PhaseAcc, m: Mixer, at: Progress, s: Sample, theta: Phase)
    requires Mixing(rom, a, m, at, s, theta) && m.fsm.SineDone?
    ensures var cosine, sine := Angle(rom, theta, true), Angle(rom, theta, false);
            && SignExtend((m.iOut - m.multB) % 0x4_0000) == Widened(TurnedI(s, cosine, sine))
            && SignExtend((m.qOut + m.multA) % 0x4_0000) == Widened(TurnedQ(s, cosine, sine))
  {
    hide Angle, Times, SignExtend;
    var cosine, sine := Angle(rom, theta, true), Angle(rom, theta, false);
    RemaindersAdd(Times(s.i, cosine), Times(s.q, sine));
    RemaindersAdd(Times(s.q, cosine), Times(s.i, sine));
  }

  // ----- the samples -----

  /** The phase of the k-th sample. */
  function PhaseAt(origin: Phase, step: nat, k: nat): (p: Phase) {
    (origin + k * step) % 0x100_0000
  }

  lemma PhaseAdvances(origin: Phase, step: nat, k: nat)
    ensures Advanced(PhaseAt(origin, step, k), step) == PhaseAt(origin, step, k + 1)
    ensures PhaseAt(origin, step, 0) == origin
  {
    var x := origin + k * step;
    assert origin + (k + 1) * step == x + step;
    assert x + step == PhaseAt(origin, step, k) + step + (x / 0x100_0000) * 0x100_0000;
    RemainderShift(PhaseAt(origin, step, k) + step, 0x100_0000, x / 0x100_0000);
  }

  /** The samples turned by one phase after the other, unbounded. */
  function Turned(rom: Rom, step: nat, origin: Phase, s: seq<Sample>): (x: Samples)
    ensures |x.i| == |x.q| == |s|
  {
    Samples(
      seq(|s|, k requires 0 <= k < |s| => TurnedI(s[k], Angle(rom, PhaseAt(origin, step, k), true),
                                                  Angle(rom, PhaseAt(origin, step, k), false))),
      seq(|s|, k requires 0 <= k < |s| => TurnedQ(s[k], Angle(rom, PhaseAt(origin, step, k), true),
                                                  Angle(rom, PhaseAt(origin, step, k), false))))
  }

  function AllWidened(v: seq<int>): (w: seq<int>)
    ensures |w| == |v|
  {
    seq(|v|, k requires 0 <= k < |v| => Widened(v[k]))
  }

  function WidenedSamples(x: Samples): (y: Samples) {
    Samples(AllWidened(x.i), AllWidened(x.q))
  }

  lemma OneMoreTurned(rom: Rom, step: nat, origin: Phase, s: seq<Sample>)
    requires |s| > 0
    ensures var n := |s| - 1;
            var cosine, sine := Angle(rom, PhaseAt(origin, step, n), true), Angle(rom, PhaseAt(origin, step, n), false);
            var x := WidenedSamples(Turned(rom, step, origin, s[..n]));
            WidenedSamples(Turned(rom, step, origin, s))
            == Samples(x.i + [Widened(TurnedI(s[n], cosine, sine))], x.q + [Widened(TurnedQ(s[n], cosine, sine))])
  {
    hide Angle, TurnedI, TurnedQ, Widened, PhaseAt;
    var n := |s| - 1;
    var x, y := Turned(rom, step, origin, s[..n]), Turned(rom, step, origin, s);
    assert y.i == x.i + [y.i[n]] && y.q == x.q + [y.q[n]];
  }

  /** No turned value is too large for the widening. */
  ghost predicate AllSmall(x: Samples) {
    (forall v <- x.i :: -0x2_0000 <= v < 0x1_0000) && (forall v <- x.q :: -0x2_0000 <= v < 0x1_0000)
  }

  lemma SmallIsKept(x: Samples)
    requires AllSmall(x)
    ensures WidenedSamples(x) == x
  {
    hide SignExtend;
    forall k | 0 <= k < |x.i| ensures Widened(x.i[k]) == x.i[k] {
      assert x.i[k] in x.i;
      SignExtendExactly(x.i[k]);
    }
    forall k | 0 <= k < |x.q| ensures Widened(x.q[k]) == x.q[k] {
      assert x.q[k] in x.q;
      SignExtendExactly(x.q[k]);
    }
  }

  lemma SmallSamplesAreSafe(rom: Rom, step: nat, origin: Phase, s: seq<Sample>)
    requires forall phase, cosine :: Fits(Angle(rom, phase, cosine))
    requires forall a <- s :: a.i < 0x8000 && a.q < 0x8000
    ensures AllSmall(Turned(rom, step, origin, s))
  {
    hide Angle, Fits, TurnedI, TurnedQ, PhaseAt;
    var x := Turned(rom, step, origin, s);
    forall k | 0 <= k < |s| ensures -0x1_0000 <= x.i[k] < 0x1_0000 && -0x1_0000 <= x.q[k] < 0x1_0000 {
      assert s[k] in s;
      SmallSampleIsSafe(s[k], Angle(rom, PhaseAt(origin, step, k), true), Angle(rom, PhaseAt(origin, step, k), false));
    }
  }

  /** Samples that are through the mixer. */
  function Done(m: Mixer, taken: seq<Sample>): (n: int) {
    if m.fsm.Idle? then |taken| else |taken| - 1
  }

  /** Phase accumulator and mixer work on the last sample taken and its phase, or on the
      phase of the next. */
  ghost predicate InStep(rom: Rom, step: nat, origin: Phase, a: PhaseAcc, m: Mixer, at: Progress, age: nat,
                         taken: seq<Sample>, pulsed: bool, input: Sample)
  {
    && Holds(rom, step, a, at, PhaseAt(origin, step, |taken|))
    && (m.fsm.Idle?
        || (|taken| > 0 && Mixing(rom, a, m, at, taken[|taken| - 1], PhaseAt(origin, step, |taken| - 1))))
    && (m.fsm.CosineDone? ==> pulsed && input == taken[|taken| - 1])
    && at == (if age == 0 then Empty else if age == 1 then AtCosine else if age == 2 then AtSine else Offered)
  }

  lemma StepKept(rom: Rom, step: nat, origin: Phase, a: PhaseAcc, m: Mixer, at: Progress, age: nat,
                 taken: seq<Sample>, pulsed: bool, input: Sample, valid: bool, s: Sample)
    requires InStep(rom, step, origin, a, m, at, age, taken, pulsed, input) && (pulsed ==> s == input)
    ensures var take := Takes(a, m, valid);
            && (take <==> valid && age >= 3)
            && InStep(rom, step, origin, NextPhaseAcc(rom, step, a, take),
                      NextMixer(m, take, Product18(s.i, a.out), Product18(s.q, a.out)), After(at, take),
                      if take then 1 else age + 1, if take then taken + [s] else taken, valid, s)
  {
    hide Holds, Mixing, NextPhaseAcc, PhaseAt, Takes, NextMixer;
    var current := if m.fsm.Idle? then s else taken[|taken| - 1];
    var before := if m.fsm.Idle? then origin else PhaseAt(origin, step, |taken| - 1);
    IdleMixes(rom, a, m, at, current, before);
    TakesWhenOld(rom, step, a, m, at, PhaseAt(origin, step, |taken|), age, valid, current, before);
    PhaseAdvances(origin, step, |taken|);
    MixerMoves(rom, step, a, m, at, PhaseAt(origin, step, |taken|), valid, s, current, before);
    PhaseMoves(rom, step, a, at, PhaseAt(origin, step, |taken|), Takes(a, m, valid));
  }

  /** The filter's samples are those through the mixer, each turned by its own phase and
      widened. */
  ghost predicate Filtered(rom: Rom, step: nat, origin: Phase, m: Mixer, taken: seq<Sample>, x: Samples) {
    Done(m, taken) >= 0 && x == WidenedSamples(Turned(rom, step, origin, taken[..Done(m, taken)]))
  }

  lemma FilteredKept(rom: Rom, step: nat, origin: Phase, a: PhaseAcc, st: State, at: Progress, age: nat,
                     taken: seq<Sample>, pulsed: bool, input: Sample, take: bool, s: Sample, x: Samples)
    requires InStep(rom, step, origin, a, st.mixer, at, age, taken, pulsed, input)
    requires Filtered(rom, step, origin, st.mixer, taken, x) && Shape(st) && (take ==> st.mixer.fsm.Idle?)
    ensures Filtered(rom, step, origin, NextMixer(st.mixer, take, Product18(s.i, a.out), Product18(s.q, a.out)),
                     if take then taken + [s] else taken, Sampled(st, x))
  {
    hide Holds, Mixing, PhaseAt, WidenedSamples, Turned, TurnedI, TurnedQ, Widened, SignExtend, Angle, Product18;
    var m := st.mixer;
    if m.fsm.SineDone? {
      MixerTurns(rom, a, m, at, taken[|taken| - 1], PhaseAt(origin, step, |taken| - 1));
      OneMoreTurned(rom, step, origin, taken);
      assert taken[..|taken|] == taken;
    } else if take {
      assert (taken + [s])[..|taken|] == taken[..|taken|];
    }
  }

  class InternalClock {
    const rom: Rom
    const step: nat
    const origin: Phase
    const filter: Filter
    var acc: PhaseAcc
    var accNext: PhaseAcc

    // how far the phase in the works is, the clocks since the last sample was taken or since
    // the start, the samples taken, and what was at the input in the last clock
    ghost var at: Progress
    ghost var age: nat
    ghost var taken: seq<Sample>
    ghost var pulsed: bool
    ghost var input: Sample

    ghost predicate Valid()
      reads this, filter
    {
      && filter.Valid()
      && InStep(rom, step, origin, acc, filter.state.mixer, at, age, taken, pulsed, input)
      && Filtered(rom, step, origin, filter.state.mixer, taken, filter.x)
    }

    constructor (rom: Rom, step: nat, origin: Phase, factor: nat)
      ensures Valid() && taken == [] && age == 0 && !pulsed && fresh(filter)
      ensures this.rom == rom && this.step == step && this.origin == origin && filter.factor == factor
    {
      this.rom, this.step, this.origin := rom, step, origin;
      var blank := Fetched(rom, 0, false);
      acc := PhaseAcc(origin, PhaseIdle, false, blank, false, Selected(blank), false, DataOut(0, false));
      accNext := acc;
      at, age, taken, pulsed, input := Empty, 0, [], false, Sample(0, 0);
      filter := new Filter(factor);
      new;
      hide Holds, Mixing, WidenedSamples, Turned, Filter.Valid, PhaseAt, Fetched, Selected;
      StartsInStep(rom, step, origin, acc);
      assert taken[..0] == [];
    }

    /** The accumulator and the ROM, calculation and output stages. */
    method PhasePreclock(phaseTaken: bool)
      modifies `accNext
      ensures accNext == NextPhaseAcc(rom, step, acc, phaseTaken)
    {
      hide Fetched, Selected, Calculated;
      accNext := acc;
      var clockPhase, readRom, readCosine := false, false, false;
      match acc.fsm {
        case PhaseIdle =>
          if phaseTaken || !acc.ready {
            readRom, readCosine := true, true;
            accNext := accNext.(fsm := ReadingCosine);
          }
        case ReadingCosine =>
          readRom := true;
          accNext := accNext.(fsm := ReadingSine);
        case ReadingSine =>
          clockPhase := true;
          accNext := accNext.(fsm := PhaseIdle);
      }
      if clockPhase {
        accNext := accNext.(phase := (acc.phase + step) % 0x100_0000);
      }
      var fetched := ReadRom(rom, acc.phase, readCosine);
      if !readRom {
        fetched := fetched.(base := 0xdead, delta := 0xdead, errorBits := 0xdead);
      }
      accNext := accNext.(reading := readCosine, rom := fetched);
      if !acc.ready {
        var selected := SelectErrorBit(acc.rom);
        accNext := accNext.(interp := selected, calcCosine := acc.reading);
      }
      var calculated := Interpolate(acc.interp);
      if !acc.ready || phaseTaken {
        accNext := accNext.(out := calculated, ready := acc.calcCosine);
      }
    }

    /** One clock, with the synchroniser's output: a sample is taken exactly if it comes at
        least three clocks after the last one that was. */
    method Clock(valid: bool, s: Sample)
      requires Valid() && (pulsed ==> !valid && s == input)
      modifies this, filter
      ensures Valid() && pulsed == valid && input == s
      ensures taken == if valid && old(age) >= 3 then old(taken) + [s] else old(taken)
      ensures age == if valid && old(age) >= 3 then 1 else old(age) + 1
    {
      hide InStep, Filtered, NextPhaseAcc, Inv, AreOutputs, Next, Sampled, Takes, NextMixer, CombTaken, Product18,
        After;
      ghost var m, t := filter.state.mixer, taken;
      var take := Takes(acc, filter.state.mixer, valid);
      StepKept(rom, step, origin, acc, m, at, age, taken, pulsed, input, valid, s);
      InvMixer(filter.state, filter.x, filter.factor);
      TakesWhenIdle(acc, m, valid);
      FilteredKept(rom, step, origin, acc, filter.state, at, age, taken, pulsed, input, take, s, filter.x);
      var a, b := Product18(s.i, acc.out), Product18(s.q, acc.out);
      NextMixes(filter.state, filter.factor, take, a, b);
      PhasePreclock(take);
      filter.Cycle(take, a, b);
      taken, at, age := if take then taken + [s] else taken, After(at, take), if take then 1 else age + 1;
      pulsed, input := valid, s;
      acc := accNext;
    }

    /** As long as no turned value was too large for the widening, every output is the moving
        sum of its channel of the samples, each turned by its own phase. */
    lemma OutputsAreTurned()
      requires Valid()
      ensures var x := Turned(rom, step, origin, taken[..Done(filter.state.mixer, taken)]);
              AllSmall(x) ==>
                AreOutputs(filter.iOutputs, x.i, filter.factor) && AreOutputs(filter.qOutputs, x.q, filter.factor)
    {
      hide InStep, Inv, AreOutputs, AllSmall, WidenedSamples, Turned;
      var x := Turned(rom, step, origin, taken[..Done(filter.state.mixer, taken)]);
      if AllSmall(x) {
        SmallIsKept(x);
      }
    }
  }

  lemma StartsInStep(rom: Rom, step: nat, origin: Phase, a: PhaseAcc)
    requires a.phase == origin && a.fsm.PhaseIdle? && !a.reading && !a.calcCosine && !a.ready
    ensures Holds(rom, step, a, Empty, PhaseAt(origin, step, 0))
    ensures WidenedSamples(Turned(rom, step, origin, [])) == Samples([], [])
  {
    PhaseAdvances(origin, step, 0);
  }

  lemma TakesWhenOld(rom: Rom, step: nat, a: PhaseAcc, m: Mixer, at: Progress, theta: Phase, age: nat, valid: bool,
                     s: Sample, before: Phase)
    requires Holds(rom, step, a, at, theta)
    requires at == (if age == 0 then Empty else if age == 1 then AtCosine else if age == 2 then AtSine else Offered)
    requires Mixing(rom, a, m, at, s, before)
    ensures Takes(a, m, valid) <==> valid && age >= 3
  {
  }

  lemma IdleMixes(rom: Rom, a: PhaseAcc, m: Mixer, at: Progress, s: Sample, theta: Phase)
    requires m.fsm.Idle? || Mixing(rom, a, m, at, s, theta)
    ensures Mixing(rom, a, m, at, s, theta)
  {
  }

  lemma TakesWhenIdle(a: PhaseAcc, m: Mixer, valid: bool)
    ensures Takes(a, m, valid) ==> m.fsm.Idle?
  {
  }

  lemma NextMixes(st: State, factor: nat, start: bool, a: Product, b: Product)
    requires Shape(st)
    ensures Next(st, factor, start, a, b).mixer == NextMixer(st.mixer, start, a, b)
  {
  }

  // ----- both clock domains -----

  /** How long ago the last sample must have been taken, by how far the next has come. */
  function LeastAge(stage: Stage, valid: bool): (n: nat) {
    if valid then 3 else match stage case Waiting => 0 case First => 1 case Second => 2 case Through => 0
  }

  class AdcFrontEnd {
    const synchroniser: Synchroniser
    const internal: InternalClock

    /** The samples taken are those that came through the synchroniser, but for the one that
        is at its output now. */
    ghost predicate Valid()
      reads this, synchroniser, internal, internal.filter
    {
      var sync := synchroniser.sync;
      && synchroniser.Valid() && internal.Valid()
      && (internal.pulsed ==> !sync.valid && sync.out == internal.input)
      && (sync.valid ==> synchroniser.stage.Through?)
      && internal.age >= LeastAge(synchroniser.stage, sync.valid)
      && synchroniser.received == if sync.valid then internal.taken + [sync.out] else internal.taken
    }

    constructor (rom: Rom, step: nat, origin: Phase, factor: nat)
      ensures Valid() && internal.taken == [] && synchroniser.inputs == [] && synchroniser.age >= 4
    {
      hide InternalClock.Valid, InStage;
      synchroniser := new Synchroniser();
      internal := new InternalClock(rom, step, origin, factor);
    }

    /** One internal clock. With data edges at least four clocks apart no sample is lost. */
    method Clock(slot: Slot)
      requires Valid() && (!slot.Quiet? ==> synchroniser.age >= 4)
      modifies synchroniser, internal, internal.filter
      ensures Valid()
      ensures synchroniser.age == if slot.Quiet? then old(synchroniser.age) + 1 else 1
      ensures synchroniser.inputs == if slot.Quiet? then old(synchroniser.inputs)
                                     else old(synchroniser.inputs) + [slot.input]
    {
      hide InternalClock.Valid;
      var sync := synchroniser.sync;
      internal.Clock(sync.valid, sync.out);
      synchroniser.Clock(slot);
    }

    /** When no sample is on its way, all inputs but the last have been taken, after the
        empty sample of the reset. */
    lemma AllTaken()
      requires Valid() && synchroniser.stage.Through? && !synchroniser.sync.valid
      ensures internal.taken == OneEdgeLater(synchroniser.inputs)
    {
    }
  }
}
