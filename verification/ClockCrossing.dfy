/** The synchroniser between the data clock and the internal clock of the ADC front end:
    a toggle goes through two flops, and the data are taken when its edge comes out. */
module ClockCrossing {

  datatype Sample = Sample(i: nat, q: nat)

  /** Registers of the data clock domain. */
  datatype DataState = DataState(dataReg: Sample, selected: Sample, toggle: bool)

  /** Registers of the internal clock domain. */
  datatype SyncState = SyncState(reg: Sample, toggle0: bool, toggle1: bool, lastToggle: bool, out: Sample, valid: bool)

  /** What happens in one internal clock: no edge of the data clock, an edge between the two
      internal edges, or one that collides with the internal edge. The colliding edge leaves
      it open whether the first flop settles on the new toggle and what the data register takes. */
  datatype Slot =
    | Quiet
    | Before(input: Sample)
    | Colliding(input: Sample, settlesNew: bool, captured: Sample)

  function NextData(d: DataState, input: Sample): (n: DataState) {
    DataState(input, d.dataReg, !d.toggle)
  }

  function NextSync(s: SyncState, toggle: bool, data: Sample): (n: SyncState) {
    SyncState(data, toggle, s.toggle0, s.toggle1,
              if s.lastToggle != s.toggle1 then s.reg else s.out, s.lastToggle != s.toggle1)
  }

  function AfterData(d: DataState, slot: Slot): (n: DataState) {
    if slot.Quiet? then d else NextData(d, slot.input)
  }

  /** The internal edge of a slot. */
  function AfterSync(d: DataState, s: SyncState, slot: Slot): (n: SyncState) {
    var d' := AfterData(d, slot);
    match slot
    case Quiet => NextSync(s, d.toggle, d.selected)
    case Before(_) => NextSync(s, d'.toggle, d'.selected)
    case Colliding(_, settlesNew, captured) => NextSync(s, if settlesNew then d'.toggle else d.toggle, captured)
  }

  /** How far the last toggle has come: not seen, in the first flop, in the second flop with
      the data stable, or through. */
  datatype Stage = Waiting | First | Second | Through

  ghost predicate InStage(d: DataState, s: SyncState, stage: Stage) {
    match stage
    case Waiting => s.toggle0 == s.toggle1 == s.lastToggle == !d.toggle
    case First => s.toggle0 == d.toggle && s.toggle1 == s.lastToggle == !d.toggle
    case Second => s.toggle0 == s.toggle1 == d.toggle && s.lastToggle == !d.toggle && s.reg == d.selected
    case Through => s.toggle0 == s.toggle1 == s.lastToggle == d.toggle
  }

  /** The stages a toggle can be in so many internal clocks after its data edge. */
  ghost predicate InTime(stage: Stage, age: nat) {
    match stage
    case Waiting => age == 1
    case First => 1 <= age <= 2
    case Second => 2 <= age <= 3
    case Through => age >= 3
  }

  ghost function StageAfter(stage: Stage, slot: Slot): (n: Stage) {
    match slot
    case Quiet => if stage.Waiting? then First else if stage.First? then Second else Through
    case Before(_) => First
    case Colliding(_, settlesNew, _) => if settlesNew then First else Waiting
  }

  lemma StageStep(d: DataState, s: SyncState, stage: Stage, age: nat, slot: Slot)
    requires InStage(d, s, stage) && InTime(stage, age) && (!slot.Quiet? ==> age >= 3)
    ensures InStage(AfterData(d, slot), AfterSync(d, s, slot), StageAfter(stage, slot))
    ensures InTime(StageAfter(stage, slot), if slot.Quiet? then age + 1 else 1)
    ensures AfterSync(d, s, slot).valid <==> stage.Second?
    ensures stage.Second? ==> AfterSync(d, s, slot).out == d.selected
  {
  }

  /** What the inputs of the data edges send: each edge sends the input of the one before. */
  ghost function OneEdgeLater(inputs: seq<Sample>): (sent: seq<Sample>) {
    if inputs == [] then [] else [Sample(0, 0)] + inputs[..|inputs| - 1]
  }

  lemma OneMoreEdge(inputs: seq<Sample>, input: Sample)
    ensures OneEdgeLater(inputs + [input])
         == OneEdgeLater(inputs) + [if inputs == [] then Sample(0, 0) else inputs[|inputs| - 1]]
  {
    if inputs != [] {
      var n := |inputs|;
      assert (inputs + [input])[..n] == inputs[..n - 1] + [inputs[n - 1]];
    }
  }

  class Synchroniser {
    var data: DataState
    var sync: SyncState

    // the inputs at the data edges, the samples selected there and those of the pulses in
    // the internal domain
    ghost var inputs: seq<Sample>
    ghost var sent: seq<Sample>
    ghost var received: seq<Sample>
    ghost var stage: Stage
    ghost var age: nat

    /** Every sample has arrived once and in order, but for at most one that is under way. */
    ghost predicate Valid()
      reads this
    {
      && InStage(data, sync, stage) && InTime(stage, age)
      && sent == OneEdgeLater(inputs)
      && data.dataReg == (if inputs == [] then Sample(0, 0) else inputs[|inputs| - 1])
      && (if stage.Through? then received == sent
          else |sent| > 0 && received == sent[..|sent| - 1] && sent[|sent| - 1] == data.selected)
    }

    constructor ()
      ensures Valid() && inputs == [] && sent == [] && received == [] && age >= 4 && stage == Through && !sync.valid
    {
      data := DataState(Sample(0, 0), Sample(0, 0), false);
      sync := SyncState(Sample(0, 0), false, false, false, Sample(0, 0), false);
      inputs, sent, received, stage, age := [], [], [], Through, 4;
    }

    /** One internal clock. Edges of the data clock are at least three of these apart. */
    method Clock(slot: Slot)
      requires Valid() && (!slot.Quiet? ==> age >= 3)
      modifies this
      ensures Valid()
      ensures age == if slot.Quiet? then old(age) + 1 else 1
      ensures inputs == if slot.Quiet? then old(inputs) else old(inputs) + [slot.input]
      ensures sent == if slot.Quiet? then old(sent) else old(sent) + [old(data).dataReg]
      ensures sent == OneEdgeLater(inputs)
      ensures received == if sync.valid then old(received) + [sync.out] else old(received)
      ensures slot.Quiet? && old(age) >= 3 ==> received == sent
      ensures stage == StageAfter(old(stage), slot) && (sync.valid <==> old(stage).Second?)
      ensures !sync.valid ==> sync.out == old(sync.out)
    {
      hide InStage, OneEdgeLater;
      StageStep(data, sync, stage, age, slot);
      ghost var before := data.selected;
      sync := AfterSync(data, sync, slot);
      if !slot.Quiet? {
        OneMoreEdge(inputs, slot.input);
        sent, inputs := sent + [data.dataReg], inputs + [slot.input];
        data := NextData(data, slot.input);
      }
      if sync.valid {
        received := received + [sync.out];
      }
      stage, age := StageAfter(stage, slot), if slot.Quiet? then age + 1 else 1;
    }
  }

  /** With data edges three clocks apart that all collide, two pulses can come two clocks apart:
      the first edge settles late and the second early. */
  lemma PulsesTwoApart()
    ensures exists d: DataState, s: SyncState, a: Slot, b: Slot ::
              && InStage(d, s, Through) && a.Colliding? && b.Colliding?
              && var d1, s1 := AfterData(d, a), AfterSync(d, s, a);
                 var s3 := AfterSync(d1, AfterSync(d1, s1, Quiet), Quiet);
                 var d2, s4 := AfterData(d1, b), AfterSync(d1, s3, b);
                 var s5 := AfterSync(d2, s4, Quiet);
                 s4.valid && !s5.valid && AfterSync(d2, s5, Quiet).valid
  {
    var none := Sample(0, 0);
    var d := DataState(none, none, false);
    var s := SyncState(none, false, false, false, none, false);
    var a, b := Colliding(none, false, none), Colliding(none, true, none);
    assert InStage(d, s, Through);
    var d1, s1 := AfterData(d, a), AfterSync(d, s, a);
    var s3 := AfterSync(d1, AfterSync(d1, s1, Quiet), Quiet);
    var d2, s4 := AfterData(d1, b), AfterSync(d1, s3, b);
    var s5 := AfterSync(d2, s4, Quiet);
    assert s4.valid && !s5.valid && AfterSync(d2, s5, Quiet).valid;
  }

  /** Three clocks are needed: with two, a collision that settles on the old toggle followed
      by the next data edge makes the pulse carry the wrong sample. */
  lemma TwoClocksAreTooFew()
    ensures exists d: DataState, s: SyncState, a: Slot, b: Slot ::
              && InStage(d, s, Through) && a.Colliding? && b.Before?
              && var d1, s1 := AfterData(d, a), AfterSync(d, s, a);
                 var s2 := AfterSync(d1, s1, Quiet);
                 var d2, s3 := AfterData(d1, b), AfterSync(d1, s2, b);
                 var s4 := AfterSync(d2, s3, Quiet);
                 s4.valid && s4.out != d1.selected
  {
    var one, two := Sample(1, 1), Sample(2, 2);
    var d := DataState(one, Sample(0, 0), false);
    var s := SyncState(Sample(0, 0), false, false, false, Sample(0, 0), false);
    var a, b := Colliding(two, false, Sample(0, 0)), Before(Sample(3, 3));
    assert InStage(d, s, Through);
    var d1, s1 := AfterData(d, a), AfterSync(d, s, a);
    var s2 := AfterSync(d1, s1, Quiet);
    var d2, s3 := AfterData(d1, b), AfterSync(d1, s2, b);
    assert AfterSync(d2, s3, Quiet).out == two;
  }
}
