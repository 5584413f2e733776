/** The bank state machines of the DDR memory model and the pairs of words that writes leave
    in the memory. */
module DdrBanks {
  import opened Words
  import opened FlatMemory

  const BANKS: nat := 4
  const TIM_RCD: nat := 2
  const TIM_RP: nat := 2
  const TIM_RFC: nat := 8
  const TIM_MRD: nat := 2
  const TIM_WAKE: nat := 2
  const TIM_DLL_LOCK: nat := 200

  datatype BankState = Idle | Rcd | Active | Rp | Rfc | SelfRefresh | Wake | Mrd

  datatype Command =
    | Nop | AutoRefresh | Activate | Read | Write | BurstTerminate | Precharge | LoadMode | EnterSelfRefresh | WakeUp

  datatype Bank = Bank(state: BankState, next: BankState, counter: nat, row: nat, col: nat)

  /** States in which a bank waits for a timing to be met. */
  predicate Timing(s: BankState) {
    s.Rcd? || s.Rp? || s.Rfc? || s.Wake? || s.Mrd?
  }

  predicate Counts(b: Bank) {
    (b.counter > 0 <==> Timing(b.state)) && (b.counter > 0 ==> !Timing(b.next))
  }

  function Counted(b: Bank): (r: Bank) {
    if b.counter == 1 then b.(counter := 0, state := b.next)
    else if b.counter > 0 then b.(counter := b.counter - 1) else b
  }

  function Wait(b: Bank, state: BankState, next: BankState, time: nat): (r: Bank) {
    b.(state := state, next := next, counter := time)
  }

  /** Auto-precharge is address bit 10. */
  predicate AutoPrecharge(a: nat) {
    a / 0x400 % 2 == 1
  }

  /** A bank that is sent a command, and whether the model reports an error. */
  function Commanded(b: Bank, cmd: Command, a: nat, args: nat, locking: bool): (r: (Bank, bool)) {
    if b.state.SelfRefresh? then
      if cmd.WakeUp? then (Wait(b, Wake, Idle, TIM_WAKE), false) else (b, true)
    else if b.state.Idle? then
      match cmd
      case Activate => (Wait(b, Rcd, Active, TIM_RCD).(row := a % 0x2000), false)
      case Precharge => (Wait(b, Rp, Idle, TIM_RP), false)
      case AutoRefresh => (Wait(b, Rfc, Idle, TIM_RFC), false)
      case LoadMode => (Wait(b, Mrd, Idle, TIM_MRD), args % 4 >= 2)
      case _ => (b, true)
    else if Timing(b.state) then (b.(state := Idle), true)
    else
      match cmd
      case Read =>
        var c := b.(col := a % 0x200);
        (if AutoPrecharge(a) then Wait(c, Rp, Idle, TIM_RP) else c, locking)
      case Write =>
        var c := b.(col := a % 0x200);
        (if AutoPrecharge(a) then Wait(c, Rp, Idle, TIM_RP) else c, false)
      case Precharge => (Wait(b, Rp, Idle, TIM_RP), false)
      case _ => (b.(state := Idle), true)
  }

  /** One clock of a bank. */
  function BankStep(b: Bank, cmd: Command, addressed: bool, a: nat, args: nat, locking: bool): (r: (Bank, bool)) {
    if addressed && !cmd.Nop? then Commanded(Counted(b), cmd, a, args, locking) else (Counted(b), false)
  }

  /** A bank has a non-zero counter exactly in its timing states, and stays so through any
      clock except one that sends it a command while a timing is being met. */
  lemma CountersFollowStates(b: Bank, cmd: Command, addressed: bool, a: nat, args: nat, locking: bool)
    requires Counts(b)
    ensures Counts(BankStep(b, cmd, addressed, a, args, locking).0)
            <==> !(addressed && !cmd.Nop? && Timing(Counted(b).state))
    ensures addressed && !cmd.Nop? && Timing(Counted(b).state) ==> BankStep(b, cmd, addressed, a, args, locking).1
  {
  }

  /** A bank after n clocks without a command. */
  function Rested(b: Bank, n: nat): (r: Bank)
    decreases n
  {
    if n == 0 then b else Rested(Counted(b), n - 1)
  }

  /** A command puts a bank into a state for so many clocks, and then it is in another. */
  predicate RestsFor(b: Bank, clocks: nat, then_: BankState) {
    && (forall n: nat | n < clocks :: Timing(Rested(b, n).state))
    && Rested(b, clocks) == b.(state := then_, counter := 0)
  }

  lemma {:induction false} Waits(b: Bank, n: nat)
    requires n > 0 && b.counter == n && Timing(b.state)
    ensures RestsFor(b, n, b.next)
    decreases n
  {
    if n > 1 {
      Waits(Counted(b), n - 1);
      forall k: nat | k < n ensures Timing(Rested(b, k).state) {
        if k > 0 {
          assert Rested(b, k) == Rested(Counted(b), k - 1);
        }
      }
    } else {
      assert Rested(b, 1) == Rested(Counted(b), 0);
    }
  }

  /** What the commands of an idle and of a sleeping bank lead to: a row is open two clocks
      after its activation, a refresh takes eight. */
  lemma CommandsTakeTheirTime(b: Bank, a: nat, args: nat, locking: bool)
    requires b.counter == 0
    ensures var after := (cmd: Command) => BankStep(b, cmd, true, a, args, locking).0;
            && (b.state.Idle? ==>
                  && RestsFor(after(Activate), 2, Active) && after(Activate).row == a % 8192
                  && RestsFor(after(Precharge), 2, Idle) && RestsFor(after(AutoRefresh), 8, Idle)
                  && RestsFor(after(LoadMode), 2, Idle))
            && (b.state.Active? ==>
                  && RestsFor(after(Precharge), 2, Idle)
                  && (a / 1024 % 2 == 1 ==> RestsFor(after(Read), 2, Idle) && RestsFor(after(Write), 2, Idle))
                  && (a / 1024 % 2 == 0 ==> after(Read) == after(Write) == b.(col := a % 512)))
            && (b.state.SelfRefresh? ==> RestsFor(after(WakeUp), 2, Idle))
  {
    hide RestsFor;
    var after := (cmd: Command) => BankStep(b, cmd, true, a, args, locking).0;
    if b.state.Idle? {
      Waits(after(Activate), 2);
      Waits(after(Precharge), 2);
      Waits(after(AutoRefresh), 8);
      Waits(after(LoadMode), 2);
    } else if b.state.Active? {
      Waits(after(Precharge), 2);
      if a / 1024 % 2 == 1 {
        Waits(after(Read), 2);
        Waits(after(Write), 2);
      }
    } else if b.state.SelfRefresh? {
      Waits(after(WakeUp), 2);
    }
  }

  // ----- the memory -----

  type Cells = seq<Word>

  /** One beat of a write to a word: bytes whose mask bit is set keep their value. */
  function Masked(was: Word, data: Word, mask: nat): (w: Word) {
    MergeLanes(was, data, 15 - mask % 16)
  }

  function PutBeat(m: Cells, address: nat, data: Word, mask: nat): (r: Cells)
    ensures |r| == |m|
  {
    if address < |m| then m[address := Masked(m[address], data, mask)] else m
  }

  /** A write command and the two beats that follow it. */
  datatype PairWrite = PairWrite(clock: int, address: nat, data0: Word, mask0: nat, data1: Word, mask1: nat)

  function Apply(m: Cells, w: PairWrite): (r: Cells)
    ensures |r| == |m|
  {
    PutBeat(PutBeat(m, w.address, w.data0, w.mask0), w.address + 1, w.data1, w.mask1)
  }

  function ApplyAll(m: Cells, writes: seq<PairWrite>): (r: Cells)
    ensures |r| == |m|
  {
    if writes == [] then m else Apply(ApplyAll(m, writes[..|writes| - 1]), writes[|writes| - 1])
  }

  predicate Touches(w: PairWrite, address: nat) {
    address == w.address || address == w.address + 1
  }

  lemma {:induction false} UntouchedCell(m: Cells, first: seq<PairWrite>, later: seq<PairWrite>, address: nat)
    requires address < |m| && forall w <- later :: !Touches(w, address)
    ensures ApplyAll(m, first + later)[address] == ApplyAll(m, first)[address]
    decreases |later|
  {
    hide *;
    if later == [] {
      assert first + later == first;
    } else {
      var init, last := later[..|later| - 1], later[|later| - 1];
      assert later == init + [last] && last in later;
      assert first + later == first + init + [last];
      UntouchedCell(m, first, init, address);
      ApplyLast(m, first + later, first + init, last);
      ApplyElsewhere(ApplyAll(m, first + init), last, address);
    }
  }

  lemma ApplyElsewhere(m: Cells, w: PairWrite, address: nat)
    requires address < |m| && !Touches(w, address)
    ensures Apply(m, w)[address] == m[address]
  {
    hide Masked;
  }

  /** The words of the last write to a place: written bytes where the mask allows, the old
      bytes elsewhere. */
  lemma LastWriteCounts(m: Cells, earlier: seq<PairWrite>, w: PairWrite, later: seq<PairWrite>)
    requires w.address + 1 < |m|
    requires forall v <- later :: !Touches(v, w.address)
    requires forall v <- later :: !Touches(v, w.address + 1)
    ensures var before, after := ApplyAll(m, earlier), ApplyAll(m, earlier + [w] + later);
            && after[w.address] == Masked(before[w.address], w.data0, w.mask0)
            && after[w.address + 1] == Masked(before[w.address + 1], w.data1, w.mask1)
  {
    hide *;
    UntouchedCell(m, earlier + [w], later, w.address);
    UntouchedCell(m, earlier + [w], later, w.address + 1);
    ApplyLast(m, earlier + [w], earlier, w);
    AppliedCells(ApplyAll(m, earlier), w);
  }

  lemma ApplyLast(m: Cells, writes: seq<PairWrite>, init: seq<PairWrite>, w: PairWrite)
    requires writes == init + [w]
    ensures ApplyAll(m, writes) == Apply(ApplyAll(m, init), w)
  {
    assert writes[..|writes| - 1] == init;
  }

  lemma AppliedCells(m: Cells, w: PairWrite)
    requires w.address + 1 < |m|
    ensures Apply(m, w)[w.address] == Masked(m[w.address], w.data0, w.mask0)
    ensures Apply(m, w)[w.address + 1] == Masked(m[w.address + 1], w.data1, w.mask1)
  {
    hide Masked;
  }
}
