/** The DDR memory model on its two clock edges: commands and the first beats on the rising
    edge, the second beats on the falling edge, and an output pipeline of half clocks. */
module Ddr {
  import opened Words
  import opened FlatMemory
  import opened DdrBanks

  const STAGES: nat := 8

  type Nibble = n: nat | n < 16

  /** The command pins and address bus in a clock. */
  datatype Pins = Pins(cke: bool, selectN: bool, ras: bool, cas: bool, we: bool, a: nat, ba: nat)

  /** The command on the pins, and the bank it is for; -1 is all of them. */
  function CommandOf(p: Pins, powerDown: bool): (r: (Command, int))
  {
    if !p.cke then (if powerDown then (Nop, -1) else (EnterSelfRefresh, -1))
    else if powerDown then (WakeUp, -1)
    else if p.selectN then (Nop, -1)
    else if !p.ras && !p.cas then (if p.we then AutoRefresh else LoadMode, -1)
    else if !p.ras then (if p.we then (Activate, p.ba % BANKS)
                         else (Precharge, if AutoPrecharge(p.a) then -1 else p.ba % BANKS))
    else if !p.cas then (if p.we then Read else Write, p.ba % BANKS)
    else if p.we then (Nop, -1) else (BurstTerminate, p.ba % BANKS)
  }

  /** The command table of the pins: select low and then row strobe, column strobe and write
      enable, all active when low. */
  lemma PinTable(p: Pins)
    requires p.cke && !p.selectN
    ensures var bank := p.ba % 4;
            && (!p.ras && !p.cas && !p.we ==> CommandOf(p, false) == (LoadMode, -1))
            && (!p.ras && !p.cas && p.we ==> CommandOf(p, false) == (AutoRefresh, -1))
            && (!p.ras && p.cas && !p.we ==>
                  CommandOf(p, false) == (Precharge, if p.a / 0x400 % 2 == 1 then -1 else bank))
            && (!p.ras && p.cas && p.we ==> CommandOf(p, false) == (Activate, bank))
            && (p.ras && !p.cas && !p.we ==> CommandOf(p, false) == (Write, bank))
            && (p.ras && !p.cas && p.we ==> CommandOf(p, false) == (Read, bank))
            && (p.ras && p.cas && !p.we ==> CommandOf(p, false) == (BurstTerminate, bank))
            && (p.ras && p.cas && p.we ==> CommandOf(p, false) == (Nop, -1))
  {
  }

  /** Clock enable comes first: it takes the memory to sleep and wakes it. */
  lemma EnableTable(p: Pins, powerDown: bool)
    ensures p.cke && powerDown ==> CommandOf(p, powerDown) == (WakeUp, -1)
    ensures !p.cke && !powerDown ==> CommandOf(p, powerDown) == (EnterSelfRefresh, -1)
    ensures (!p.cke && powerDown) || (p.cke && !powerDown && p.selectN) ==> CommandOf(p, powerDown).0 == Nop
  {
  }

  /** A read or a write is on the pins only then. */
  lemma OnlyThesePins(p: Pins, powerDown: bool)
    ensures CommandOf(p, powerDown).0.Write? <==> !powerDown && WritePins(p)
    ensures CommandOf(p, powerDown).0.Read? <==> !powerDown && ReadPins(p)
    ensures WritePins(p) || ReadPins(p) ==> !powerDown ==> CommandOf(p, powerDown).1 == p.ba % 4
  {
  }

  predicate WritePins(p: Pins) {
    p.cke && !p.selectN && p.ras && !p.cas && !p.we
  }

  predicate ReadPins(p: Pins) {
    p.cke && !p.selectN && p.ras && !p.cas && p.we
  }

  type BankSeq = s: seq<Bank> | |s| == BANKS witness seq(BANKS, i => Bank(SelfRefresh, Idle, 0, 0, 0))

  function NextBanks(banks: BankSeq, cmd: Command, target: int, a: nat, args: nat, locking: bool): (r: BankSeq) {
    seq(BANKS, i requires 0 <= i < BANKS => BankStep(banks[i], cmd, target == -1 || target == i, a, args, locking).0)
  }

  /** The bank takes a read or a write: it is active once its counter has moved. */
  predicate Takes(banks: BankSeq, target: int) {
    0 <= target < BANKS && Counted(banks[target]).state.Active?
  }

  /** Row and column, without the bank: the banks of this model share their cells. */
  function CellAddress(banks: BankSeq, target: int, a: nat): (n: nat)
    requires 0 <= target < BANKS
  {
    banks[target].row * 0x200 + a % 0x200
  }

  /** What a half clock is promised: the word of a read beat, by time. */
  type Schedule = map<nat, Word>

  ghost function WithBurst(schedule: Schedule, time: nat, cells: Cells, address: nat): (s: Schedule) {
    var first := if address < |cells| then schedule[time + 5 := cells[address]] else schedule;
    if address + 1 < |cells| then first[time + 6 := cells[address + 1]] else first
  }

  /** Nothing is promised for later than n. */
  ghost predicate Ahead(schedule: Schedule, n: nat) {
    forall t <- schedule :: t <= n
  }

  /** The promises of one schedule from a time on are also those of another. */
  ghost predicate Honours(before: Schedule, after: Schedule, time: nat) {
    forall t <- before | t >= time :: t in after && after[t] == before[t]
  }

  /** A burst goes behind everything promised so far. */
  lemma BurstGoesBehind(schedule: Schedule, time: nat, cells: Cells, address: nat)
    requires Ahead(schedule, time + 4)
    ensures Honours(schedule, WithBurst(schedule, time, cells, address), 0)
    ensures Ahead(WithBurst(schedule, time, cells, address), time + 6)
  {
  }

  /** Reads in consecutive clocks put their beats into consecutive half clocks. */
  lemma BackToBackReads(schedule: Schedule, time: nat, first: Cells, a: nat, second: Cells, b: nat)
    requires a + 1 < |first| && b + 1 < |second|
    ensures var s := WithBurst(WithBurst(schedule, time, first, a), time + 2, second, b);
            && (forall t | time + 5 <= t <= time + 8 :: t in s)
            && [s[time + 5], s[time + 6], s[time + 7], s[time + 8]] == first[a..a + 2] + second[b..b + 2]
    ensures ReadTimes(time) + ReadTimes(time + 2)
            == {time + 3, time + 4, time + 5, time + 6, time + 7, time + 8, time + 9}
  {
  }

  ghost predicate Kept(schedule: Schedule, time: nat, fifo: seq<Word>)
    requires |fifo| == STAGES
  {
    forall t <- schedule | time <= t :: t < time + STAGES - 1 && fifo[t - time] == schedule[t]
  }

  /** Output enables of the coming half clocks. */
  ghost predicate Enabled(times: set<nat>, time: nat, enables: seq<bool>)
    requires |enables| == STAGES
  {
    && (forall k: nat | k < STAGES :: enables[k] <==> time + k in times)
    && (forall t <- times :: t < time + STAGES)
  }

  lemma ShiftEnables(times: set<nat>, time: nat, enables: seq<bool>)
    requires |enables| == STAGES && Enabled(times, time, enables)
    ensures Enabled(times, time + 1, enables[1..] + [false])
  {
    var after := enables[1..] + [false];
    forall k: nat | k < STAGES ensures after[k] <==> time + 1 + k in times {
      if k < STAGES - 1 {
        assert after[k] == enables[k + 1] && (enables[k + 1] <==> time + (k + 1) in times);
      }
    }
  }

  /** A read drives the bus from three to seven half clocks later. */
  function Driven(enables: seq<bool>): (e: seq<bool>)
    requires |enables| == STAGES
    ensures |e| == STAGES
  {
    enables[..3] + [true, true, true, true, true]
  }

  ghost function ReadTimes(time: nat): (s: set<nat>) {
    {time + 3, time + 4, time + 5, time + 6, time + 7}
  }

  lemma DrivenOk(times: set<nat>, time: nat, enables: seq<bool>)
    requires |enables| == STAGES && Enabled(times, time, enables)
    ensures Enabled(times + ReadTimes(time), time, Driven(enables))
  {
  }

  /** Shifts an output pipeline by one place; the last place keeps its value. */
  method Shift(fifo: array<Word>)
    requires fifo.Length == STAGES
    modifies fifo
    ensures forall k: nat | k < STAGES - 1 :: fifo[k] == old(fifo[k + 1])
  {
    for j := 0 to STAGES - 1
      invariant forall k: nat | k < j :: fifo[k] == old(fifo[k + 1])
      invariant forall k: nat | j <= k < STAGES :: fifo[k] == old(fifo[k])
    {
      fifo[j] := fifo[j + 1];
    }
  }

  /** Loads both beats of a read, five and six half clocks from the output. */
  method LoadBurst(fifo: array<Word>, cells: Cells, address: nat, ghost schedule: Schedule, ghost time: nat)
    requires fifo.Length == STAGES && Kept(schedule, time, fifo[..])
    modifies fifo
    ensures Kept(WithBurst(schedule, time, cells, address), time, fifo[..])
    ensures forall k: nat | k < STAGES && k != 5 && k != 6 :: fifo[k] == old(fifo[k])
  {
    if address < |cells| {
      fifo[5] := cells[address];
    }
    if address + 1 < |cells| {
      fifo[6] := cells[address + 1];
    }
  }

  lemma ShiftKeeps(schedule: Schedule, time: nat, before: seq<Word>, after: seq<Word>)
    requires |before| == STAGES && |after| == STAGES && Kept(schedule, time, before)
    requires forall k: nat | k < STAGES - 1 :: after[k] == before[k + 1]
    ensures Kept(schedule, time + 1, after)
  {
    forall t <- schedule | time + 1 <= t
      ensures t < time + STAGES && after[t - (time + 1)] == schedule[t]
    {
      assert after[t - (time + 1)] == before[t - time];
    }
  }

  /** What is at the front of the output pipelines is what is promised for now. */
  lemma FirstIsDue(schedule: Schedule, times: set<nat>, time: nat, fifo: seq<Word>, enables: seq<bool>)
    requires |fifo| == STAGES && Kept(schedule, time, fifo)
    requires |enables| == STAGES && Enabled(times, time, enables)
    ensures (time in schedule ==> fifo[0] == schedule[time]) && (enables[0] <==> time in times)
  {
    assert enables[0] <==> time + 0 in times;
  }

  lemma AheadOfNext(schedule: Schedule, time: nat)
    requires Ahead(schedule, time + 5 + time % 2)
    ensures Ahead(schedule, time + 1 + 5 + (time + 1) % 2)
    ensures time % 2 == 0 ==> Ahead(schedule, time + 1 + 4)
  {
  }

  ghost function Issued(done: seq<PairWrite>): (c: seq<(int, nat)>) {
    seq(|done|, k requires 0 <= k < |done| => (done[k].clock, done[k].address))
  }

  /** The write whose data are on the bus, the one commanded in this clock, and the first
      beat of the former. */
  datatype WriteState = WriteState(now: bool, address: nat, next: bool, addressNext: nat, data0: Word, mask0: Nibble)

  /** Commands whose beats are not both in, oldest first; odd times are after a rising edge. */
  ghost function UnderWay(w: WriteState, time: nat): (c: seq<(int, nat)>) {
    if time % 2 == 0 then (if w.next then [(time / 2 - 1, w.addressNext)] else [])
    else if w.now && w.next then [(time / 2 - 1, w.address), (time / 2, w.addressNext)]
    else if w.now then [(time / 2 - 1, w.address)]
    else if w.next then [(time / 2, w.addressNext)] else []
  }

  /** The cells are those of reset with the finished writes applied in the order of their
      commands, and after a rising edge also the first beat of the next. Every write
      commanded two or more clocks ago is finished. */
  ghost predicate History(w: WriteState, time: nat, cells: Cells, reset: Cells, commands: seq<(int, nat)>,
                          done: seq<PairWrite>) {
    var settled := ApplyAll(reset, done);
    && cells == (if w.now && time % 2 == 1 then PutBeat(settled, w.address, w.data0, w.mask0) else settled)
    && commands == Issued(done) + UnderWay(w, time)
    && (forall d <- done :: d.clock <= time / 2 - 2)
  }

  function Risen(w: WriteState, dq: Word, dqm: Nibble): (r: WriteState) {
    WriteState(w.next, w.addressNext, false, w.addressNext, dq, dqm)
  }

  lemma RisingKeeps(w: WriteState, time: nat, cells: Cells, reset: Cells, commands: seq<(int, nat)>,
                    done: seq<PairWrite>, dq: Word, dqm: Nibble)
    requires time % 2 == 0 && History(w, time, cells, reset, commands, done)
    ensures History(Risen(w, dq, dqm), time + 1, if w.next then PutBeat(cells, w.addressNext, dq, dqm) else cells,
                    reset, commands, done)
  {
    hide PutBeat, ApplyAll, Issued;
  }

  lemma CommandKeeps(w: WriteState, time: nat, cells: Cells, reset: Cells, commands: seq<(int, nat)>,
                     done: seq<PairWrite>, address: nat)
    requires time % 2 == 1 && !w.next && History(w, time, cells, reset, commands, done)
    ensures History(w.(next := true, addressNext := address), time, cells, reset, commands + [(time / 2, address)],
                    done)
  {
    hide PutBeat, ApplyAll, Issued;
    var w' := w.(next := true, addressNext := address);
    assert UnderWay(w, time) + [(time / 2, address)] == UnderWay(w', time);
    assert commands + [(time / 2, address)] == Issued(done) + (UnderWay(w, time) + [(time / 2, address)]);
  }

  lemma FallingKeeps(w: WriteState, time: nat, cells: Cells, reset: Cells, commands: seq<(int, nat)>,
                     done: seq<PairWrite>, dq: Word, dqm: Nibble)
    requires time % 2 == 1 && History(w, time, cells, reset, commands, done)
    ensures var d := PairWrite(time / 2 - 1, w.address, w.data0, w.mask0, dq, dqm);
            if w.now then History(w, time + 1, PutBeat(cells, w.address + 1, dq, dqm), reset, commands, done + [d])
            else History(w, time + 1, cells, reset, commands, done)
  {
    hide PutBeat;
    if w.now {
      var d := PairWrite(time / 2 - 1, w.address, w.data0, w.mask0, dq, dqm);
      ApplyLast(reset, done + [d], done, d);
      assert Issued(done + [d]) == Issued(done) + [(d.clock, d.address)];
      assert UnderWay(w, time) == [(d.clock, d.address)] + UnderWay(w, time + 1);
      assert Issued(done) + UnderWay(w, time) == Issued(done + [d]) + UnderWay(w, time + 1);
    }
  }

  /** The place of a command is clear of both words at `a`. */
  predicate Apart(c: (int, nat), a: nat) {
    a + 1 < c.1 || c.1 + 1 < a
  }

  /** Every write commanded two or more clocks ago is among the finished ones. */
  lemma OldWritesAreDone(w: WriteState, time: nat, commands: seq<(int, nat)>, done: seq<PairWrite>, k: nat)
    requires commands == Issued(done) + UnderWay(w, time) && k < |commands| && commands[k].0 <= time / 2 - 2
    ensures k < |done| && commands[k] == (done[k].clock, done[k].address)
  {
    assert forall c <- UnderWay(w, time) :: c.0 >= time / 2 - 1;
  }

  lemma LaterWritesAreApart(w: WriteState, time: nat, commands: seq<(int, nat)>, done: seq<PairWrite>, k: nat, a: nat)
    requires commands == Issued(done) + UnderWay(w, time) && k < |done|
    requires forall j | k < j < |commands| :: Apart(commands[j], a)
    ensures forall v <- done[k + 1..] :: !Touches(v, a) && !Touches(v, a + 1)
    ensures w.now && time % 2 == 1 ==> w.address != a && w.address != a + 1
  {
    hide UnderWay;
    forall i | k + 1 <= i < |done| ensures !Touches(done[i], a) && !Touches(done[i], a + 1) {
      assert commands[i] == (done[i].clock, done[i].address);
      assert Apart(commands[i], a);
    }
    if w.now && time % 2 == 1 {
      FirstUnderWay(w, time);
      assert commands[|done|] == UnderWay(w, time)[0];
      assert Apart(commands[|done|], a);
    }
  }

  lemma FirstUnderWay(w: WriteState, time: nat)
    requires w.now && time % 2 == 1
    ensures |UnderWay(w, time)| > 0 && UnderWay(w, time)[0].1 == w.address
  {
  }

  lemma HistoryCommands(w: WriteState, time: nat, cells: Cells, reset: Cells, commands: seq<(int, nat)>,
                        done: seq<PairWrite>)
    requires History(w, time, cells, reset, commands, done)
    ensures commands == Issued(done) + UnderWay(w, time) && |cells| == |reset|
  {
    hide UnderWay, Issued;
  }

  /** The first beat of a write under way changes no other cell. */
  lemma SettledElsewhere(w: WriteState, time: nat, cells: Cells, reset: Cells, commands: seq<(int, nat)>,
                         done: seq<PairWrite>, address: nat)
    requires History(w, time, cells, reset, commands, done) && address < |reset|
    requires w.now && time % 2 == 1 ==> w.address != address
    ensures cells[address] == ApplyAll(reset, done)[address]
  {
    hide ApplyAll, Masked, UnderWay, Issued;
  }

  /** A read at least two clocks after a write to the same place, with no other write to it
      commanded since, finds the written bytes where the mask allows and the old ones elsewhere. */
  lemma ReadSeesWrite(w: WriteState, time: nat, cells: Cells, reset: Cells, commands: seq<(int, nat)>,
                      done: seq<PairWrite>, k: nat)
    requires History(w, time, cells, reset, commands, done) && k < |commands| && commands[k].0 <= time / 2 - 2
    requires commands[k].1 + 1 < |reset|
    requires forall j | k < j < |commands| :: Apart(commands[j], commands[k].1)
    ensures k < |done| && commands[k] == (done[k].clock, done[k].address)
    ensures var a, before := commands[k].1, ApplyAll(reset, done[..k]);
            && cells[a] == Masked(before[a], done[k].data0, done[k].mask0)
            && cells[a + 1] == Masked(before[a + 1], done[k].data1, done[k].mask1)
  {
    hide *;
    HistoryCommands(w, time, cells, reset, commands, done);
    OldWritesAreDone(w, time, commands, done, k);
    var a := commands[k].1;
    LaterWritesAreApart(w, time, commands, done, k, a);
    SettledElsewhere(w, time, cells, reset, commands, done, a);
    SettledElsewhere(w, time, cells, reset, commands, done, a + 1);
    assert done[..k] + [done[k]] + done[k + 1..] == done;
    LastWriteCounts(reset, done[..k], done[k], done[k + 1..]);
  }

  // ----- from pins to data -----

  /** A bank leaves self refresh, or the mode register resets the delay locked loop. */
  predicate Relocks(banks: BankSeq, cmd: Command, a: nat, args: nat) {
    exists i | 0 <= i < BANKS ::
      || (cmd.WakeUp? && Counted(banks[i]).state.SelfRefresh?)
      || (cmd.LoadMode? && Counted(banks[i]).state.Idle? && args % 4 == 0 && a % 2 == 1)
  }

  /** Clocks until the delay locked loop is locked. */
  function NextLock(lock: nat, banks: BankSeq, cmd: Command, a: nat, args: nat): (n: nat) {
    if Relocks(banks, cmd, a, args) then TIM_DLL_LOCK else if lock > 0 then lock - 1 else 0
  }

  /** A bank that the command is for is in no state to take it. */
  predicate Fails(banks: BankSeq, cmd: Command, target: int, a: nat, args: nat, locking: bool) {
    exists i | 0 <= i < BANKS :: BankStep(banks[i], cmd, target == -1 || target == i, a, args, locking).1
  }

  /** What the memory holds before a clock. */
  datatype Snap = Snap(powerDown: bool, lock: nat, banks: BankSeq, write: WriteState, cells: Cells)

  /** A bank that takes a read or write in the coming clock: active, or about to become so. */
  predicate Ready(b: Bank) {
    (b.state.Active? && b.counter == 0) || (b.counter == 1 && b.next.Active?)
  }

  predicate Writes(x: Snap, p: Pins) {
    !x.powerDown && WritePins(p) && Ready(x.banks[p.ba % 4])
  }

  predicate Reads(x: Snap, p: Pins) {
    !x.powerDown && ReadPins(p) && Ready(x.banks[p.ba % 4])
  }

  /** Row of the addressed bank and column. */
  function PlaceOf(x: Snap, p: Pins): (n: nat) {
    x.banks[p.ba % 4].row * 0x200 + p.a % 0x200
  }

  /** The cells after the rising edge, and after the whole clock. */
  function Rising(x: Snap, c: Clock): (cells: Cells)
    ensures |cells| == |x.cells|
  {
    if x.write.next then PutBeat(x.cells, x.write.addressNext, c.dq0, c.dqm0) else x.cells
  }

  function Landed(x: Snap, c: Clock): (cells: Cells)
    ensures |cells| == |x.cells|
  {
    if x.write.next then PutBeat(Rising(x, c), x.write.addressNext + 1, c.dq1, c.dqm1) else x.cells
  }

  /** The banks and the lock after the command on the pins. */
  ghost predicate StateFollows(x: Snap, p: Pins, y: Snap) {
    var command := CommandOf(p, x.powerDown);
    && y.banks == NextBanks(x.banks, command.0, command.1, p.a, p.ba, x.lock > 1)
    && y.lock == NextLock(x.lock, x.banks, command.0, p.a, p.ba)
  }

  /** The command on the pins is reported as an error. */
  predicate Faulty(x: Snap, p: Pins) {
    Fails(x.banks, CommandOf(p, x.powerDown).0, CommandOf(p, x.powerDown).1, p.a, p.ba, x.lock > 1)
  }

  /** The errors spelled out: an addressed bank in self refresh that is not woken, an idle one
      with a command other than activate, precharge, refresh or a load of one of the two mode
      registers, a timing not met, an active one with a command other than read, write or
      precharge, or a read before the loop is locked. */
  lemma FaultsSpelledOut(banks: BankSeq, cmd: Command, target: int, a: nat, args: nat, locking: bool)
    ensures Fails(banks, cmd, target, a, args, locking)
        <==> !cmd.Nop? && exists i | 0 <= i < BANKS && (target == -1 || target == i) ::
               match Counted(banks[i]).state
               case SelfRefresh => cmd != WakeUp
               case Idle => !(cmd.Activate? || cmd.Precharge? || cmd.AutoRefresh? || (cmd.LoadMode? && args % 4 < 2))
               case Active => !(cmd.Read? || cmd.Write? || cmd.Precharge?) || (cmd.Read? && locking)
               case _ => true
  {
  }

  /** The mode register is loaded with a reset of the locked loop while a bank is idle. */
  predicate ResetsLoop(x: Snap, p: Pins) {
    && !x.powerDown && p.cke && !p.selectN && !p.ras && !p.cas && !p.we && p.ba % 4 == 0 && p.a % 2 == 1
    && exists i | 0 <= i < BANKS :: Counted(x.banks[i]).state.Idle?
  }

  /** In a run a read that is no error comes 200 clocks or more after the loop was reset. */
  lemma ReadsWaitForLock(trace: seq<Snap>, clocks: seq<Clock>, k: nat, j: nat)
    requires IsTrace(trace, clocks) && k < j < |trace| && j < |clocks|
    requires ResetsLoop(trace[k], clocks[k].pins) && Reads(trace[j], clocks[j].pins)
    requires !Faulty(trace[j], clocks[j].pins)
    ensures j - k >= 200
  {
    hide Ready, Follows;
    LockCounts(trace, clocks, k, j);
    ReadyReads(trace[j], clocks[j].pins);
  }

  lemma ReadyReads(x: Snap, p: Pins)
    requires Reads(x, p) && !Faulty(x, p)
    ensures x.lock <= 1
  {
    hide BankStep;
    OnlyThesePins(p, x.powerDown);
    ReadyStep(x.banks[p.ba % 4], p.a, p.ba, x.lock > 1);
  }

  lemma ReadyStep(b: Bank, a: nat, args: nat, locking: bool)
    requires Ready(b)
    ensures BankStep(b, Read, true, a, args, locking).1 == locking
  {
  }

  lemma {:induction false} LockCounts(trace: seq<Snap>, clocks: seq<Clock>, k: nat, j: nat)
    requires IsTrace(trace, clocks) && k < j < |trace| && ResetsLoop(trace[k], clocks[k].pins)
    ensures trace[j].lock + (j - k) >= 201
    decreases j
  {
    hide NextBanks;
    assert Follows(trace[j - 1], clocks[j - 1], trace[j]);
    if j - 1 > k {
      LockCounts(trace, clocks, k, j - 1);
    }
  }

  /** The data of a write come in the clock after its command. */
  ghost predicate Follows(x: Snap, c: Clock, y: Snap) {
    && y.powerDown == !c.pins.cke && y.cells == Landed(x, c) && StateFollows(x, c.pins, y)
    && (y.write.next <==> Writes(x, c.pins))
    && (y.write.next ==> y.write.addressNext == PlaceOf(x, c.pins))
  }

  ghost predicate IsTrace(trace: seq<Snap>, clocks: seq<Clock>) {
    && 1 <= |trace| <= |clocks| + 1
    && forall i | 0 <= i < |trace| - 1 :: Follows(trace[i], clocks[i], trace[i + 1])
  }

  lemma ReadyTakes(banks: BankSeq, bank: nat)
    requires bank < BANKS && Counts(banks[bank])
    ensures Takes(banks, bank) <==> Ready(banks[bank])
  {
  }

  /** No write commanded from clock k on, up to clock j, touches the two words at a. */
  ghost predicate Untouched(trace: seq<Snap>, clocks: seq<Clock>, k: nat, j: nat, a: nat)
    requires j <= |clocks| && j <= |trace|
  {
    forall i | k <= i < j && Writes(trace[i], clocks[i].pins) ::
      PlaceOf(trace[i], clocks[i].pins) + 1 < a || a + 1 < PlaceOf(trace[i], clocks[i].pins)
  }

  lemma PutBeatElsewhere(m: Cells, address: nat, data: Word, mask: nat, n: nat)
    requires n < |m| && n != address
    ensures PutBeat(m, address, data, mask)[n] == m[n]
  {
    hide Masked;
  }

  /** Byte by byte: a set mask bit keeps the old byte. */
  ghost predicate Merged(w: Word, was: Word, data: Word, mask: nat) {
    forall b: nat | b < 4 :: Lane(w, b) == if mask / Pow2(b) % 2 == 1 then Lane(was, b) else Lane(data, b)
  }

  lemma MaskedMerges(was: Word, data: Word, mask: Nibble)
    ensures Merged(Masked(was, data, mask), was, data, mask)
  {
    hide Masked, Pow2, Lane;
    forall b: nat | b < 4
      ensures Lane(Masked(was, data, mask), b) == if mask / Pow2(b) % 2 == 1 then Lane(was, b) else Lane(data, b)
    {
      MaskBit(mask, b);
      MaskedLane(was, data, mask, b);
    }
  }

  lemma MaskedLane(was: Word, data: Word, mask: Nibble, b: nat)
    requires b < 4
    ensures Lane(Masked(was, data, mask), b) == if LaneSelected(15 - mask, b) then Lane(data, b) else Lane(was, b)
  {
    hide Lane, LaneSelected, MergeLanes;
    QuotientUnique(mask, 16, 0, mask);
  }

  lemma MaskBit(mask: Nibble, b: nat)
    requires b < 4
    ensures LaneSelected(15 - mask, b) <==> mask / Pow2(b) % 2 == 0
  {
    hide Pow2;
    Pow2Bytes();
    Complements(mask);
  }

  lemma Complements(mask: Nibble)
    ensures (15 - mask) % 2 == 1 - mask % 2 && (15 - mask) / 2 % 2 == 1 - mask / 2 % 2
    ensures (15 - mask) / 4 % 2 == 1 - mask / 4 % 2 && (15 - mask) / 8 % 2 == 1 - mask / 8 % 2
  {
    var a, b, c, d := mask % 2, mask / 2 % 2, mask / 4 % 2, mask / 8;
    assert mask == a + 2 * b + 4 * c + 8 * d;
    assert 15 - mask == (1 - a) + 2 * (1 - b) + 4 * (1 - c) + 8 * (1 - d);
  }

  /** Words that no write touches stay through the clocks. */
  lemma {:induction false} CellsStay(trace: seq<Snap>, clocks: seq<Clock>, k: nat, j: nat, a: nat)
    requires IsTrace(trace, clocks) && 0 < k <= j < |trace| && a + 1 < |trace[k].cells|
    requires Untouched(trace, clocks, k - 1, j, a)
    ensures |trace[j].cells| == |trace[k].cells|
    ensures trace[j].cells[a] == trace[k].cells[a] && trace[j].cells[a + 1] == trace[k].cells[a + 1]
    decreases j - k
  {
    hide PutBeat, Writes, PlaceOf;
    if k < j {
      var x, c := trace[k], clocks[k];
      assert Follows(trace[k - 1], clocks[k - 1], x) && Follows(x, c, trace[k + 1]);
      if x.write.next {
        PutBeatElsewhere(x.cells, x.write.addressNext, c.dq0, c.dqm0, a);
        PutBeatElsewhere(x.cells, x.write.addressNext, c.dq0, c.dqm0, a + 1);
        PutBeatElsewhere(Rising(x, c), x.write.addressNext + 1, c.dq1, c.dqm1, a);
        PutBeatElsewhere(Rising(x, c), x.write.addressNext + 1, c.dq1, c.dqm1, a + 1);
      }
      CellsStay(trace, clocks, k + 1, j, a);
    }
  }

  /** What a write in clock k leaves for a read two or more clocks later. */
  lemma WrittenIsSeen(trace: seq<Snap>, clocks: seq<Clock>, k: nat, j: nat)
    requires IsTrace(trace, clocks) && k + 2 <= j < |trace| && j < |clocks| && Writes(trace[k], clocks[k].pins)
    requires var a := PlaceOf(trace[k], clocks[k].pins);
             a + 1 < |trace[k + 1].cells| && Untouched(trace, clocks, k + 1, j, a)
    ensures var a, was, c := PlaceOf(trace[k], clocks[k].pins), trace[k + 1].cells, clocks[k + 1];
            var seen := Rising(trace[j], clocks[j]);
            && |seen| == |was|
            && Merged(seen[a], was[a], c.dq0, c.dqm0) && Merged(seen[a + 1], was[a + 1], c.dq1, c.dqm1)
  {
    hide Masked, Merged, Writes, PlaceOf;
    var a, x, c := PlaceOf(trace[k], clocks[k].pins), trace[k + 1], clocks[k + 1];
    assert Follows(trace[k], clocks[k], x) && Follows(x, c, trace[k + 2]);
    MaskedMerges(x.cells[a], c.dq0, c.dqm0);
    MaskedMerges(x.cells[a + 1], c.dq1, c.dqm1);
    assert trace[k + 2].cells[a] == Masked(x.cells[a], c.dq0, c.dqm0);
    assert trace[k + 2].cells[a + 1] == Masked(x.cells[a + 1], c.dq1, c.dqm1);
    CellsStay(trace, clocks, k + 2, j, a);
    var y := trace[j];
    assert Follows(trace[j - 1], clocks[j - 1], y);
    if y.write.next && j - 1 > k {
      PutBeatElsewhere(y.cells, y.write.addressNext, clocks[j].dq0, clocks[j].dqm0, a);
      PutBeatElsewhere(y.cells, y.write.addressNext, clocks[j].dq0, clocks[j].dqm0, a + 1);
    }
  }

  /** What is on the pins in a clock, with the data of both half clocks. */
  datatype Clock = Clock(pins: Pins, dq0: Word, dqm0: Nibble, dq1: Word, dqm1: Nibble)

  class Memory {
    var powerDown: bool
    var dllLock: nat
    var banks: BankSeq
    var write: WriteState
    const fifo: array<Word>
    var enables: seq<bool>
    var dqOut: Word
    var dqOe: bool
    var cells: Cells

    // half clocks so far (even ones are followed by a rising edge), what the output pins are
    // promised, the cells at reset, the write commands so far and those with both beats in
    ghost var time: nat
    ghost var schedule: Schedule
    ghost var enabled: set<nat>
    ghost var reset: Cells
    ghost var commands: seq<(int, nat)>
    ghost var done: seq<PairWrite>

    /** Promised beats and enables come out on time. */
    ghost predicate OutputsOk()
      reads `enables, `schedule, `enabled, `time, `dqOut, `dqOe, fifo
    {
      && fifo.Length == STAGES && |enables| == STAGES
      && Kept(schedule, time, fifo[..]) && Enabled(enabled, time, enables)
      && Ahead(schedule, time + 5 + time % 2)
      && (time in schedule ==> dqOut == schedule[time]) && (dqOe <==> time in enabled)
    }

    ghost predicate CellsOk()
      reads `write, `time, `cells, `reset, `commands, `done
    {
      History(write, time, cells, reset, commands, done)
    }

    ghost predicate Valid()
      reads this, fifo
    {
      OutputsOk() && CellsOk() && forall i | 0 <= i < BANKS :: Counts(banks[i])
    }

    constructor (cells: Cells)
      ensures Valid() && time == 0 && this.cells == cells && commands == [] && fresh(fifo)
      ensures powerDown && dllLock == 0 && !write.now && !write.next && !dqOe
      ensures forall i | 0 <= i < BANKS :: banks[i].state.SelfRefresh?
    {
      powerDown, dllLock := true, 0;
      banks := seq(BANKS, i => Bank(SelfRefresh, Idle, 0, 0, 0));
      write := WriteState(false, 0, false, 0, 0, 0);
      fifo := new Word[STAGES](_ => 0xdead_dead);
      enables := seq(STAGES, i => false);
      dqOut, dqOe, this.cells := 0xdead_dead, false, cells;
      time, schedule, enabled, reset, commands, done := 0, map[], {}, cells, [], [];
      new;
      assert ApplyAll(cells, []) == cells;
    }

    /** What both edges do: the output pipelines move by one place. */
    method BiedgeClock()
      requires OutputsOk()
      modifies fifo, `enables, `dqOut, `dqOe, `time
      ensures OutputsOk() && time == old(time) + 1
      ensures time % 2 == 1 ==> Ahead(schedule, time + 4)
    {
      hide Kept, Enabled, Ahead;
      ghost var before := fifo[..];
      Shift(fifo);
      ShiftKeeps(schedule, time, before, fifo[..]);
      ShiftEnables(enabled, time, enables);
      AheadOfNext(schedule, time);
      enables := enables[1..] + [false];
      dqOut, dqOe := fifo[0], enables[0];
      time := time + 1;
      FirstIsDue(schedule, enabled, time, fifo[..], enables);
    }

    /** One beat of the write whose data are on the bus. */
    method DoWriteData(offset: nat, dq: Word, dqm: Nibble)
      modifies `cells
      ensures cells == PutBeat(old(cells), write.address + offset, dq, dqm)
    {
      hide Masked;
      var address := write.address + offset;
      if address < |cells| {
        cells := cells[address := Masked(cells[address], dq, dqm)];
      }
    }

    method StepBanks(cmd: Command, target: int, a: nat, args: nat) returns (error: bool)
      requires forall i | 0 <= i < BANKS :: Counts(banks[i])
      modifies `banks
      ensures banks == NextBanks(old(banks), cmd, target, a, args, dllLock > 0)
      ensures error <==> Fails(old(banks), cmd, target, a, args, dllLock > 0)
      ensures !error ==> forall i | 0 <= i < BANKS :: Counts(banks[i])
    {
      error := false;
      ghost var before := banks;
      for i := 0 to BANKS
        invariant forall k | 0 <= k < i ::
            banks[k] == BankStep(before[k], cmd, target == -1 || target == k, a, args, dllLock > 0).0
        invariant forall k | i <= k < BANKS :: banks[k] == before[k]
        invariant error <==> exists k | 0 <= k < i ::
            BankStep(before[k], cmd, target == -1 || target == k, a, args, dllLock > 0).1
        invariant !error ==> forall k | 0 <= k < BANKS :: Counts(banks[k])
      {
        CountersFollowStates(banks[i], cmd, target == -1 || target == i, a, args, dllLock > 0);
        var r := BankStep(banks[i], cmd, target == -1 || target == i, a, args, dllLock > 0);
        banks := banks[i := r.0];
        error := error || r.1;
      }
      assert banks == NextBanks(before, cmd, target, a, args, dllLock > 0);
    }

    /** The rising edge: data of a write under way, then the command on the pins. A read is
        promised its two beats five and six half clocks later, from the cells as they are now. */
    method PosEdge(p: Pins, dq: Word, dqm: Nibble) returns (error: bool)
      requires Valid() && time % 2 == 0
      modifies this, fifo
      ensures time == old(time) + 1 && reset == old(reset) && done == old(done)
      ensures OutputsOk() && CellsOk() && (!error ==> Valid()) && Honours(old(schedule), schedule, 0)
      ensures forall t <- schedule | t <= time + 4 :: t in old(schedule)
      ensures powerDown == !p.cke && write.now == old(write).next
          && (write.now ==> write.address == old(write).addressNext)
      ensures var cmd, target := CommandOf(p, old(powerDown)).0, CommandOf(p, old(powerDown)).1;
              && banks == NextBanks(old(banks), cmd, target, p.a, p.ba, old(dllLock) > 1)
              && dllLock == NextLock(old(dllLock), old(banks), cmd, p.a, p.ba)
              && (error <==> Fails(old(banks), cmd, target, p.a, p.ba, old(dllLock) > 1))
              && cells == (if old(write).next then PutBeat(old(cells), old(write).addressNext, dq, dqm) else old(cells))
              && (if cmd.Read? && Takes(old(banks), target) then
                    && schedule == WithBurst(old(schedule), time, cells, CellAddress(old(banks), target, p.a))
                    && enabled == old(enabled) + ReadTimes(time)
                  else schedule == old(schedule) && enabled == old(enabled))
              && (if cmd.Write? && Takes(old(banks), target)
                  then commands == old(commands) + [(time / 2, CellAddress(old(banks), target, p.a))]
                       && write.next && write.addressNext == CellAddress(old(banks), target, p.a)
                  else commands == old(commands) && !write.next)
    {
      hide OutputsOk, CellsOk, CommandOf, BankStep, Takes, CellAddress, PutBeat, WithBurst, NextBanks, Counts, Fails,
        Relocks;
      RiseWithData(dq, dqm);
      var command := CommandOf(p, powerDown);
      powerDown := !p.cke;
      if dllLock > 0 {
        dllLock := dllLock - 1;
      }
      error := DoCommand(command.0, command.1, p.a, p.ba);
    }

    method RiseWithData(dq: Word, dqm: Nibble)
      requires OutputsOk() && CellsOk() && time % 2 == 0
      modifies fifo, `enables, `dqOut, `dqOe, `time, `write, `cells
      ensures OutputsOk() && CellsOk() && time == old(time) + 1 && !write.next && Ahead(schedule, time + 4)
      ensures write.now == old(write).next && write.address == old(write).addressNext
      ensures cells == if old(write).next then PutBeat(old(cells), old(write).addressNext, dq, dqm) else old(cells)
    {
      hide History, Kept, Enabled, PutBeat;
      RisingKeeps(write, time, cells, reset, commands, done, dq, dqm);
      BiedgeClock();
      write := Risen(write, dq, dqm);
      if write.now {
        DoWriteData(0, dq, dqm);
      }
    }

    method DoCommand(cmd: Command, target: int, a: nat, args: nat) returns (error: bool)
      requires OutputsOk() && CellsOk() && time % 2 == 1 && !write.next && Ahead(schedule, time + 4)
      requires forall i | 0 <= i < BANKS :: Counts(banks[i])
      modifies fifo, `enables, `schedule, `enabled, `banks, `dllLock, `write, `commands
      ensures OutputsOk() && CellsOk() && (!error ==> forall i | 0 <= i < BANKS :: Counts(banks[i]))
      ensures Honours(old(schedule), schedule, 0) && forall t <- schedule | t <= time + 4 :: t in old(schedule)
      ensures write.now == old(write).now && write.address == old(write).address
      ensures banks == NextBanks(old(banks), cmd, target, a, args, old(dllLock) > 0)
      ensures dllLock == if Relocks(old(banks), cmd, a, args) then TIM_DLL_LOCK else old(dllLock)
      ensures error <==> Fails(old(banks), cmd, target, a, args, old(dllLock) > 0)
      ensures if cmd.Read? && Takes(old(banks), target) then
                && schedule == WithBurst(old(schedule), time, cells, CellAddress(old(banks), target, a))
                && enabled == old(enabled) + ReadTimes(time)
              else schedule == old(schedule) && enabled == old(enabled)
      ensures if cmd.Write? && Takes(old(banks), target)
              then commands == old(commands) + [(time / 2, CellAddress(old(banks), target, a))]
                   && write.next && write.addressNext == CellAddress(old(banks), target, a)
              else commands == old(commands) && !write.next
    {
      hide History, Kept, Enabled, BankStep, Takes, CellAddress, Relocks, PutBeat, WithBurst, Driven, ReadTimes,
        NextBanks, Counts, Fails;
      var before := banks;
      error := StepBanks(cmd, target, a, args);
      if Relocks(before, cmd, a, args) {
        dllLock := TIM_DLL_LOCK;
      }
      if Takes(before, target) {
        TakesBank(before, target);
        var address := CellAddress(before, target, a);
        if cmd.Read? {
          StartRead(address);
        } else if cmd.Write? {
          CommandKeeps(write, time, cells, reset, commands, done, address);
          commands := commands + [(time / 2, address)];
          write := write.(next := true, addressNext := address);
        }
      }
    }

    method StartRead(address: nat)
      requires OutputsOk() && time % 2 == 1 && Ahead(schedule, time + 4)
      modifies fifo, `enables, `schedule, `enabled
      ensures OutputsOk() && Honours(old(schedule), schedule, 0)
      ensures forall t <- schedule | t <= time + 4 :: t in old(schedule)
      ensures schedule == WithBurst(old(schedule), time, cells, address) && enabled == old(enabled) + ReadTimes(time)
    {
      LoadBurst(fifo, cells, address, schedule, time);
      BurstGoesBehind(schedule, time, cells, address);
      schedule := WithBurst(schedule, time, cells, address);
      DrivenOk(enabled, time, enables);
      enabled := enabled + ReadTimes(time);
      enables := Driven(enables);
    }

    /** The falling edge: the second beat of a write. */
    method NegEdge(dq: Word, dqm: Nibble)
      requires OutputsOk() && CellsOk() && time % 2 == 1
      modifies this, fifo
      ensures time == old(time) + 1 && reset == old(reset) && commands == old(commands)
      ensures schedule == old(schedule) && enabled == old(enabled) && banks == old(banks)
      ensures powerDown == old(powerDown) && write == old(write) && dllLock == old(dllLock)
      ensures cells == if write.now then PutBeat(old(cells), write.address + 1, dq, dqm) else old(cells)
      ensures OutputsOk() && CellsOk() && (old(Valid()) ==> Valid())
      ensures done == if old(write).now
                      then old(done) + [PairWrite(old(time) / 2 - 1, old(write).address, old(write).data0,
                                                  old(write).mask0, dq, dqm)]
                      else old(done)
    {
      hide History, Kept, Enabled, PutBeat;
      FallingKeeps(write, time, cells, reset, commands, done, dq, dqm);
      BiedgeClock();
      if write.now {
        done := done + [PairWrite(time / 2 - 2, write.address, write.data0, write.mask0, dq, dqm)];
        DoWriteData(1, dq, dqm);
      }
    }

    ghost function Now(): (x: Snap)
      reads this
    {
      Snap(powerDown, dllLock, banks, write, cells)
    }

    /** One clock, both edges. */
    method OneClock(c: Clock) returns (first: Word, second: Word, error: bool)
      requires Valid() && time % 2 == 0
      modifies this, fifo
      ensures time == old(time) + 2 && OutputsOk() && CellsOk() && (!error ==> Valid())
      ensures Honours(old(schedule), schedule, 0)
      ensures old(time) + 1 in old(schedule) ==> first == old(schedule)[old(time) + 1]
      ensures old(time) + 2 in schedule ==> second == schedule[old(time) + 2]
      ensures Follows(old(Now()), c, Now()) && (error <==> Faulty(old(Now()), c.pins))
      ensures Reads(old(Now()), c.pins) ==>
                schedule == WithBurst(old(schedule), old(time) + 1, Rising(old(Now()), c), PlaceOf(old(Now()), c.pins))
      ensures forall t <- schedule | t <= old(time) + 5 :: t in old(schedule)
    {
      hide OutputsOk, CellsOk, CommandOf, Takes, PutBeat, WithBurst, NextBanks, Counts, Ready, WritePins, ReadPins,
        Fails, NextLock;
      OnlyThesePins(c.pins, powerDown);
      ReadyTakes(banks, c.pins.ba % 4);
      error := PosEdge(c.pins, c.dq0, c.dqm0);
      OnTime();
      first := dqOut;
      NegEdge(c.dq1, c.dqm1);
      OnTime();
      second := dqOut;
    }

    /** Clocks in a row, until one reports an error: whatever the commands, every word
        promised at the start comes out in its half clock, and every read on the way sends
        its two words in the fifth and sixth half clock after its rising edge. */
    method Run(clocks: seq<Clock>) returns (outs: seq<Word>, error: bool, ghost trace: seq<Snap>)
      requires Valid() && time % 2 == 0
      modifies this, fifo
      ensures time == old(time) + |outs| && time % 2 == 0 && (!error ==> Valid() && |outs| == 2 * |clocks|)
      ensures Honours(old(schedule), schedule, 0)
      ensures forall t <- old(schedule) | old(time) < t <= time :: outs[t - old(time) - 1] == old(schedule)[t]
      ensures IsTrace(trace, clocks) && trace[0] == old(Now()) && 2 * |trace| == |outs| + 2
      ensures forall i | 0 <= i < |trace| - 1 && Reads(trace[i], clocks[i].pins) ::
                SentBy(outs, 2 * i + 5, Rising(trace[i], clocks[i]), PlaceOf(trace[i], clocks[i].pins))
      ensures forall i | 0 <= i < |trace| - 1 :: Faulty(trace[i], clocks[i].pins) <==> error && i == |trace| - 2
    {
      hide Valid, OutputsOk, CellsOk, WithBurst, Follows, Reads, PlaceOf, Rising, Promised, SentBy, Faulty;
      outs, error, trace := [], false, [Now()];
      for i := 0 to |clocks|
        invariant time == old(time) + 2 * i && |outs| == 2 * i && |trace| == i + 1 && !error && Valid()
        invariant Honours(old(schedule), schedule, 0) && IsTrace(trace, clocks)
        invariant trace[0] == old(Now()) && trace[i] == Now()
        invariant forall k | 0 <= k < i :: !Faulty(trace[k], clocks[k].pins)
        invariant forall t <- schedule | old(time) < t <= time :: outs[t - old(time) - 1] == schedule[t]
        invariant forall k | 0 <= k < i && Reads(trace[k], clocks[k].pins) ::
            Promised(schedule, old(time) + 2 * k + 6, Rising(trace[k], clocks[k]), PlaceOf(trace[k], clocks[k].pins))
      {
        ghost var before, t0, was := schedule, time, trace;
        var first, second;
        first, second, error := OneClock(clocks[i]);
        outs, trace := outs + [first, second], trace + [Now()];
        forall k | 0 <= k < |trace| - 1 ensures Follows(trace[k], clocks[k], trace[k + 1]) {
          assert k < i ==> trace[k] == was[k] && trace[k + 1] == was[k + 1] && Follows(was[k], clocks[k], was[k + 1]);
        }
        BurstIsPromised(before, t0 + 1, Rising(trace[i], clocks[i]), PlaceOf(trace[i], clocks[i].pins));
        forall k | 0 <= k <= i && Reads(trace[k], clocks[k].pins)
          ensures Promised(schedule, old(time) + 2 * k + 6, Rising(trace[k], clocks[k]),
                           PlaceOf(trace[k], clocks[k].pins))
        {
          if k < i {
            PromiseKept(before, schedule, old(time) + 2 * k + 6, Rising(was[k], clocks[k]),
                        PlaceOf(was[k], clocks[k].pins));
          }
        }
        forall t <- schedule | old(time) < t <= time ensures outs[t - old(time) - 1] == schedule[t] {
          assert t in before;
        }
        forall k | 0 <= k <= i && Reads(trace[k], clocks[k].pins)
          ensures SentBy(outs, 2 * k + 5, Rising(trace[k], clocks[k]), PlaceOf(trace[k], clocks[k].pins))
        {
          SentWhenDue(schedule, old(time), outs, 2 * k + 5, Rising(trace[k], clocks[k]),
                      PlaceOf(trace[k], clocks[k].pins));
        }
        if error {
          return;
        }
      }
      forall k | 0 <= k < |clocks| && Reads(trace[k], clocks[k].pins)
        ensures SentBy(outs, 2 * k + 5, Rising(trace[k], clocks[k]), PlaceOf(trace[k], clocks[k].pins))
      {
        SentWhenDue(schedule, old(time), outs, 2 * k + 5, Rising(trace[k], clocks[k]),
                    PlaceOf(trace[k], clocks[k].pins));
      }
    }

    /** A write in clock k to a bank that is open, then two or more clocks later a read of the
        same row and column with no overlapping write between: the read sends, in the fifth
        and sixth half clock after its rising edge, the bytes that the write did not mask and
        the old ones where it did. */
    method WriteThenRead(clocks: seq<Clock>, ghost k: nat, ghost j: nat)
      returns (outs: seq<Word>, error: bool, ghost trace: seq<Snap>)
      requires Valid() && time % 2 == 0 && k + 2 <= j && j + 4 <= |clocks|
      requires var p := clocks[k].pins; p.cke && !p.selectN && p.ras && !p.cas && !p.we
      requires var p := clocks[j].pins; p.cke && !p.selectN && p.ras && !p.cas && p.we
      modifies this, fifo
      ensures IsTrace(trace, clocks) && trace[0] == old(Now()) && (!error ==> |trace| == |clocks| + 1)
      ensures !error ==>
                var w, r, bw, br := clocks[k].pins, clocks[j].pins, clocks[k].pins.ba % 4, clocks[j].pins.ba % 4;
                var a := trace[k].banks[bw].row * 512 + w.a % 512;
                (&& !trace[k].powerDown && Ready(trace[k].banks[bw]) && !trace[j].powerDown && Ready(trace[j].banks[br])
                 && trace[j].banks[br].row == trace[k].banks[bw].row && r.a % 512 == w.a % 512
                 && a + 1 < |trace[k + 1].cells| && Untouched(trace, clocks, k + 1, j, a)) ==>
                  var was, c := trace[k + 1].cells, clocks[k + 1];
                  && |outs| > 2 * j + 6
                  && Merged(outs[2 * j + 5], was[a], c.dq0, c.dqm0)
                  && Merged(outs[2 * j + 6], was[a + 1], c.dq1, c.dqm1)
    {
      hide Valid, Follows, Merged, Untouched, Rising, Ready;
      outs, error, trace := Run(clocks);
      if !error && Writes(trace[k], clocks[k].pins) && Reads(trace[j], clocks[j].pins) {
        var a := PlaceOf(trace[k], clocks[k].pins);
        if a + 1 < |trace[k + 1].cells| && Untouched(trace, clocks, k + 1, j, a) {
          WrittenIsSeen(trace, clocks, k, j);
        }
      }
    }

    lemma OnTime()
      requires OutputsOk()
      ensures time in schedule ==> dqOut == schedule[time]
    {
    }
  }

  /** Both words at a are promised from time t on, and have been sent from place n on. */
  ghost predicate Promised(schedule: Schedule, t: nat, cells: Cells, a: nat) {
    && (a < |cells| ==> t in schedule && schedule[t] == cells[a])
    && (a + 1 < |cells| ==> t + 1 in schedule && schedule[t + 1] == cells[a + 1])
  }

  lemma BurstIsPromised(schedule: Schedule, time: nat, cells: Cells, a: nat)
    ensures Promised(WithBurst(schedule, time, cells, a), time + 5, cells, a)
  {
  }

  lemma PromiseKept(before: Schedule, after: Schedule, t: nat, cells: Cells, a: nat)
    requires Honours(before, after, 0) && Promised(before, t, cells, a)
    ensures Promised(after, t, cells, a)
  {
  }

  lemma SentWhenDue(schedule: Schedule, start: nat, outs: seq<Word>, n: nat, cells: Cells, a: nat)
    requires Promised(schedule, start + n + 1, cells, a)
    requires forall t <- schedule | start < t <= start + |outs| :: outs[t - start - 1] == schedule[t]
    ensures SentBy(outs, n, cells, a)
  {
  }

  ghost predicate SentBy(outs: seq<Word>, n: nat, cells: Cells, a: nat) {
    && (n < |outs| && a < |cells| ==> outs[n] == cells[a])
    && (n + 1 < |outs| && a + 1 < |cells| ==> outs[n + 1] == cells[a + 1])
  }

  lemma TakesBank(banks: BankSeq, target: int)
    requires Takes(banks, target)
    ensures 0 <= target < BANKS
  {
  }
}
