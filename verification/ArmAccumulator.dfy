/** The decoder's use of the accumulator as a copy of the register last written: operand
    reads of that register are turned into reads of the accumulator. */
module ArmAccumulator {
  import opened Words
  import opened FlatMemory
  import opened GipInstruction
  import opened GipAlu
  import opened GipSequential
  import opened ByteAccess
  import opened ArmOpcode
  import opened ArmDataProcessing

  /** What the decoder remembers: whether the accumulator copies a register, and which. */
  datatype Cache = Cache(valid: bool, reg: RegNo)

  function FromAcc(src: Source, cache: Cache): (r: Source) {
    if cache.valid && src == Reg(cache.reg) then Acc else src
  }

  function Substitute(inst: Instruction, cache: Cache): (n: Instruction) {
    inst.(rn := FromAcc(inst.rn, cache),
          rm := if inst.rm.Register? then Register(FromAcc(inst.rm.source, cache)) else inst.rm)
  }

  /** The cache after an instruction: unconditional results are copied, conditional writes
      to the copied register end the copy. */
  function Track(cache: Cache, i: DataProcessing): (next: Cache) {
    if !IsCompare(i.op) && i.cc == 14 then (if i.rd == 15 then cache.(valid := false) else Cache(true, i.rd))
    else if !IsCompare(i.op) && i.rd != 15 && i.rd == cache.reg then cache.(valid := false)
    else cache
  }

  function SubstituteAll(insts: seq<Instruction>, cache: Cache): (r: seq<Instruction>)
    ensures |r| == |insts|
  {
    seq(|insts|, k requires 0 <= k < |insts| => Substitute(insts[k], cache))
  }

  /** The internal instructions of a program, one instruction at a time. */
  function Expanded(program: seq<DataProcessing>): (r: seq<Instruction>) {
    if program == [] then [] else Expand(program[0], 0) + Expanded(program[1..])
  }

  /** What the decoder makes of an instruction, stale being the number its operand field
      still holds, and what the field holds afterwards. */
  function DecodedOne(i: DataProcessing, stale: RegNo, cache: Cache): (r: seq<Instruction>)
    ensures |r| == |Expand(i, stale)|
  {
    SubstituteAll(Expand(i, stale), cache)
  }

  function StaleAfterOne(i: DataProcessing, stale: RegNo, cache: Cache): (r: RegNo) {
    var insts := DecodedOne(i, stale, cache);
    LeftOver(insts[|insts| - 1].rm)
  }

  /** What the decoder makes of a program: reads of the copied register go to the
      accumulator, and every immediate carries the number that the last register operand
      before it has left in the field. */
  function Decoded(program: seq<DataProcessing>, stale: RegNo, cache: Cache): (r: seq<Instruction>) {
    if program == [] then []
    else
      var i := program[0];
      DecodedOne(i, stale, cache) + Decoded(program[1..], StaleAfterOne(i, stale, cache), Track(cache, i))
  }

  function StaleAfter(program: seq<DataProcessing>, stale: RegNo, cache: Cache): (r: RegNo) {
    if program == [] then stale
    else
      var i := program[0];
      StaleAfter(program[1..], StaleAfterOne(i, stale, cache), Track(cache, i))
  }

  function CacheAfter(program: seq<DataProcessing>, cache: Cache): (r: Cache) {
    if program == [] then cache else CacheAfter(program[1..], Track(cache, program[0]))
  }

  ghost predicate Copies(s: Arch, cache: Cache) {
    cache.valid ==> s.core.acc == s.regs[cache.reg]
  }

  /** Equal but for the second ALU input, which only multiplication steps look back at. */
  ghost predicate Same(s: Arch, t: Arch) {
    s.(bIn := 0) == t.(bIn := 0)
  }

  predicate IsAlu(inst: Instruction) {
    (inst.kind.Arith? && !inst.kind.arithOp.Mlb?) || inst.kind.Logic? || inst.kind.Shift?
  }

  /** The data register of a store is the copied one: the substituted store is given the
      accumulator as its source, but stores what the register port delivers, the PC. */
  predicate LosesData(inst: Instruction, cache: Cache) {
    inst.kind.Store? && cache.valid && inst.rm == Register(Reg(cache.reg))
  }

  /** The substituted instruction does what the plain one does, if and only if it does not
      store other lanes of the PC in place of those of the copied register. */
  lemma SubstituteIsSame(trail2: bool, s: Arch, t: Arch, inst: Instruction, cache: Cache)
    requires !IsMlb(inst) && Same(s, t) && Copies(s, cache)
    ensures Same(Execute(trail2, s, Substitute(inst, cache)), Execute(trail2, t, inst))
            <==> !(LosesData(inst, cache) && ConditionMet(trail2, s.core, inst.cc)
                   && inst.pc % Range(inst.kind.size) != s.regs[cache.reg] % Range(inst.kind.size))
  {
    hide Execute, Range, ConditionMet, Copies, Same;
    if inst.kind.Store? {
      SubstitutedStore(trail2, s, t, inst, cache);
    } else {
      SubstitutedOther(trail2, s, t, inst, cache);
    }
  }

  lemma SubstitutedOther(trail2: bool, s: Arch, t: Arch, inst: Instruction, cache: Cache)
    requires !IsMlb(inst) && !inst.kind.Store? && Same(s, t) && Copies(s, cache)
    ensures Same(Execute(trail2, s, Substitute(inst, cache)), Execute(trail2, t, inst))
  {
    hide Evaluate, ReadSource, SecondInput, LoadFrom;
    SameOutcome(trail2, s, t, inst, cache);
  }

  lemma SubstitutedStore(trail2: bool, s: Arch, t: Arch, inst: Instruction, cache: Cache)
    requires inst.kind.Store? && Same(s, t) && Copies(s, cache)
    ensures Same(Execute(trail2, s, Substitute(inst, cache)), Execute(trail2, t, inst))
            <==> !(LosesData(inst, cache) && ConditionMet(trail2, s.core, inst.cc)
                   && inst.pc % Range(inst.kind.size) != s.regs[cache.reg] % Range(inst.kind.size))
  {
    hide Evaluate, ReadSource, SecondInput, StoreTo, Range, ConditionMet, LosesData;
    SameOutcome(trail2, s, t, inst, cache);
    SameStored(s, t, inst, cache);
    var o := Evaluate(trail2, inst, ReadSource(t.regs, inst.rn, inst.pc), SecondInput(t.regs, inst, t.bIn), t.core);
    SameLanesSameStore(s.memory, inst.kind.size, AccessAddress(inst, o), inst.pc, s.regs[cache.reg]);
  }

  /** What a store is handed for the memory. */
  lemma SameStored(s: Arch, t: Arch, inst: Instruction, cache: Cache)
    requires inst.kind.Store? && Same(s, t)
    ensures SecondInput(s.regs, Substitute(inst, cache), s.bIn)
            == if LosesData(inst, cache) then inst.pc else SecondInput(t.regs, inst, t.bIn)
    ensures LosesData(inst, cache) ==> SecondInput(t.regs, inst, t.bIn) == s.regs[cache.reg]
  {
  }

  lemma SameOperands(s: Arch, t: Arch, inst: Instruction, cache: Cache)
    requires !IsMlb(inst) && Same(s, t) && Copies(s, cache)
    ensures var sub := Substitute(inst, cache);
            && Operand1(sub, ReadSource(s.regs, sub.rn, sub.pc), s.core)
               == Operand1(inst, ReadSource(t.regs, inst.rn, inst.pc), t.core)
            && Operand2(sub, SecondInput(s.regs, sub, s.bIn), s.core)
               == Operand2(inst, SecondInput(t.regs, inst, t.bIn), t.core)
  {
  }

  /** The outcome depends on the operands alone. */
  lemma SameOutcome(trail2: bool, s: Arch, t: Arch, inst: Instruction, cache: Cache)
    requires !IsMlb(inst) && Same(s, t) && Copies(s, cache)
    ensures var sub := Substitute(inst, cache);
            Evaluate(trail2, sub, ReadSource(s.regs, sub.rn, sub.pc), SecondInput(s.regs, sub, s.bIn), s.core)
            == Evaluate(trail2, inst, ReadSource(t.regs, inst.rn, inst.pc), SecondInput(t.regs, inst, t.bIn), t.core)
  {
    hide Operand1, Operand2, ReadSource, SecondInput, ArithResult, ArithShift, LogicResult, BarrelShift, ConditionMet,
      NextCp, FromAcc;
    SameOperands(s, t, inst, cache);
    var sub := Substitute(inst, cache);
    assert sub.kind == inst.kind && sub.cc == inst.cc && sub.rd == inst.rd && sub.a == inst.a;
    assert s.core == t.core;
  }

  /** An ALU instruction writes its value to its destination register, and to the
      accumulator as well when it is marked for that. */
  lemma AccFollows(trail2: bool, s: Arch, inst: Instruction)
    requires inst.kind.Arith? || inst.kind.Logic? || (inst.kind.Shift? && !inst.a)
    ensures var t := Execute(trail2, s, inst);
            var passed := ConditionMet(trail2, s.core, inst.cc);
            && (inst.a && passed && inst.rd.ToReg? ==> t.regs[inst.rd.r] == t.core.acc)
            && (!(inst.a && passed) ==> t.core.acc == s.core.acc)
            && (forall r: RegNo | inst.rd != ToReg(r) :: t.regs[r] == s.regs[r])
  {
    hide Operand1, Operand2, ReadSource, SecondInput, LoadFrom, StoreTo, ArithResult, ArithShift, LogicResult,
      BarrelShift, ConditionMet, NextCp;
  }

  lemma AccAfterAluStep(trail2: bool, s: Arch, i: DataProcessing, rm: Operand, shifted: bool, cache: Cache)
    requires (IsCompare(i.op) ==> i.s) && Copies(s, cache)
    ensures Copies(Execute(trail2, s, AluStep(i, rm, shifted)), Track(cache, i))
  {
    hide InternalKind, Execute;
    KindShape(i.op, i.s, shifted);
    AccFollows(trail2, s, AluStep(i, rm, shifted));
  }

  lemma ExpansionIsAlu(i: DataProcessing, stale: RegNo)
    requires IsCompare(i.op) ==> i.s
    ensures forall n <- Expand(i, stale) :: IsAlu(n)
  {
    hide InternalKind;
    KindShape(i.op, i.s, false);
    KindShape(i.op, i.s, true);
  }

  /** Executing one expansion keeps the copy up to date. */
  lemma CacheKept(trail2: bool, s: Arch, i: DataProcessing, stale: RegNo, cache: Cache)
    requires (IsCompare(i.op) ==> i.s) && Copies(s, cache)
    ensures Copies(ExecuteAll(trail2, s, Expand(i, stale)), Track(cache, i))
  {
    hide Execute, AluStep, ShiftStep, Track, ExecuteAll;
    var insts := Expand(i, stale);
    if |insts| == 1 {
      var rm := if i.operand.RotatedImmediate? then Immediate(RotateImmediate(i.operand.value, i.operand.rotate), stale)
                else Register(MapSource(i.operand.rm));
      assert insts == [AluStep(i, rm, false)];
      ExecuteOne(trail2, s, insts[0]);
      AccAfterAluStep(trail2, s, i, rm, false, cache);
    } else {
      TwoSteps(trail2, s, insts[0], insts[1]);
      ShiftKeepsCopy(trail2, s, i, stale, cache);
      AccAfterAluStep(trail2, Execute(trail2, s, insts[0]), i, Register(Shf), true, cache);
    }
  }

  lemma ShiftKeepsCopy(trail2: bool, s: Arch, i: DataProcessing, stale: RegNo, cache: Cache)
    requires |Expand(i, stale)| == 2 && Copies(s, cache)
    ensures Copies(Execute(trail2, s, Expand(i, stale)[0]), cache)
  {
    hide Execute;
    AccFollows(trail2, s, Expand(i, stale)[0]);
  }

  /** The substituted expansion of one instruction does what the plain one does. */
  lemma SubstitutedIsSame(trail2: bool, s: Arch, t: Arch, i: DataProcessing, stale: RegNo, cache: Cache)
    requires (IsCompare(i.op) ==> i.s) && Same(s, t) && Copies(s, cache)
    ensures Same(ExecuteAll(trail2, s, DecodedOne(i, stale, cache)), ExecuteAll(trail2, t, Expand(i, stale)))
  {
    hide Execute, ExecuteAll, Expand, Substitute, Range, ConditionMet;
    var insts, subs := Expand(i, stale), DecodedOne(i, stale, cache);
    ExpansionIsAlu(i, stale);
    assert forall k | 0 <= k < |insts| :: insts[k] in insts && IsAlu(insts[k]);
    SubstituteIsSame(trail2, s, t, insts[0], cache);
    if |insts| == 1 {
      assert insts == [insts[0]] && subs == [subs[0]];
      ExecuteOne(trail2, s, subs[0]);
      ExecuteOne(trail2, t, insts[0]);
    } else {
      assert insts == [insts[0], insts[1]] && subs == [subs[0], subs[1]];
      ShiftKeepsCopy(trail2, t, i, stale, cache);
      SubstituteIsSame(trail2, Execute(trail2, s, subs[0]), Execute(trail2, t, insts[0]), insts[1], cache);
      TwoSteps(trail2, s, subs[0], subs[1]);
      TwoSteps(trail2, t, insts[0], insts[1]);
    }
  }

  lemma ExpansionsAlike(i: DataProcessing, stale: RegNo)
    ensures Alike(Expand(i, stale), Expand(i, 0))
  {
    hide InternalKind;
  }

  lemma ExpansionIsSame(trail2: bool, s: Arch, t: Arch, i: DataProcessing, stale: RegNo, cache: Cache)
    requires (IsCompare(i.op) ==> i.s) && Same(s, t) && Copies(s, cache)
    ensures Same(ExecuteAll(trail2, s, DecodedOne(i, stale, cache)), ExecuteAll(trail2, t, Expand(i, 0)))
  {
    hide Execute, ExecuteAll, Expand, Alike, DecodedOne;
    SubstitutedIsSame(trail2, s, t, i, stale, cache);
    ExpansionsAlike(i, stale);
    AllIgnoreStale(trail2, t, Expand(i, stale), Expand(i, 0));
  }

  /** Over any straight-line run of data-processing instructions the accumulator equals
      the register the decoder takes it for, and replacing the reads changes no register,
      no flag, no memory word and no write-back. */
  lemma {:induction false} AccumulatorCachesRegister(trail2: bool, s: Arch, t: Arch, program: seq<DataProcessing>,
                                                     stale: RegNo, cache: Cache)
    requires forall i <- program :: IsCompare(i.op) ==> i.s
    requires Same(s, t) && Copies(s, cache)
    ensures var s' := ExecuteAll(trail2, s, Decoded(program, stale, cache));
            Same(s', ExecuteAll(trail2, t, Expanded(program))) && Copies(s', CacheAfter(program, cache))
    decreases |program|
  {
    hide Execute, Expand, Track, DecodedOne, StaleAfterOne;
    if program != [] {
      var i, rest := program[0], program[1..];
      ExpansionIsSame(trail2, s, t, i, stale, cache);
      CacheKept(trail2, t, i, 0, cache);
      var first, plain, left := DecodedOne(i, stale, cache), Expand(i, 0), StaleAfterOne(i, stale, cache);
      ExecuteAllSplits(trail2, s, first, Decoded(rest, left, Track(cache, i)));
      ExecuteAllSplits(trail2, t, plain, Expanded(rest));
      AccumulatorCachesRegister(trail2, ExecuteAll(trail2, s, first), ExecuteAll(trail2, t, plain), rest, left,
                                Track(cache, i));
    }
  }

  /** Such a store leaves the PC in memory. */
  lemma SubstitutedStoreLosesData(trail2: bool, s: Arch, inst: Instruction, cache: Cache)
    requires LosesData(inst, cache) && inst.cc == Always
    ensures SecondInput(s.regs, Substitute(inst, cache), s.bIn) == inst.pc
    ensures var sub := Substitute(inst, cache);
            var o := Evaluate(trail2, sub, ReadSource(s.regs, sub.rn, sub.pc), inst.pc, s.core);
            Execute(trail2, s, sub).memory == StoreTo(s.memory, inst.kind.size, AccessAddress(sub, o), inst.pc)
  {
    hide StoreTo, LoadFrom, AddOp;
  }
}
