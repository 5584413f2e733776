/** The staged datapath as the simulator holds it: every stage has registered state,
    a next state and combinatorial values, and a clock cycle runs the combinatorial
    functions, the preclock functions and the clock functions of all stages. */
module GipDatapath {
  import opened Words
  import opened FlatMemory
  import opened GipInstruction
  import opened GipAlu
  import opened GipSequential
  import opened GipPipeline

  datatype RfState = RfState(regs: Regs, instValid: bool, inst: Instruction,
                             aluRd: Dest, useShifter: bool, aluResult: Word, shfResult: Word,
                             memRd: Dest, memResult: Word, acceptingAluRd: bool)

  function RfView(s: RfState): (v: RfStage) {
    RfStage(s.regs, s.instValid, s.inst, s.aluRd, if s.useShifter then s.shfResult else s.aluResult,
            s.memRd, s.memResult, s.acceptingAluRd)
  }

  /** Combinatorial values of the register file stage. */
  datatype RfSignals = RfSignals(acceptingDec: bool, acceptingDecIfAluDoes: bool, readPort0: Word, readPort1: Word,
                                 rd: Dest, rfwData: Word, writePc: bool)

  /** Operands and control of the ALU. */
  datatype AluControl = AluControl(op1: Word, op2: Word, setAcc: bool, setZcvn: bool, setP: bool, useShifter: bool)

  /** Outputs of the shifter, the logic unit and the adder. A unit that an operation
      does not use keeps its previous output. */
  datatype AluUnits = AluUnits(shfResult: Word, shfCarry: bool, logicResult: Word, arith: Sum)

  /** What the ALU stage tells the others. */
  datatype AluSignals = AluSignals(aluResult: Word, shfResult: Word, useShifter: bool, nextCore: Core,
                                   aluRd: Dest, memRd: Dest, memOp: MemOp, memDataIn: Word, memAddress: Word,
                                   acceptingRf: bool, flush: bool)

  const NOP: Instruction :=
    Instruction(Logic(Mov, false, false), Always, Acc, Immediate(0, 0), NoDest, false, false, false, 8)

  // ----- what the signals have to be -----

  ghost predicate RfSignalsOk(s: Pipe, c: RfSignals) {
    && (c.acceptingDec <==> !s.rf.valid)
    && (c.acceptingDecIfAluDoes <==> s.rf.valid && !Held(s))
    && c.readPort0 == ReadPort(s.rf, s.rf.inst.rn, s.rf.inst.pc)
    && (s.rf.inst.rm.Register? ==> c.readPort1 == ReadPort(s.rf, s.rf.inst.rm.source, s.rf.inst.pc))
    && c.rd == PortRd(s.rf) && c.rfwData == PortValue(s.rf)
    && (c.writePc <==> PortRd(s.rf) == ToPc)
  }

  ghost predicate SetsFlags(kind: Kind) {
    match kind
    case Arith(_, s, _) => s
    case Logic(_, s, _) => s
    case Shift(_, s) => s
    case _ => false
  }

  ghost predicate ControlOk(alu: AluStage, passed: bool, ctl: AluControl) {
    && ctl.op1 == Operand1(alu.inst, alu.aIn, alu.core)
    && ctl.op2 == Operand2(alu.inst, alu.bIn, alu.core)
    && ctl.setAcc == (alu.inst.a && passed)
    && ctl.setZcvn == (SetsFlags(alu.inst.kind) && passed)
    && (alu.inst.kind.Logic? ==> ctl.setP == (alu.inst.kind.p && passed))
    && ctl.useShifter == alu.inst.kind.Shift?
  }

  predicate UsesShifterToo(op: ArithOp) {
    op.Init? || op.Mla? || op.Mlb?
  }

  ghost predicate UnitsOk(alu: AluStage, ctl: AluControl, u: AluUnits) {
    match alu.inst.kind
    case Logic(op, _, _) => u.logicResult == LogicResult(op, ctl.op1, ctl.op2)
    case Shift(op, _) => (u.shfResult, u.shfCarry) == BarrelShift(alu.core.flags.c, op, ctl.op1, ctl.op2)
    case Arith(op, _, _) =>
      && u.arith == ArithResult(alu.core, op, ctl.op1, ctl.op2)
      && (UsesShifterToo(op) ==> (u.shfResult, u.shfCarry) == ArithShift(alu.core, op, ctl.op1, ctl.op2))
    case _ => u.arith == ArithResult(alu.core, if alu.inst.kind.up then Add else Sub, ctl.op1, ctl.op2)
  }

  ghost predicate ResultOk(trail2: bool, alu: AluStage, useShifter: bool, shfResult: Word, aluResult: Word,
                           nextCore: Core) {
    var o := Evaluate(trail2, alu.inst, alu.aIn, alu.bIn, alu.core);
    && useShifter == alu.inst.kind.Shift?
    && (if useShifter then shfResult else aluResult) == o.value
    && (alu.valid ==> nextCore == o.core)
  }

  ghost predicate AluSignalsOk(trail2: bool, s: Pipe, c: AluSignals) {
    && ResultOk(trail2, s.alu, c.useShifter, c.shfResult, c.aluResult, c.nextCore)
    && c.aluRd == AluRd(trail2, s) && c.memRd == MemRd(trail2, s) && c.memOp == MemOpOf(trail2, s)
    && c.memDataIn == s.alu.bIn && c.memAddress == MemAddress(trail2, s)
    && (c.acceptingRf <==> AluAccepts(trail2, s))
    && (c.flush <==> Flush(trail2, s))
  }

  // ----- the ALU stage, block by block -----

  method AluOperands(alu: AluStage, passed: bool) returns (ctl: AluControl)
    ensures ControlOk(alu, passed, ctl)
  {
    var inst := alu.inst;
    var op1, op2 := alu.aIn, alu.bIn;
    if inst.rn.Acc? {
      op1 := alu.core.acc;
    }
    if inst.rm.Register? && inst.rm.source.Acc? {
      op2 := alu.core.acc;
    }
    if inst.rm.Register? && inst.rm.source.Shf? {
      op2 := alu.core.shf;
    }
    var setZcvn, setP, setAcc, useShifter := false, false, inst.a, false;
    match inst.kind {
      case Arith(_, s, p) => setZcvn, setP := s, p;
      case Logic(_, s, p) => setZcvn, setP := s, p;
      case Shift(_, s) => setZcvn, useShifter := s, true;
      case Load(_, _, _) =>
      case Store(size, _, _, offsetIsShf) => op2 := if offsetIsShf then alu.core.shf else AccessSize(size);
    }
    if !passed {
      setAcc, setZcvn, setP := false, false, false;
    }
    ctl := AluControl(op1, op2, setAcc, setZcvn, setP, useShifter);
  }

  method AluFunctions(alu: AluStage, ctl: AluControl, previous: AluUnits) returns (u: AluUnits)
    ensures UnitsOk(alu, ctl, u)
  {
    hide AddOp, BarrelShift, LogicResult, MultiplyStep;
    u := previous;
    var c := alu.core.flags.c;
    var op1, op2 := ctl.op1, ctl.op2;
    match alu.inst.kind {
      case Shift(op, _) =>
        var r := BarrelShift(c, op, op1, op2);
        u := u.(shfResult := r.0, shfCarry := r.1);
      case Logic(op, _, _) =>
        u := u.(logicResult := LogicResult(op, op1, op2));
      case Arith(op, _, _) =>
        match op {
          case Add => u := u.(arith := AddOp(op1, op2, false));
          case Adc => u := u.(arith := AddOp(op1, op2, c));
          case Sub => u := u.(arith := AddOp(op1, Not(op2), true));
          case Sbc => u := u.(arith := AddOp(op1, Not(op2), c));
          case Rsb => u := u.(arith := AddOp(Not(op1), op2, true));
          case Rsc => u := u.(arith := AddOp(Not(op1), op2, c));
          case Init =>
            var r := BarrelShift(false, Lsr, op1, 0);
            u := u.(shfResult := r.0, shfCarry := r.1, arith := AddOp(0, op2, false));
          case _ =>
            var sum, carry := AluMultiplyStep(alu.core, op1, op2);
            u := u.(shfResult := BarrelShift(c, Lsr, alu.core.shf, 2).0, shfCarry := carry, arith := sum);
        }
      case _ =>
        u := u.(arith := if alu.inst.kind.up then AddOp(op1, op2, false) else AddOp(op1, Not(op2), true));
    }
  }

  method AluMultiplyStep(core: Core, op1: Word, op2: Word) returns (sum: Sum, carry: bool)
    ensures (sum, carry) == MultiplyStep(core, op1, op2)
  {
    hide AddOp;
    var digit := core.shf % 4 + BitValue(core.p);
    if digit == 0 {
      sum, carry := AddOp(op1, 0, false), false;
    } else if digit == 1 {
      sum, carry := AddOp(op1, op2, false), false;
    } else if digit == 2 {
      sum, carry := AddOp(op1, Wrap(op2 * 2), false), false;
    } else if digit == 3 {
      sum, carry := AddOp(op1, Not(op2), true), true;
    } else {
      sum, carry := AddOp(op1, 0, false), true;
    }
  }

  /** What the chosen unit leaves in the result, the accumulator, the shifter, the flags and
      the shifter carry. */
  ghost predicate RegistersOk(alu: AluStage, ctl: AluControl, u: AluUnits, aluResult: Word, core: Core) {
    var f := alu.core.flags;
    match alu.inst.kind
    case Logic(_, _, _) =>
      var z := if ctl.setZcvn then u.logicResult == 0 else f.z;
      var n := if ctl.setZcvn then u.logicResult >= 0x8000_0000 else f.n;
      && aluResult == u.logicResult
      && core == alu.core.(acc := if ctl.setAcc then u.logicResult else alu.core.acc,
                           flags := Flags(z, if ctl.setP then alu.core.p else f.c, f.v, n))
    case Shift(_, _) =>
      core == alu.core.(shf := u.shfResult, p := u.shfCarry,
                        flags := if ctl.setZcvn
                                 then Flags(u.shfResult == 0, u.shfCarry, f.v, u.shfResult >= 0x8000_0000) else f)
    case Arith(op, _, _) =>
      && aluResult == u.arith.value
      && core == alu.core.(acc := if ctl.setAcc then u.arith.value else alu.core.acc,
                           flags := if ctl.setZcvn then SumFlags(u.arith) else f,
                           shf := if UsesShifterToo(op) then u.shfResult else 0,
                           p := if UsesShifterToo(op) then u.shfCarry else alu.core.p)
    case _ =>
      && aluResult == u.arith.value
      && core == alu.core.(acc := if ctl.setAcc then u.arith.value else alu.core.acc, shf := 0)
  }

  method AluRegisters(alu: AluStage, ctl: AluControl, u: AluUnits, previous: Word) returns (aluResult: Word, core: Core)
    ensures RegistersOk(alu, ctl, u, aluResult, core)
  {
    hide SumFlags;
    var flags := alu.core.flags;
    var acc, shf, p := alu.core.acc, alu.core.shf, alu.core.p;
    aluResult := previous;
    match alu.inst.kind {
      case Logic(_, _, _) =>
        aluResult := u.logicResult;
        if ctl.setP {
          flags := flags.(c := alu.core.p);
        }
        if ctl.setZcvn {
          flags := flags.(z := u.logicResult == 0, n := u.logicResult >= 0x8000_0000);
        }
        if ctl.setAcc {
          acc := u.logicResult;
        }
      case Shift(_, _) =>
        if ctl.setZcvn {
          flags := Flags(u.shfResult == 0, u.shfCarry, flags.v, u.shfResult >= 0x8000_0000);
        }
        shf, p := u.shfResult, u.shfCarry;
      case Arith(op, _, _) =>
        aluResult := u.arith.value;
        if ctl.setZcvn {
          flags := SumFlags(u.arith);
        }
        if ctl.setAcc {
          acc := u.arith.value;
        }
        if UsesShifterToo(op) {
          shf, p := u.shfResult, u.shfCarry;
        } else {
          shf := 0;
        }
      case _ =>
        aluResult := u.arith.value;
        if ctl.setAcc {
          acc := u.arith.value;
        }
        shf := 0;
    }
    core := Core(acc, shf, flags, p, alu.core.cp, alu.core.oldCp);
  }

  lemma RegistersAreOutcome(trail2: bool, alu: AluStage, passed: bool, ctl: AluControl, u: AluUnits, aluResult: Word,
                            core: Core, cp: bool, oldCp: bool)
    requires passed == (alu.valid && ConditionMet(trail2, alu.core, alu.inst.cc))
    requires ControlOk(alu, passed, ctl) && UnitsOk(alu, ctl, u) && RegistersOk(alu, ctl, u, aluResult, core)
    requires alu.valid ==> ConditionFromAdder(alu.inst)
    requires (cp, oldCp) == NextCp(alu.inst.rd, passed, SumFlags(u.arith), alu.core)
    ensures ResultOk(trail2, alu, ctl.useShifter, u.shfResult, aluResult, core.(cp := cp, oldCp := oldCp))
  {
    hide AddOp, BarrelShift, LogicResult, MultiplyStep, ArithResult, ConditionResult, Operand1, Operand2, ConditionMet,
      SumFlags;
  }

  method AluNextState(trail2: bool, alu: AluStage, passed: bool, ctl: AluControl, u: AluUnits, previous: Word)
    returns (aluResult: Word, nextCore: Core)
    requires passed == (alu.valid && ConditionMet(trail2, alu.core, alu.inst.cc))
    requires ControlOk(alu, passed, ctl) && UnitsOk(alu, ctl, u)
    requires alu.valid ==> ConditionFromAdder(alu.inst)
    ensures ResultOk(trail2, alu, ctl.useShifter, u.shfResult, aluResult, nextCore)
  {
    hide *;
    var core;
    aluResult, core := AluRegisters(alu, ctl, u, previous);
    var cp, oldCp := AluNextConditions(alu, passed, SumFlags(u.arith));
    RegistersAreOutcome(trail2, alu, passed, ctl, u, aluResult, core, cp, oldCp);
    nextCore := core.(cp := cp, oldCp := oldCp);
  }

  method AluNextConditions(alu: AluStage, passed: bool, sumFlags: Flags) returns (cp: bool, oldCp: bool)
    ensures (cp, oldCp) == NextCp(alu.inst.rd, passed, sumFlags, alu.core)
  {
    hide ConditionResult;
    cp, oldCp := passed, alu.core.cp;
    if alu.inst.rd.ToCondition? {
      if passed {
        cp := ConditionResult(alu.inst.rd.c, sumFlags);
      } else {
        cp := false;
      }
      oldCp := true;
    }
  }

  method AluOutputs(trail2: bool, alu: AluStage, acceptingAluRd: bool, passed: bool, ctl: AluControl, u: AluUnits,
                    aluResult: Word, nextCore: Core, ghost s: Pipe)
    returns (c: AluSignals)
    requires s.alu == alu && s.rf.acceptingAluRd == acceptingAluRd
    requires passed == Passed(trail2, s)
    requires ControlOk(s.alu, passed, ctl)
    requires ResultOk(trail2, s.alu, ctl.useShifter, u.shfResult, aluResult, nextCore)
    ensures AluSignalsOk(trail2, s, c)
    ensures c.shfResult == u.shfResult
  {
    hide AddOp, BarrelShift, LogicResult, ArithResult, ArithShift, Operand2, ConditionMet, NextCp;
    var kind := alu.inst.kind;
    var memAddress := if (kind.Load? || kind.Store?) && kind.preindex then aluResult else ctl.op1;
    var aluRd, memRd, memOp, acceptingRf := NoDest, NoDest, NoAccess, true;
    if passed {
      match kind {
        case Load(size, _, _) =>
          memRd, memOp := alu.inst.rd, LoadAccess(size);
        case Store(size, _, _, _) =>
          aluRd, memOp, acceptingRf := alu.inst.rd, StoreAccess(size), acceptingAluRd;
        case _ =>
          aluRd, acceptingRf := alu.inst.rd, acceptingAluRd;
      }
    }
    var flush := alu.inst.f;
    if !passed {
      flush := false;
    }
    if !acceptingRf {
      flush := false;
    }
    c := AluSignals(aluResult, u.shfResult, ctl.useShifter, nextCore, aluRd, memRd, memOp, alu.bIn, memAddress,
                    acceptingRf, flush);
  }

  // ----- the register file stage -----

  /** The second operand as the read port and the hazard check see it: an immediate
      shares its storage with the register description, and zero means register. */
  function RmAsRegister(rm: Operand): (src: Source) {
    match rm
    case Immediate(value, stale) => if value == 0 then Reg(stale) else Pc
    case Register(source) => source
  }

  lemma HeldByEitherOperand(s: Pipe)
    ensures Held(s) <==>
              var rn, rm := s.rf.inst.rn, RmAsRegister(s.rf.inst.rm);
              s.rf.valid && ((rn.Reg? && Pending(s, rn.r)) || (rm.Reg? && Pending(s, rm.r)))
  {
    var rn, rm := s.rf.inst.rn, RmAsRegister(s.rf.inst.rm);
    if s.rf.valid && rn.Reg? && Pending(s, rn.r) {
      assert WaitsFor(s.rf.inst, rn.r);
    }
    if s.rf.valid && rm.Reg? && Pending(s, rm.r) {
      assert WaitsFor(s.rf.inst, rm.r);
    }
  }

  /** Register file and forwarding path. */
  function ReadIntRegister(rf: RfState, src: Source): (w: Word) {
    if !src.Reg? then rf.inst.pc
    else if rf.memRd == ToReg(src.r) then rf.memResult
    else if rf.aluRd == ToReg(src.r) then (if rf.useShifter then rf.shfResult else rf.aluResult)
    else rf.regs[src.r]
  }

  method RfComb(rf: RfState, alu: AluStage, mem: MemStage, ghost s: Pipe) returns (c: RfSignals)
    requires s.rf == RfView(rf) && s.alu == alu && s.mem == mem
    ensures RfSignalsOk(s, c)
  {
    var acceptingDec, acceptingDecIfAluDoes := false, false;
    if rf.instValid {
      acceptingDecIfAluDoes := true;
      var rn := rf.inst.rn;
      if rn.Reg? {
        if alu.valid && alu.inst.rd == ToReg(rn.r) {
          acceptingDecIfAluDoes := false;
        }
        if mem.rd == ToReg(rn.r) {
          acceptingDecIfAluDoes := false;
        }
        if rf.memRd != NoDest && rf.aluRd == ToReg(rn.r) {
          acceptingDecIfAluDoes := false;
        }
      }
      var rm := RmAsRegister(rf.inst.rm);
      if rm.Reg? {
        if alu.valid && alu.inst.rd == ToReg(rm.r) {
          acceptingDecIfAluDoes := false;
        }
        if mem.rd == ToReg(rm.r) {
          acceptingDecIfAluDoes := false;
        }
        if rf.memRd != NoDest && rf.aluRd == ToReg(rm.r) {
          acceptingDecIfAluDoes := false;
        }
      }
    } else {
      acceptingDec := true;
    }
    HeldByEitherOperand(s);
    var readPort0 := ReadIntRegister(rf, rf.inst.rn);
    var readPort1 := ReadIntRegister(rf, RmAsRegister(rf.inst.rm));
    var rfwData := if rf.useShifter then rf.shfResult else rf.aluResult;
    var writePc := false;
    var rd := rf.aluRd;
    if rf.memRd != NoDest {
      rd := rf.memRd;
      rfwData := rf.memResult;
    }
    if rd == ToPc {
      writePc := true;
    }
    hide Held, Pending;
    c := RfSignals(acceptingDec, acceptingDecIfAluDoes, readPort0, readPort1, rd, rfwData, writePc);
  }

  /** The read stage takes what the decoder offers, keeps what it has, or is flushed. */
  method RfNextInst(rf: RfState, rfc: RfSignals, aluc: AluSignals, offer: Offer, trail2: bool, ghost s: Pipe)
    returns (inst: Instruction, instValid: bool)
    requires s.rf == RfView(rf) && RfSignalsOk(s, rfc) && AluSignalsOk(trail2, s, aluc)
    ensures inst == NextRf(trail2, s, offer).inst && instValid == NextRf(trail2, s, offer).valid
  {
    hide Evaluate, AluRd, MemRd, MemOpOf, MemAddress, AluAccepts, Flush, Held, SetReg, PortRd, PortValue, ReadPort;
    inst, instValid := rf.inst, rf.instValid;
    if rfc.acceptingDec || (rfc.acceptingDecIfAluDoes && aluc.acceptingRf) {
      inst, instValid := offer.inst, offer.valid;
      if aluc.flush {
        instValid := false;
      }
    } else {
      if aluc.flush && !rf.inst.d {
        instValid := false;
      }
    }
  }

  method RfPreclock(rf: RfState, rfc: RfSignals, aluc: AluSignals, mem: MemStage, memResult: Word, offer: Offer,
                    trail2: bool, ghost s: Pipe) returns (next: RfState)
    requires s.rf == RfView(rf) && s.mem == mem && s.memResult == memResult
    requires RfSignalsOk(s, rfc) && AluSignalsOk(trail2, s, aluc)
    ensures RfView(next) == NextRf(trail2, s, offer)
  {
    hide Evaluate, AluRd, MemRd, MemOpOf, MemAddress, AluAccepts, Flush, Held, ReadPort;
    next := rf;
    var inst, instValid := RfNextInst(rf, rfc, aluc, offer, trail2, s);
    next := next.(inst := inst, instValid := instValid);
    if rf.acceptingAluRd {
      next := next.(aluRd := aluc.aluRd, aluResult := aluc.aluResult, useShifter := aluc.useShifter,
                    shfResult := aluc.shfResult);
    }
    next := next.(memRd := mem.rd, memResult := memResult, acceptingAluRd := false);
    if next.aluRd == NoDest {
      next := next.(acceptingAluRd := true);
    }
    if next.memRd == NoDest {
      next := next.(acceptingAluRd := true);
    }
    if rfc.rd.ToReg? {
      next := next.(regs := next.regs[rfc.rd.r := rfc.rfwData]);
    }
  }

  method AluPreclock(rf: RfState, rfc: RfSignals, alu: AluStage, aluc: AluSignals, trail2: bool, ghost s: Pipe)
    returns (next: AluStage)
    requires s.rf == RfView(rf) && s.alu == alu
    requires RfSignalsOk(s, rfc) && AluSignalsOk(trail2, s, aluc)
    ensures next == NextAlu(trail2, s)
  {
    hide Evaluate, AluRd, MemRd, MemOpOf, MemAddress, AluAccepts, Flush, Held;
    next := alu;
    if aluc.acceptingRf {
      next := next.(inst := rf.inst, valid := rf.instValid);
      if !rfc.acceptingDecIfAluDoes {
        next := next.(valid := false);
      }
    }
    if aluc.flush {
      next := next.(valid := false);
    }
    if rf.instValid && !aluc.flush && aluc.acceptingRf {
      next := next.(aIn := rfc.readPort0);
      if IsMlb(rf.inst) {
        next := next.(bIn := Wrap(alu.bIn * 4));
      } else if rf.inst.rm.Immediate? {
        next := next.(bIn := rf.inst.rm.value);
      } else {
        next := next.(bIn := rfc.readPort1);
      }
    }
    if aluc.acceptingRf && alu.valid {
      next := next.(core := aluc.nextCore);
    }
  }

  lemma StepKeepsAdderConditions(trail2: bool, s: Pipe, offer: Offer)
    requires offer.valid ==> ConditionFromAdder(offer.inst)
    requires s.rf.valid ==> ConditionFromAdder(s.rf.inst)
    requires s.alu.valid ==> ConditionFromAdder(s.alu.inst)
    ensures var t := Step(trail2, s, offer);
            && (t.rf.valid ==> ConditionFromAdder(t.rf.inst))
            && (t.alu.valid ==> ConditionFromAdder(t.alu.inst))
  {
    hide Evaluate, LoadFrom, StoreTo, ConditionFromAdder;
  }

  class Datapath {
    const trail2: bool

    var rf: RfState
    var rfNext: RfState
    var rfc: RfSignals

    var alu: AluStage
    var aluNext: AluStage
    var units: AluUnits
    var aluResult: Word
    var aluc: AluSignals

    var mem: MemStage
    var memNext: MemStage
    var memResult: Word
    var memory: Memory

    // what went through the write port, and the machine the stages stand for
    ghost var written: seq<Write>
    ghost var machine: Arch

    ghost function View(): (p: Pipe)
      reads this
    {
      Pipe(RfView(rf), alu, mem, memResult, memory, written)
    }

    /** What every cycle keeps. */
    ghost predicate Valid()
      reads this
    {
      && Inv(View())
      && (rf.instValid ==> ConditionFromAdder(rf.inst))
      && (alu.valid ==> ConditionFromAdder(alu.inst))
    }

    /** Registers zero, stages empty; unset and unsetCp stand for what the simulator
        leaves uninitialised. */
    constructor (trail2: bool, memory: Memory, unset: Word, unsetCp: bool)
      ensures Valid() && Refines(trail2, View(), machine) && this.trail2 == trail2
      ensures machine == Arch(seq(32, i => 0), memory,
                              Core(0, 0, Flags(false, false, false, false), false, false, unsetCp), 0, [])
    {
      this.trail2 := trail2;
      var zeros: Regs := seq(32, i => 0);
      var core := Core(0, 0, Flags(false, false, false, false), false, false, unsetCp);
      rf := RfState(zeros, false, NOP, NoDest, false, unset, unset, NoDest, unset, true);
      rfNext := rf;
      rfc := RfSignals(false, false, unset, unset, NoDest, unset, false);
      alu := AluStage(false, NOP, 0, 0, core);
      aluNext := alu;
      units := AluUnits(unset, false, unset, Sum(unset, false, false));
      aluResult := unset;
      aluc := AluSignals(unset, unset, false, core, NoDest, NoDest, NoAccess, unset, unset, false, false);
      mem := MemStage(NoDest, NoAccess, 0, 0);
      memNext := mem;
      memResult := unset;
      this.memory := memory;
      written := [];
      machine := Arch(zeros, memory, core, 0, []);
    }

    /** All combinatorial functions: they change no registered state. */
    method Comb()
      requires Valid()
      modifies `rfc, `units, `aluResult, `aluc
      ensures RfSignalsOk(View(), rfc) && AluSignalsOk(trail2, View(), aluc)
    {
      hide RfSignalsOk, AluSignalsOk, ControlOk, UnitsOk, ResultOk, Inv, ConditionMet, ConditionFromAdder;
      ghost var s := View();
      rfc := RfComb(rf, alu, mem, s);
      var passed := false;
      if alu.valid {
        passed := ConditionMet(trail2, alu.core, alu.inst.cc);
      }
      var ctl := AluOperands(alu, passed);
      units := AluFunctions(alu, ctl, units);
      var nextCore;
      aluResult, nextCore := AluNextState(trail2, alu, passed, ctl, units, aluResult);
      aluc := AluOutputs(trail2, alu, rf.acceptingAluRd, passed, ctl, units, aluResult, nextCore, s);
    }

    method Preclock(offer: Offer)
      requires RfSignalsOk(View(), rfc) && AluSignalsOk(trail2, View(), aluc)
      modifies `rfNext, `aluNext, `memNext
      ensures RfView(rfNext) == NextRf(trail2, View(), offer)
      ensures aluNext == NextAlu(trail2, View())
      ensures memNext == NextMem(trail2, View())
    {
      ghost var s := View();
      rfNext := RfPreclock(rf, rfc, aluc, mem, memResult, offer, trail2, s);
      aluNext := AluPreclock(rf, rfc, alu, aluc, trail2, s);
      memNext := MemStage(aluc.memRd, aluc.memOp, aluc.memDataIn, aluc.memAddress);
    }

    /** The store of the finishing cycle reaches the memory before the load that the
        new cycle starts with. */
    method Clock()
      modifies `rf, `alu, `mem, `memory, `memResult
      ensures rf == rfNext && alu == aluNext && mem == memNext
      ensures memory == StoreOf(old(mem), old(memory))
      ensures memResult == LoadOf(memNext, memory, old(memResult))
    {
      rf := rfNext;
      alu := aluNext;
      if mem.op.StoreAccess? {
        memory := StoreTo(memory, mem.op.size, mem.address, mem.dataIn);
      }
      mem := memNext;
      if mem.op.LoadAccess? {
        memResult := LoadFrom(memory, mem.op.size, mem.address);
      }
    }

    /** One clock of the stages, whatever the decoder offers. */
    method Tick(offer: Offer)
      requires Valid()
      modifies `rf, `rfNext, `rfc, `alu, `aluNext, `units, `aluResult, `aluc, `mem, `memNext, `memResult, `memory,
        `written
      ensures View() == Step(trail2, old(View()), offer)
    {
      ghost var s := View();
      hide AluSignalsOk, RfSignalsOk, Inv, NextRf, NextAlu, NextMem, StoreOf, LoadOf;
      Comb();
      Preclock(offer);
      written := if PortRd(s.rf) == NoDest then written else written + [Write(PortRd(s.rf), PortValue(s.rf))];
      Clock();
    }

    /** One clock: the stages make the step of the pipeline function, and the machine
        beside them executes the instruction that enters the ALU, or quadruples the operand
        of a multiplication step that is held. They keep agreeing; execution alone would do
        unless such a step had an operand other than zero. */
    method Cycle(offer: Offer)
      requires Valid()
      requires offer.valid ==> ConditionFromAdder(offer.inst)
      modifies this
      ensures Valid()
      ensures View() == Step(trail2, old(View()), offer)
      ensures machine == PerformAll(trail2, old(machine), Happens(trail2, old(View())))
      ensures old(Refines(trail2, View(), machine)) ==>
                && Refines(trail2, View(), machine)
                && (Refines(trail2, View(),
                            if Enters(trail2, old(View())) then Execute(trail2, old(machine), old(rf.inst))
                                            else old(machine))
                    <==> !(old(MlbHeld(trail2, View())) && old(alu.bIn) != 0))
    {
      hide Refines, Execute, Inv, Step, ConditionFromAdder, Enters, MlbHeld, PerformAll, Happens;
      ghost var s := View();
      ghost var m := machine;
      Tick(offer);
      StepKeepsInv(trail2, s, offer);
      StepKeepsAdderConditions(trail2, s, offer);
      if Refines(trail2, s, m) {
        StepRefines(trail2, s, offer, m);
        StepPerforms(trail2, s, offer, m);
      }
      machine := PerformAll(trail2, machine, Happens(trail2, s));
    }

    /** A whole run. */
    method Cycles(offers: seq<Offer>)
      requires Valid() && Refines(trail2, View(), machine)
      requires forall o <- offers :: o.valid ==> ConditionFromAdder(o.inst)
      modifies this
      ensures Valid() && Refines(trail2, View(), machine)
      ensures View() == Run(trail2, old(View()), offers)
      ensures machine == PerformAll(trail2, old(machine), Events(trail2, old(View()), offers))
    {
      hide Step, Refines, Perform, Happens;
      ghost var s0 := View();
      ghost var m0 := machine;
      for i := 0 to |offers|
        invariant Valid() && Refines(trail2, View(), machine)
        invariant Run(trail2, View(), offers[i..]) == Run(trail2, s0, offers)
        invariant PerformAll(trail2, machine, Events(trail2, View(), offers[i..]))
                  == PerformAll(trail2, m0, Events(trail2, s0, offers))
      {
        ghost var s := View();
        assert offers[i..][0] == offers[i] && offers[i..][1..] == offers[i + 1..];
        PerformFirst(trail2, machine, Happens(trail2, s), Events(trail2, Step(trail2, s, offers[i]), offers[i + 1..]));
        Cycle(offers[i]);
      }
    }
  }
}
