/** Which instructions of an expansion flush: what follows an ARM instruction that writes the
    PC has to be cancelled, and nothing of the instruction itself may be. */
module ArmFlushes {
  import opened Words
  import opened GipInstruction
  import opened ArmOpcode
  import opened ArmDataProcessing
  import opened ArmLoadStore
  import opened ArmBlockTransfer

  /** The last instruction flushes if the PC is written, the others never do, and none is a
      delay slot. */
  predicate FlushesLast(insts: seq<Instruction>, writesPc: bool) {
    forall k | 0 <= k < |insts| :: !insts[k].d && (insts[k].f <==> writesPc && k == |insts| - 1)
  }

  lemma DataProcessingFlushesLast(i: DataProcessing, stale: RegNo)
    ensures FlushesLast(Expand(i, stale), i.rd == 15)
  {
  }

  lemma {:induction false} LoadChainFlushesLast(m: Mode, list: seq<ArmReg>, stale: RegNo, pc: Word)
    requires Ascending(list)
    ensures |LoadChain(m, list, stale, pc)| == |list|
    ensures FlushesLast(LoadChain(m, list, stale, pc), 15 in list && !(m.up && m.wb))
    decreases |list|
  {
    if list != [] {
      var rest := list[1..];
      assert Ascending(rest);
      LoadChainFlushesLast(m, rest, stale, pc);
      assert list == [list[0]] + rest;
    }
  }

  lemma {:induction false} StoreChainFlushesNothing(m: Mode, list: seq<ArmReg>, pc: Word)
    ensures FlushesLast(StoreChain(m, list, pc), false)
    decreases |list|
  {
    if list != [] {
      StoreChainFlushesNothing(m, list[1..], pc);
    }
  }

  /** A block load flushes with its last instruction exactly if the PC is in the list, the move
      to the base included. */
  lemma LoadMultipleFlushesLast(cc: Condition, m: Mode, list: seq<ArmReg>, stale: RegNo, pc: Word)
    requires 0 < |list| <= 16 && Ascending(list)
    ensures FlushesLast(LoadMultiple(cc, m, list, stale, pc), 15 in list)
  {
    var rest := list[1..];
    assert Ascending(rest) && list == [list[0]] + rest;
    if !m.up {
      LoadChainFlushesLast(m, list, stale, pc);
      OneBefore(BaseInst(cc, m, |list|, stale, pc), LoadChain(m, list, stale, pc), 15 in list);
    } else {
      LoadChainFlushesLast(m, rest, stale, pc);
      LastIsGreatest(list);
      hide LoadChain, Ascending, FlushesLast;
      var first := LoadInst(cc, MapSource(m.rn), m, list[0], stale, pc);
      var chain := LoadChain(m, rest, stale, pc);
      OneBefore(first, chain, 15 in list && !m.wb);
      if m.wb {
        OneBehind([first] + chain, FinalInst(m, list[|list| - 1] == 15, pc));
      } else {
        assert [first] + chain + [] == [first] + chain;
      }
    }
  }

  lemma OneBefore(first: Instruction, rest: seq<Instruction>, writesPc: bool)
    requires !first.d && FlushesLast(rest, writesPc) && (first.f <==> writesPc && rest == [])
    ensures FlushesLast([first] + rest, writesPc)
  {
  }

  lemma OneBehind(insts: seq<Instruction>, last: Instruction)
    requires !last.d && FlushesLast(insts, false)
    ensures FlushesLast(insts + [last], last.f)
  {
  }

  lemma LastIsGreatest(list: seq<ArmReg>)
    requires list != [] && Ascending(list)
    ensures 15 in list <==> list[|list| - 1] == 15
  {
  }

  lemma StoreMultipleFlushesNothing(cc: Condition, m: Mode, list: seq<ArmReg>, stale: RegNo, pc: Word)
    requires 0 < |list| <= 16
    ensures FlushesLast(StoreMultiple(cc, m, list, stale, pc), false)
  {
    StoreChainFlushesNothing(m, list, pc);
    StoreChainFlushesNothing(m, list[1..], pc);
  }

  /** A word transfer flushes as it should, if and only if it is no load of the PC with a
      pre-indexed and written-back address and no shift: that one flushes nothing. */
  lemma TransferFlushesLast(t: Transfer, stale: RegNo)
    ensures FlushesLast(ExpandTransfer(t, stale), t.load && t.rd == 15)
        <==> !(t.load && t.rd == 15 && t.pre && t.wb && !IsShifted(t))
  {
    var insts := ExpandTransfer(t, stale);
    if t.load && t.rd == 15 && t.pre && t.wb && !IsShifted(t) {
      assert !insts[1].f;
    }
  }
}
