/** Internal instructions whose loads and stores go to the hashed-page RAM, and the stack
    on top of it. */
module ArmStackOnRam {
  import opened Words
  import opened FlatMemory
  import opened SparseRam
  import opened GipInstruction
  import opened GipAlu
  import opened GipSequential
  import opened ArmBlockTransfer
  import opened ArmStack

  /** What the processor holds itself; the RAM is an object beside it. */
  datatype Cpu = Cpu(regs: Regs, core: Core, bIn: Word)

  ghost function Whole(c: Cpu, m: Memory, log: seq<Write>): (s: Arch) {
    Arch(c.regs, m, c.core, c.bIn, log)
  }

  /** The access of an instruction whose condition passed. */
  method Access(ram: Ram, inst: Instruction, o: Outcome, bIn: Word) returns (data: Word)
    requires ram.Valid()
    modifies ram.Repr
    ensures ram.Valid() && old(ram.Repr) <= ram.Repr && fresh(ram.Repr - old(ram.Repr))
    ensures data == if inst.kind.Load? then LoadFrom(old(ram.flat), inst.kind.size, AccessAddress(inst, o)) else o.value
    ensures ram.flat == if inst.kind.Store? then StoreTo(old(ram.flat), inst.kind.size, AccessAddress(inst, o), bIn)
                        else old(ram.flat)
  {
    hide Ram.Valid, Memory.Read, Memory.Write, Wrap, LaneMask, Pow2;
    data := o.value;
    if inst.kind.Load? {
      var address := AccessAddress(inst, o);
      var word := ram.Read(address);
      ShiftRightBelow(word, 8 * LaneOffset(inst.kind.size, address));
      data := word / Pow2(8 * LaneOffset(inst.kind.size, address));
    } else if inst.kind.Store? {
      var address := AccessAddress(inst, o);
      var n := LaneOffset(inst.kind.size, address);
      ram.Write(address - n, Wrap(bIn * Pow2(8 * n)), LaneMask(inst.kind.size) * Pow2(n));
    }
  }

  method ExecuteOnRam(ram: Ram, inst: Instruction, c: Cpu, ghost log: seq<Write>)
    returns (c': Cpu, ghost log': seq<Write>)
    requires ram.Valid()
    modifies ram.Repr
    ensures ram.Valid() && old(ram.Repr) <= ram.Repr && fresh(ram.Repr - old(ram.Repr))
    ensures Whole(c', ram.flat, log') == Execute(false, Whole(c, old(ram.flat), log), inst)
  {
    hide Ram.Valid, Evaluate, LoadFrom, StoreTo, ReadSource, SecondInput, SetReg, AccessAddress;
    var aIn, bIn := ReadSource(c.regs, inst.rn, inst.pc), SecondInput(c.regs, inst, c.bIn);
    var o := Evaluate(false, inst, aIn, bIn, c.core);
    c', log' := Cpu(c.regs, o.core, bIn), log;
    if o.passed {
      var data := Access(ram, inst, o, bIn);
      if inst.rd != NoDest {
        c', log' := c'.(regs := SetReg(c.regs, inst.rd, data)), log + [Write(inst.rd, data)];
      }
    }
  }

  /** A program over the hashed-page RAM does what it does over the flat memory. */
  method RunOnRam(ram: Ram, insts: seq<Instruction>, c: Cpu, ghost log: seq<Write>)
    returns (c': Cpu, ghost log': seq<Write>)
    requires ram.Valid()
    modifies ram.Repr
    ensures ram.Valid() && old(ram.Repr) <= ram.Repr && fresh(ram.Repr - old(ram.Repr))
    ensures Whole(c', ram.flat, log') == ExecuteAll(false, Whole(c, old(ram.flat), log), insts)
  {
    hide Ram.Valid, Execute;
    c', log' := c, log;
    for i := 0 to |insts|
      invariant ram.Valid() && old(ram.Repr) <= ram.Repr && fresh(ram.Repr - old(ram.Repr))
      invariant ExecuteAll(false, Whole(c', ram.flat, log'), insts[i..])
                == ExecuteAll(false, Whole(c, old(ram.flat), log), insts)
    {
      assert insts[i..][1..] == insts[i + 1..];
      c', log' := ExecuteOnRam(ram, insts[i], c', log');
    }
  }

  /** Push, any code that leaves the stack pointer and the stacked words alone, then pop:
      every pushed register and the stack pointer are back, and the pages read as they did
      before the pop. */
  method PushWorkPop(ram: Ram, list: seq<ArmReg>, work: seq<Instruction>, c: Cpu, stale: RegNo, pushPc: Word,
                     popPc: Word, ghost log: seq<Write>)
    returns (before: Cpu, c': Cpu)
    requires ram.Valid() && Stackable(list) && HoldsBlocks(ram.flat)
    requires var pushed := ExecuteAll(false, Whole(c, ram.flat, log), StoreMultiple(Always, PUSH, list, stale, pushPc));
             SameStack(pushed, ExecuteAll(false, pushed, work), |list|)
    modifies ram.Repr
    ensures ram.Valid()
    ensures c'.regs[13] == c.regs[13] && forall r <- list :: c'.regs[r] == c.regs[r]
    ensures forall r: RegNo | r != 13 && r != 15 && r !in list :: c'.regs[r] == before.regs[r]
    ensures var pushed := ExecuteAll(false, Whole(c, old(ram.flat), log),
                                     StoreMultiple(Always, PUSH, list, stale, pushPc));
            var worked := ExecuteAll(false, pushed, work);
            before.regs == worked.regs && ram.flat == worked.memory && c'.core.flags == worked.core.flags
  {
    hide Ram.Valid, ExecuteAll, StoreMultiple, LoadMultiple, SameStack, HoldsBlocks;
    ghost var m, log1, log2, log3 := ram.flat, log, log, log;
    var pushed: Cpu;
    pushed, log1 := RunOnRam(ram, StoreMultiple(Always, PUSH, list, stale, pushPc), c, log);
    before, log2 := RunOnRam(ram, work, pushed, log1);
    ghost var between := Whole(before, ram.flat, log2);
    c', log3 := RunOnRam(ram, LoadMultiple(Always, POP, list, stale, popPc), before, log2);
    PushPopRestores(Whole(c, m, log), list, between, stale, pushPc, popPc);
  }
}
