/** Pushing registers with STMDB sp! and popping them with LDMIA sp!. */
module ArmStack {
  import opened Words
  import opened FlatMemory
  import opened GipInstruction
  import opened GipAlu
  import opened GipSequential
  import opened ArmBlockTransfer

  const SP: ArmReg := 13

  const PUSH: Mode := Mode(true, false, true, SP)

  const POP: Mode := Mode(false, true, true, SP)

  /** Distinct registers other than the stack pointer and the PC. */
  ghost predicate Stackable(list: seq<ArmReg>) {
    && 0 < |list| <= 14
    && (forall i, j | 0 <= i < j < |list| :: list[i] != list[j])
    && (forall r <- list :: r != 13 && r != 15)
  }

  /** Memory in which sixteen consecutive words never share storage. */
  predicate HoldsBlocks(m: Memory) {
    m.size >= 64 && m.size % 4 == 0 && 0x1_0000_0000 % m.size == 0
  }

  lemma WordsApart(m: Memory, address: Word, i: nat, j: nat)
    requires HoldsBlocks(m) && i < j < 16
    ensures m.WordAt(Wrap(address + 4 * i)) != m.WordAt(Wrap(address + 4 * j))
  {
    StepsApart(address + 4 * i, address + 4 * j, m.size);
    hide Wrap;
  }

  lemma StepsApart(x: int, y: int, d: int)
    requires d > 0 && d % 4 == 0 && 0x1_0000_0000 % d == 0 && x < y < x + d && x % 4 == y % 4
    ensures Wrap(x) % d / 4 != Wrap(y) % d / 4
  {
    hide *;
    WrapKeepsRemainder(x, d);
    WrapKeepsRemainder(y, d);
    StepsOfFour(x, y, d);
  }

  lemma StepsOfFour(x: int, y: int, d: int)
    requires d > 0 && d % 4 == 0 && x < y < x + d && x % 4 == y % 4
    ensures x % d / 4 != y % d / 4
  {
    RemaindersDiffer(x, y, d);
    RemainderModFour(x, d);
    RemainderModFour(y, d);
    SameLaneDifferentWord(x % d, y % d);
  }

  lemma SameLaneDifferentWord(a: nat, b: nat)
    requires a != b && a % 4 == b % 4
    ensures a / 4 != b / 4
  {
  }

  lemma RemainderModFour(x: int, d: int)
    requires d > 0 && d % 4 == 0
    ensures x % d % 4 == x % 4
  {
    var e := d / 4;
    assert d == 4 * e;
    assert x == (x / d) * d + x % d;
    assert (x / d) * d == ((x / d) * e) * 4;
    RemainderShift(x % d, 4, (x / d) * e);
  }

  /** Storing a block leaves the words below it alone. */
  lemma {:induction false} StoredKeeps(m: Memory, regs: Regs, list: seq<ArmReg>, address: Word, i: nat, k: nat,
                                       pc: Word)
    requires HoldsBlocks(m) && k < i && i + |list| <= 16
    ensures StoredMemory(m, regs, list, Wrap(address + 4 * i), pc).Read(Wrap(address + 4 * k))
        == m.Read(Wrap(address + 4 * k))
    decreases |list|
  {
    hide Wrap, ReadSource, Memory.Write, Memory.Read;
    if list != [] {
      var data := ReadSource(regs, MapSource(list[0]), pc);
      var at := Wrap(address + 4 * i);
      WriteThenRead(m, at, data, Wrap(address + 4 * k));
      WordsApart(m, address, k, i);
      WrapPlus(address + 4 * i, 4);
      StoredKeeps(m.Write(at, data, 15), regs, list[1..], address, i + 1, k, pc);
    }
  }

  lemma {:induction false} StoredIsRead(m: Memory, regs: Regs, list: seq<ArmReg>, address: Word, i: nat, k: nat,
                                        pc: Word)
    requires HoldsBlocks(m) && k < |list| && i + |list| <= 16
    ensures StoredMemory(m, regs, list, Wrap(address + 4 * i), pc).Read(Wrap(address + 4 * (i + k)))
            == ReadSource(regs, MapSource(list[k]), pc)
    decreases |list|
  {
    hide Wrap, ReadSource, Memory.Write, Memory.Read;
    var data := ReadSource(regs, MapSource(list[0]), pc);
    var at := Wrap(address + 4 * i);
    WrapPlus(address + 4 * i, 4);
    if k == 0 {
      WriteThenRead(m, at, data, at);
      StoredKeeps(m.Write(at, data, 15), regs, list[1..], address, i + 1, i, pc);
    } else {
      StoredIsRead(m.Write(at, data, 15), regs, list[1..], address, i + 1, k - 1, pc);
    }
  }

  /** Registers after the loads of a block. */
  lemma {:induction false} LoadedRegister(regs: Regs, memory: Memory, list: seq<ArmReg>, address: Word, i: nat,
                                          r: RegNo)
    requires r != 15 && forall a, b | 0 <= a < b < |list| :: list[a] != list[b]
    ensures var loaded := ApplyWrites(regs, LoadWrites(memory, list, Wrap(address + 4 * i)));
            && (forall k | 0 <= k < |list| && list[k] == r :: loaded[r] == memory.Read(Wrap(address + 4 * (i + k))))
            && ((forall k | 0 <= k < |list| :: list[k] != r) ==> loaded[r] == regs[r])
    decreases |list|
  {
    hide Wrap;
    if list != [] {
      var at := Wrap(address + 4 * i);
      var w := Write(MapDest(list[0]), memory.Read(at));
      WrapPlus(address + 4 * i, 4);
      var rest := LoadWrites(memory, list[1..], Wrap(address + 4 * (i + 1)));
      assert LoadWrites(memory, list, at) == [w] + rest && ([w] + rest)[1..] == rest;
      LoadedRegister(SetReg(regs, w.rd, w.value), memory, list[1..], address, i + 1, r);
      var loaded := ApplyWrites(regs, LoadWrites(memory, list, at));
      assert loaded == ApplyWrites(SetReg(regs, w.rd, w.value), rest);
      forall k | 0 <= k < |list| && list[k] == r ensures loaded[r] == memory.Read(Wrap(address + 4 * (i + k))) {
        if k > 0 {
          assert list[1..][k - 1] == r;
        }
      }
    }
  }

  /** Loading a block that was stored from the same list gives the registers back. */
  lemma BlockRoundTrip(stored: Regs, memory: Memory, list: seq<ArmReg>, low: Word, pc: Word, regs: Regs, later: Memory)
    requires Stackable(list) && HoldsBlocks(memory)
    requires SameWords(StoredMemory(memory, stored, list, low, pc), later, low, |list|)
    ensures var loaded := ApplyWrites(regs, LoadWrites(later, list, low));
            && (forall r <- list :: loaded[r] == stored[r])
            && (forall r: RegNo | r != 15 && r !in list :: loaded[r] == regs[r])
  {
    hide LoadWrites, StoredMemory, ApplyWrites, Memory.Read;
    WrapOfWord(low);
    hide Wrap;
    var loaded := ApplyWrites(regs, LoadWrites(later, list, low));
    forall k | 0 <= k < |list| ensures loaded[list[k]] == stored[list[k]] {
      assert list[k] in list;
      StoredIsRead(memory, stored, list, low, 0, k, pc);
      LoadedRegister(regs, later, list, low, 0, list[k]);
    }
    forall r: RegNo | r != 15 && r !in list ensures loaded[r] == regs[r] {
      LoadedRegister(regs, later, list, low, 0, r);
    }
  }

  /** The same stack pointer with the same n words above it. */
  ghost predicate SameStack(s: Arch, t: Arch, n: nat) {
    t.regs[13] == s.regs[13]
    && SameWords(s.memory, t.memory, s.regs[13], n)
  }

  ghost predicate SameWords(m: Memory, later: Memory, low: Word, n: nat) {
    forall k | 0 <= k < n :: later.Read(Wrap(low + 4 * k)) == m.Read(Wrap(low + 4 * k))
  }

  /** Push then pop gives every pushed register and the stack pointer back, whatever
      happens in between to the other registers, flags and memory, as long as the
      stack pointer and the stacked words are as the push left them. */
  lemma PushPopRestores(s: Arch, list: seq<ArmReg>, between: Arch, stale: RegNo, pushPc: Word, popPc: Word)
    requires Stackable(list) && HoldsBlocks(s.memory)
    requires SameStack(ExecuteAll(false, s, StoreMultiple(Always, PUSH, list, stale, pushPc)), between, |list|)
    ensures var popped := ExecuteAll(false, between, LoadMultiple(Always, POP, list, stale, popPc));
            && popped.regs[13] == s.regs[13]
            && (forall r <- list :: popped.regs[r] == s.regs[r])
            && (forall r: RegNo | r != 13 && r != 15 && r !in list :: popped.regs[r] == between.regs[r])
            && popped.memory == between.memory && popped.core.flags == between.core.flags
  {
    hide StoreMultiple, LoadMultiple, ExecuteAll, Wrap, LoadWrites, StoredMemory, ApplyWrites, SameWords, HoldsBlocks;
    var sp: int := s.regs[13];
    WrapPlus(sp - 4 * |list|, 4 * |list|);
    WrapOfWord(s.regs[13]);
    Push(s, list, stale, pushPc);
    Pop(between, list, stale, popPc);
    var pushed := ExecuteAll(false, s, StoreMultiple(Always, PUSH, list, stale, pushPc));
    BlockRoundTrip(pushed.regs, s.memory, list, pushed.regs[13], pushPc, between.regs, between.memory);
  }

  lemma Push(s: Arch, list: seq<ArmReg>, stale: RegNo, pc: Word)
    requires 0 < |list| <= 14
    ensures var t := ExecuteAll(false, s, StoreMultiple(Always, PUSH, list, stale, pc));
            var low := Wrap(s.regs[13] - 4 * |list|);
            && t.regs == s.regs[13 := low]
            && t.memory == StoredMemory(s.memory, t.regs, list, low, pc)
            && t.core.flags == s.core.flags
  {
    hide StoreMultiple, ExecuteAll, Wrap, StoredMemory;
    StoreMultipleStores(s, Always, PUSH, list, stale, pc);
    OneWrite(s.regs, Write(ToReg(13), Wrap(s.regs[13] - 4 * |list|)));
    hide ApplyWrites;
  }

  lemma Pop(s: Arch, list: seq<ArmReg>, stale: RegNo, pc: Word)
    requires 0 < |list| <= 14
    ensures var t := ExecuteAll(false, s, LoadMultiple(Always, POP, list, stale, pc));
            && t.regs == ApplyWrites(s.regs, LoadWrites(s.memory, list, s.regs[13]))
                         [13 := Wrap(s.regs[13] + 4 * |list|)]
            && t.memory == s.memory && t.core.flags == s.core.flags
  {
    hide LoadMultiple, ExecuteAll, Wrap, LoadWrites;
    LoadMultipleLoads(s, Always, POP, list, stale, pc);
    var loads := LoadWrites(s.memory, list, s.regs[13]);
    var last := Write(ToReg(13), Wrap(s.regs[13] + 4 * |list|));
    assert LoadMultipleWrites(POP, s.memory, s.regs[13], list) == loads + [last];
    ApplyWritesSplits(s.regs, loads, [last]);
    OneWrite(ApplyWrites(s.regs, loads), last);
    hide ApplyWrites;
  }

  lemma OneWrite(regs: Regs, w: Write)
    ensures ApplyWrites(regs, [w]) == SetReg(regs, w.rd, w.value)
  {
    assert ApplyWrites(SetReg(regs, w.rd, w.value), [w][1..]) == SetReg(regs, w.rd, w.value);
  }
}
