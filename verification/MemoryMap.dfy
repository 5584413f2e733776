/** The memory model in front of the RAMs: the top sixteen address bits pick a slot, and
    a slot holds the RAM that answers for it. */
module MemoryMap {
  import opened Words
  import opened FlatMemory
  import opened SparseRam

  const MAP_SLOT: nat := 0x1_0000
  const MAP_SIZE: nat := 0x1_0000
  const UNMAPPED: Word := 0xdead_beef

  function SlotOf(address: Word): (i: nat)
    ensures i < MAP_SIZE
  {
    address / MAP_SLOT % MAP_SIZE
  }

  /** The last slot of a mapping; the end address wraps. */
  function LastSlot(base: Word, size: Word): (i: nat)
    ensures i < MAP_SIZE
  {
    Wrap(base + size - 1) / MAP_SLOT
  }

  /** The slots from that of the base to the last one are those of the range. */
  lemma SlotsOfRange(base: Word, size: Word)
    ensures LastSlot(base, size) == Wrap(base + size - 1) / MAP_SLOT
    ensures forall address: Word :: SlotOf(address) == address / MAP_SLOT
    ensures base + size <= 0x1_0000_0000 ==>
              forall address: Word | base <= address < base + size ::
                base / MAP_SLOT <= SlotOf(address) <= LastSlot(base, size)
  {
    if base + size <= 0x1_0000_0000 {
      forall address: Word | base <= address < base + size
        ensures base / MAP_SLOT <= SlotOf(address) <= LastSlot(base, size) {
        WrapOfWord(base + size - 1);
      }
    }
  }

  /** Well formed RAMs that share no storage and keep it within frame. */
  ghost predicate Separate(rams: set<Ram>, frame: set<object>)
    reads rams, frame
  {
    && (forall r <- rams :: r in r.Repr && r in frame && r.Repr <= frame && r.Valid())
    && (forall r <- rams, s <- rams | r != s :: r.Repr !! s.Repr)
  }

  class Map {
    const modelFns: array<Ram?>
    ghost var rams: set<Ram>
    ghost var frame: set<object>

    ghost predicate Slots()
      reads `rams, modelFns
    {
      && modelFns.Length == MAP_SIZE
      && forall i | 0 <= i < MAP_SIZE && modelFns[i] != null :: modelFns[i] in rams
    }

    ghost predicate Valid()
      reads this, modelFns, rams, frame
    {
      Slots() && Separate(rams, frame) && modelFns !in frame && this !in frame
    }

    /** The RAM that answers for an address. */
    ghost function Answering(address: Word): (ram: Ram?)
      requires Slots()
      reads `rams, modelFns
    {
      modelFns[SlotOf(address)]
    }

    constructor ()
      ensures Valid() && rams == {} && fresh(modelFns)
      ensures forall i | 0 <= i < MAP_SIZE :: modelFns[i] == null
    {
      modelFns := new Ram?[MAP_SIZE](_ => null);
      rams, frame := {}, {};
    }

    /** Maps slots one by one and stops at the first that is taken; the slots before it
        stay mapped. */
    method MapMemory(ram: Ram, base: Word, size: Word) returns (ok: bool)
      requires Valid() && Separate(rams + {ram}, frame + ram.Repr) && modelFns !in ram.Repr && this !in ram.Repr
      modifies this, modelFns
      ensures Valid() && rams == old(rams) + {ram} && frame == old(frame) + ram.Repr
      ensures ok <==> forall i | base / MAP_SLOT <= i <= LastSlot(base, size) :: old(modelFns[i]) == null
      ensures forall i | 0 <= i < MAP_SIZE ::
                modelFns[i] == if base / MAP_SLOT <= i <= LastSlot(base, size)
                                  && forall j | base / MAP_SLOT <= j <= i :: old(modelFns[j]) == null
                               then ram else old(modelFns[i])
      ensures ok && base + size <= 0x1_0000_0000
              ==> forall address: Word | base <= address < base + size :: Answering(address) == ram
      ensures forall address: Word ::
                Answering(address) == old(Answering(address)) || (Answering(address) == ram
                                && base / MAP_SLOT <= address / MAP_SLOT <= Wrap(base + size - 1) / MAP_SLOT)
    {
      hide Separate, SlotOf, LastSlot;
      SlotsOfRange(base, size);
      rams, frame := rams + {ram}, frame + ram.Repr;
      var i := base / MAP_SLOT;
      while i <= LastSlot(base, size)
        invariant rams == old(rams) + {ram} && frame == old(frame) + ram.Repr
        invariant base / MAP_SLOT <= i <= MAP_SIZE
        invariant forall j | base / MAP_SLOT <= j < i :: old(modelFns[j]) == null && modelFns[j] == ram
        invariant forall j | 0 <= j < MAP_SIZE && !(base / MAP_SLOT <= j < i) :: modelFns[j] == old(modelFns[j])
        invariant i <= base / MAP_SLOT || i <= LastSlot(base, size) + 1
      {
        if modelFns[i] != null {
          return false;
        }
        modelFns[i] := ram;
        i := i + 1;
      }
      return true;
    }

    method ReadMemory(address: Word) returns (data: Word)
      requires Valid()
      ensures var ram := Answering(address);
              data == if ram == null then UNMAPPED else ram.flat.Read(address)
    {
      var ram := modelFns[SlotOf(address)];
      if ram == null {
        return UNMAPPED;
      }
      data := ram.Read(address);
    }

    /** Writes to the RAM of the slot and to nothing else. */
    method WriteMemory(address: Word, data: Word, bytes: nat)
      requires Valid()
      modifies this, frame
      ensures Valid() && rams == old(rams) && fresh(frame - old(frame))
      ensures forall r <- rams ::
                r.flat == if r == Answering(address) then old(r.flat).Write(address, data, bytes)
                          else old(r.flat)
    {
      hide Separate, Ram.Valid, Memory.Write, SlotOf;
      var ram := modelFns[SlotOf(address)];
      if ram != null {
        Forward(ram, address, data, bytes);
      }
    }

    /** A RAM mapped over a range answers for every address of it: a word written through the
        map is read back, and no other RAM sees the write. */
    method WriteThenRead(ram: Ram, base: Word, size: Word, address: Word, data: Word) returns (ok: bool, seen: Word)
      requires Valid() && Separate(rams + {ram}, frame + ram.Repr) && modelFns !in ram.Repr && this !in ram.Repr
      requires base <= address < base + size <= 0x1_0000_0000
      modifies this, modelFns, frame, ram.Repr
      ensures Valid() && rams == old(rams) + {ram}
      ensures ok ==> Answering(address) == ram && seen == data
                     && ram.flat == old(ram.flat).Write(address, data, 15)
      ensures !ok ==> ram.flat == old(ram.flat)
      ensures forall r <- rams | r != ram :: r.flat == old(r.flat)
    {
      hide Separate, Ram.Valid, Memory.Write, SlotOf;
      ok := MapMemory(ram, base, size);
      seen := UNMAPPED;
      if ok {
        FlatMemory.WriteThenRead(ram.flat, address, data, address);
        WriteMemory(address, data, 15);
        seen := ReadMemory(address);
      }
    }

    method Forward(ram: Ram, address: Word, data: Word, bytes: nat)
      requires Valid() && ram in rams
      modifies this, frame
      ensures Valid() && rams == old(rams) && fresh(frame - old(frame))
      ensures ram.flat == old(ram.flat).Write(address, data, bytes)
      ensures forall r <- rams | r != ram :: r.flat == old(r.flat)
    {
      hide Ram.Valid, Memory.Write, Slots;
      ram.Write(address, data, bytes);
      forall r <- rams | r != ram ensures r.Valid() && this !in r.Repr && r.Repr !! ram.Repr {
        assert old(r.Valid()) && old(r.Repr !! ram.Repr);
      }
      assert this !in ram.Repr;
      label Written:
      frame := frame + ram.Repr;
      forall r <- rams ensures r in r.Repr && r.Valid() && r.Repr <= frame {
        assert old@Written(r.Valid()) && r.Repr == old@Written(r.Repr);
      }
    }
  }
}
