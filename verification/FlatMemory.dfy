/** Word memory as the processor sees it: a flat map from word number to word.
    SparseRam shows that the hashed-page RAM behaves like this. */
module FlatMemory {
  import opened Words

  const NEVER_WRITTEN: Word := 0xdead_cafe

  type MemorySize = n: int | 0 < n <= 0x1_0000_0000 witness 1

  /** `size` bytes, addressed modulo `size`; words holds the words that were written. */
  datatype Memory = Memory(size: MemorySize, words: map<nat, Word>) {
    function WordAt(address: Word): (n: nat)
    {
      address % size / 4
    }

    function Read(address: Word): (w: Word)
    {
      if WordAt(address) in words then words[WordAt(address)] else NEVER_WRITTEN
    }

    /** Write the byte lanes of `data` that `mask` selects; lanes of a word that
        was never written start from zero. */
    function Write(address: Word, data: Word, mask: nat): (m: Memory)
      ensures m.size == size
    {
      var n := WordAt(address);
      this.(words := words[n := MergeLanes(if n in words then words[n] else 0, data, mask)])
    }
  }

  /** Byte lane `i` of a word. */
  function Lane(w: Word, i: nat): (b: nat)
    requires i < 4
    ensures b < 256
  {
    if i == 0 then w % 256
    else if i == 1 then w / 256 % 256
    else if i == 2 then w / 256 / 256 % 256
    else w / 256 / 256 / 256
  }

  function FromLanes(b0: nat, b1: nat, b2: nat, b3: nat): (w: Word)
    requires b0 < 256 && b1 < 256 && b2 < 256 && b3 < 256
    ensures Lane(w, 0) == b0 && Lane(w, 1) == b1 && Lane(w, 2) == b2 && Lane(w, 3) == b3
  {
    var q2 := b2 + 256 * b3;
    var q1 := b1 + 256 * q2;
    var w := b0 + 256 * q1;
    assert w / 256 == q1 && q1 / 256 == q2 && q2 / 256 == b3;
    w
  }

  predicate LaneSelected(mask: nat, i: nat)
    requires i < 4
  {
    if i == 0 then mask % 2 == 1
    else if i == 1 then mask / 2 % 2 == 1
    else if i == 2 then mask / 4 % 2 == 1
    else mask / 8 % 2 == 1
  }

  function MergeLane(was: Word, data: Word, mask: nat, i: nat): (b: nat)
    requires i < 4
    ensures b < 256
  {
    if LaneSelected(mask, i) then Lane(data, i) else Lane(was, i)
  }

  function MergeLanes(was: Word, data: Word, mask: nat): (w: Word)
    ensures forall i: nat | i < 4 :: Lane(w, i) == MergeLane(was, data, mask, i)
  {
    FromLanes(MergeLane(was, data, mask, 0), MergeLane(was, data, mask, 1),
              MergeLane(was, data, mask, 2), MergeLane(was, data, mask, 3))
  }

  /** A word is determined by its four lanes. */
  lemma LanesDetermineWord(v: Word, w: Word)
    requires forall i: nat | i < 4 :: Lane(v, i) == Lane(w, i)
    ensures v == w
  {
    assert v == Lane(v, 0) + 256 * (v / 256) && w == Lane(w, 0) + 256 * (w / 256);
    assert v / 256 == Lane(v, 1) + 256 * (v / 256 / 256) && w / 256 == Lane(w, 1) + 256 * (w / 256 / 256);
    assert v / 256 / 256 == Lane(v, 2) + 256 * Lane(v, 3) && w / 256 / 256 == Lane(w, 2) + 256 * Lane(w, 3);
  }

  lemma LanesOfSum(b0: nat, b1: nat, b2: nat, b3: nat)
    requires b0 < 256 && b1 < 256 && b2 < 256 && b3 < 256
    ensures FromLanes(b0, b1, b2, b3) == b0 + 0x100 * b1 + 0x1_0000 * b2 + 0x100_0000 * b3
  {
  }

  lemma WordOfLanes(x: Word)
    ensures x == Lane(x, 0) + 0x100 * Lane(x, 1) + 0x1_0000 * Lane(x, 2) + 0x100_0000 * Lane(x, 3)
  {
    hide Lane, FromLanes;
    LanesOfSum(Lane(x, 0), Lane(x, 1), Lane(x, 2), Lane(x, 3));
    LanesDetermineWord(x, FromLanes(Lane(x, 0), Lane(x, 1), Lane(x, 2), Lane(x, 3)));
  }

  /** What is left of a word without its low lanes. */
  lemma UpperLanes(x: Word)
    ensures x / 0x100 == Lane(x, 1) + 0x100 * Lane(x, 2) + 0x1_0000 * Lane(x, 3)
    ensures x / 0x1_0000 == Lane(x, 2) + 0x100 * Lane(x, 3)
    ensures x / 0x100_0000 == Lane(x, 3)
  {
    hide Lane, FromLanes;
    WordOfLanes(x);
    var b0, b1, b2, b3 := Lane(x, 0), Lane(x, 1), Lane(x, 2), Lane(x, 3);
    QuotientUnique(x, 0x100, b1 + 0x100 * b2 + 0x1_0000 * b3, b0);
    QuotientUnique(x, 0x1_0000, b2 + 0x100 * b3, b0 + 0x100 * b1);
    QuotientUnique(x, 0x100_0000, b3, b0 + 0x100 * b1 + 0x1_0000 * b2);
  }

  /** Shifting a word left by whole bytes moves its lanes up. */
  lemma ShiftedLanes(x: Word, n: nat, w: Word)
    requires n < 4 && w == Wrap(x * Pow2(8 * n))
    ensures forall i: nat | i < 4 :: Lane(w, i) == if i < n then 0 else Lane(x, i - n)
  {
    hide Lane, FromLanes, Wrap, Pow2;
    var b0, b1, b2, b3 := Lane(x, 0), Lane(x, 1), Lane(x, 2), Lane(x, 3);
    WordOfLanes(x);
    Pow2Bytes();
    if n == 0 {
      WrapOfWord(x);
    } else if n == 1 {
      ShiftedSum(x * 0x100, 0, b0, b1, b2, b3);
    } else if n == 2 {
      ShiftedSum(x * 0x1_0000, 0, 0, b0, b1, b2 + 0x100 * b3);
    } else {
      ShiftedSum(x * 0x100_0000, 0, 0, 0, b0, b1 + 0x100 * b2 + 0x1_0000 * b3);
    }
  }

  lemma ShiftedSum(x: nat, b0: nat, b1: nat, b2: nat, b3: nat, over: nat)
    requires b0 < 256 && b1 < 256 && b2 < 256 && b3 < 256
    requires x == b0 + 0x100 * b1 + 0x1_0000 * b2 + 0x100_0000 * b3 + over * 0x1_0000_0000
    ensures Wrap(x) == FromLanes(b0, b1, b2, b3)
  {
    hide *;
    LanesOfSum(b0, b1, b2, b3);
    WrapShift(FromLanes(b0, b1, b2, b3), over);
    WrapOfWord(FromLanes(b0, b1, b2, b3));
  }

  /** Repeating a write changes nothing. */
  lemma WriteTwice(m: Memory, address: Word, data: Word, mask: nat)
    ensures m.Write(address, data, mask).Write(address, data, mask) == m.Write(address, data, mask)
  {
    var n := m.WordAt(address);
    var once := MergeLanes(if n in m.words then m.words[n] else 0, data, mask);
    var twice := MergeLanes(once, data, mask);
    forall i: nat | i < 4 ensures Lane(twice, i) == Lane(once, i) {
    }
    LanesDetermineWord(twice, once);
  }

  /** A masked write, lane by lane: it changes the lanes of its word whose mask bit is set,
      and no other word. */
  lemma MaskedWrite(m: Memory, address: Word, data: Word, mask: nat, other: Word, i: nat)
    requires i < 4
    ensures var after := m.Write(address, data, mask).Read(other);
            if other % m.size / 4 != address % m.size / 4 then after == m.Read(other)
            else Lane(after, i) == if mask / Pow2(i) % 2 == 1 then Lane(data, i)
                                   else if other % m.size / 4 in m.words then Lane(m.Read(other), i)
                                   else 0
  {
    hide Lane, LaneSelected, Pow2;
    MaskBits(mask, i);
    var n := m.WordAt(address);
    var merged := MergeLanes(if n in m.words then m.words[n] else 0, data, mask);
    assert Lane(merged, i) == MergeLane(if n in m.words then m.words[n] else 0, data, mask, i);
    LanesOfSum(0, 0, 0, 0);
    assert Lane(FromLanes(0, 0, 0, 0), i) == 0;
  }

  lemma MaskBits(mask: nat, i: nat)
    requires i < 4
    ensures LaneSelected(mask, i) <==> mask / Pow2(i) % 2 == 1
  {
    hide Pow2;
    Pow2Bytes();
  }

  /** A full-word write is read back; other words keep their value. */
  lemma WriteThenRead(m: Memory, address: Word, data: Word, other: Word)
    ensures m.Write(address, data, 15).Read(other)
            == if m.WordAt(other) == m.WordAt(address) then data else m.Read(other)
  {
    var n := m.WordAt(address);
    var merged := MergeLanes(if n in m.words then m.words[n] else 0, data, 15);
    LanesDetermineWord(merged, data);
  }
}
