/** What word, half-word and byte accesses do to the bytes of the memory. */
module ByteAccess {
  import opened Words
  import opened FlatMemory
  import opened GipInstruction
  import opened GipAlu
  import opened GipSequential

  /** How many values an access of this size tells apart. */
  function Range(size: Size): (n: nat)
    ensures n > 0
  {
    match size
    case SizeWord => 0x1_0000_0000
    case SizeHalf => 0x1_0000
    case SizeByte => 0x100
  }

  /** The word that a store leaves, n being the lane it starts at. */
  function StoredWord(was: Word, size: Size, n: nat, x: Word): (w: Word) {
    MergeLanes(was, Wrap(x * Pow2(8 * n)), LaneMask(size) * Pow2(n))
  }

  /** The stored lanes hold the low end of the data. */
  lemma StoredLanes(was: Word, size: Size, n: nat, x: Word)
    requires n < 4 && (size.SizeWord? ==> n == 0) && (size.SizeHalf? ==> n % 2 == 0)
    ensures forall i: nat | i < 4 ::
              Lane(StoredWord(was, size, n, x), i)
              == if n <= i < n + AccessSize(size) then Lane(x, i - n) else Lane(was, i)
  {
    hide *;
    var data, mask := Wrap(x * Pow2(8 * n)), LaneMask(size) * Pow2(n);
    ShiftedLanes(x, n, data);
    MaskSelects(size, n, mask);
    MergedLanes(was, data, mask, n, n + AccessSize(size), x);
    IsMerged(was, size, n, x);
  }

  lemma IsMerged(was: Word, size: Size, n: nat, x: Word)
    ensures StoredWord(was, size, n, x) == MergeLanes(was, Wrap(x * Pow2(8 * n)), LaneMask(size) * Pow2(n))
  {
  }

  lemma MergedLanes(was: Word, data: Word, mask: nat, from: nat, to: nat, x: Word)
    requires forall i: nat | i < 4 :: Lane(data, i) == if i < from then 0 else Lane(x, i - from)
    requires forall i: nat | i < 4 :: LaneSelected(mask, i) <==> from <= i < to
    ensures forall i: nat | i < 4 ::
              Lane(MergeLanes(was, data, mask), i) == if from <= i < to then Lane(x, i - from) else Lane(was, i)
  {
    hide Lane, LaneSelected, MergeLanes;
  }

  lemma MaskSelects(size: Size, n: nat, mask: nat)
    requires n < 4 && (size.SizeWord? ==> n == 0) && (size.SizeHalf? ==> n % 2 == 0)
    requires mask == LaneMask(size) * Pow2(n)
    ensures forall i: nat | i < 4 :: LaneSelected(mask, i) <==> n <= i < n + AccessSize(size)
  {
    hide Pow2;
    Pow2Bytes();
  }

  predicate SameLanes(size: Size, x: Word, y: Word) {
    forall i: nat | i < AccessSize(size) :: Lane(x, i) == Lane(y, i)
  }

  /** The low lanes of a word are its remainder. */
  lemma LowLanes(size: Size, x: Word, y: Word)
    ensures SameLanes(size, x, y) <==> x % Range(size) == y % Range(size)
  {
    hide Lane, SameLanes;
    LanesOneByOne(size, x, y);
    match size
    case SizeWord =>
      WordOfLanes(x);
      WordOfLanes(y);
      WrapOfWord(x);
      WrapOfWord(y);
    case SizeHalf =>
      LowHalf(x);
      LowHalf(y);
    case SizeByte =>
      LowByte(x);
      LowByte(y);
  }

  lemma LanesOneByOne(size: Size, x: Word, y: Word)
    ensures SameLanes(size, x, y)
            <==> Lane(x, 0) == Lane(y, 0) && (size.SizeByte? || Lane(x, 1) == Lane(y, 1))
                 && (size.SizeWord? ==> Lane(x, 2) == Lane(y, 2) && Lane(x, 3) == Lane(y, 3))
  {
    hide Lane;
  }

  lemma LowByte(x: Word)
    ensures x % 0x100 == Lane(x, 0)
  {
  }

  lemma LowHalf(x: Word)
    ensures x % 0x1_0000 == Lane(x, 0) + 0x100 * Lane(x, 1)
  {
  }

  lemma SameLanesSameWord(was: Word, size: Size, n: nat, x: Word, y: Word)
    requires n < 4 && (size.SizeWord? ==> n == 0) && (size.SizeHalf? ==> n % 2 == 0)
    ensures StoredWord(was, size, n, x) == StoredWord(was, size, n, y) <==> SameLanes(size, x, y)
  {
    hide Lane, StoredWord;
    var u, v := StoredWord(was, size, n, x), StoredWord(was, size, n, y);
    StoredLanes(was, size, n, x);
    StoredLanes(was, size, n, y);
    if SameLanes(size, x, y) {
      forall i: nat | i < 4 ensures Lane(u, i) == Lane(v, i) {
        if n <= i < n + AccessSize(size) {
          assert Lane(x, i - n) == Lane(y, i - n);
        }
      }
      LanesDetermineWord(u, v);
    } else {
      var i: nat :| i < AccessSize(size) && Lane(x, i) != Lane(y, i);
      assert Lane(u, n + i) != Lane(v, n + i);
    }
  }

  /** Two stores to one place have the same effect if and only if they store the same lanes. */
  lemma SameLanesSameStore(m: Memory, size: Size, address: Word, x: Word, y: Word)
    ensures StoreTo(m, size, address, x) == StoreTo(m, size, address, y) <==> x % Range(size) == y % Range(size)
  {
    hide *;
    LowLanes(size, x, y);
    var n := LaneOffset(size, address);
    LaneOffsetFits(size, address);
    var word := m.WordAt(address - n);
    var was := if word in m.words then m.words[word] else 0;
    SameLanesSameWord(was, size, n, x, y);
    StoresWord(m, size, address, x);
    StoresWord(m, size, address, y);
    var u, v := StoreTo(m, size, address, x), StoreTo(m, size, address, y);
    assert u == v ==> u.words[word] == v.words[word];
  }

  lemma LaneOffsetFits(size: Size, address: Word)
    ensures var n := LaneOffset(size, address); (size.SizeWord? ==> n == 0) && (size.SizeHalf? ==> n % 2 == 0)
  {
  }

  lemma StoresWord(m: Memory, size: Size, address: Word, x: Word)
    ensures var n := LaneOffset(size, address);
            var word := m.WordAt(address - n);
            var was := if word in m.words then m.words[word] else 0;
            StoreTo(m, size, address, x) == m.(words := m.words[word := StoredWord(was, size, n, x)])
  {
    hide MergeLanes, Wrap, LaneMask, Pow2, LaneOffset;
  }

  // ----- single bytes -----

  /** The byte at an address; bytes of words that were never written count as zero. */
  function ByteAt(m: Memory, address: Word): (b: nat) {
    if address % m.size / 4 in m.words then Lane(m.Read(address), address % 4) else 0
  }

  /** Where an access starts: half words at even addresses, words at multiples of four. */
  function Start(size: Size, address: Word): (a: Word) {
    address - address % AccessSize(size)
  }

  /** The lanes of the word of an access against the bytes of the memory. */
  lemma InWord(size: Size, address: Word, k: Word)
    ensures Start(size, address) == address / 4 * 4 + LaneOffset(size, address)
    ensures LaneOffset(size, address) + AccessSize(size) <= 4
    ensures Start(size, address) <= k < Start(size, address) + AccessSize(size)
        <==> k / 4 == address / 4 && LaneOffset(size, address) <= k % 4 < LaneOffset(size, address) + AccessSize(size)
    ensures (address - LaneOffset(size, address)) / 4 == address / 4
  {
    var q, r := address / 4, address % 4;
    assert address == 4 * q + r;
    var p, t := k / 4, k % 4;
    assert k == 4 * p + t;
    assert address % 2 == r % 2 && address / 2 % 2 == r / 2;
  }

  lemma ByteOfWord(m: Memory, k: Word)
    requires k < m.size
    ensures ByteAt(m, k) == if k / 4 in m.words then Lane(m.words[k / 4], k % 4) else 0
  {
    hide Lane;
    QuotientUnique(k, m.size, 0, k);
  }

  lemma StoresInto(m: Memory, size: Size, address: Word, x: Word)
    requires address < m.size
    ensures var was := if address / 4 in m.words then m.words[address / 4] else 0;
            StoreTo(m, size, address, x)
            == m.(words := m.words[address / 4 := StoredWord(was, size, LaneOffset(size, address), x)])
  {
    hide StoreTo, StoredWord, LaneOffset;
    StoresWord(m, size, address, x);
    InWord(size, address, 0);
    var a := address - LaneOffset(size, address);
    QuotientUnique(a, m.size, 0, a);
  }

  /** A store puts its data into consecutive bytes, the lowest byte first, and changes no
      other byte. */
  lemma StoredBytes(m: Memory, size: Size, address: Word, x: Word, k: Word)
    requires address < m.size && k < m.size
    ensures var first := Start(size, address);
            ByteAt(StoreTo(m, size, address, x), k)
            == if first <= k < first + AccessSize(size) then Lane(x, k - first) else ByteAt(m, k)
  {
    hide StoreTo, StoredWord, LaneOffset, Lane, ByteAt, Start, AccessSize;
    var n := LaneOffset(size, address);
    var was := if address / 4 in m.words then m.words[address / 4] else 0;
    StoresInto(m, size, address, x);
    LaneOffsetFits(size, address);
    StoredLanes(was, size, n, x);
    InWord(size, address, k);
    ByteOfWord(m, k);
    ByteOfWord(StoreTo(m, size, address, x), k);
    NoLanes(k % 4);
    if k / 4 == address / 4 {
      assert k == k / 4 * 4 + k % 4;
      assert Lane(StoredWord(was, size, n, x), k % 4)
          == if n <= k % 4 < n + AccessSize(size) then Lane(x, k % 4 - n) else Lane(was, k % 4);
    }
  }

  lemma NoLanes(i: nat)
    requires i < 4
    ensures Lane(0, i) == 0
  {
    LanesOfSum(0, 0, 0, 0);
  }

  /** A load delivers consecutive bytes, the lowest first. */
  lemma LoadedBytes(m: Memory, size: Size, address: Word, i: nat)
    requires address < m.size && address / 4 in m.words
    requires i < AccessSize(size) && Start(size, address) + i < m.size
    ensures Lane(LoadFrom(m, size, address), i) == ByteAt(m, Start(size, address) + i)
  {
    hide LaneOffset, Lane, ByteAt, Start, AccessSize, LoadFrom;
    InWord(size, address, Start(size, address) + i);
    LoadedLanes(m, size, address, i);
    ByteOfWord(m, Start(size, address) + i);
  }

  lemma LoadedLanes(m: Memory, size: Size, address: Word, i: nat)
    requires address < m.size && address / 4 in m.words && i < AccessSize(size)
    ensures LaneOffset(size, address) + i < 4
    ensures Lane(LoadFrom(m, size, address), i) == Lane(m.words[address / 4], LaneOffset(size, address) + i)
  {
    hide LaneOffset, Lane, Start, AccessSize, Pow2;
    InWord(size, address, 0);
    QuotientUnique(address, m.size, 0, address);
    var n := LaneOffset(size, address);
    LanesAbove(m.words[address / 4], n, i, LoadFrom(m, size, address));
  }

  lemma LanesAbove(w: Word, n: nat, i: nat, v: Word)
    requires n + i < 4 && v == w / Pow2(8 * n)
    ensures Lane(v, i) == Lane(w, n + i)
  {
    hide Pow2, Lane, FromLanes;
    Pow2Bytes();
    UpperLanes(w);
    if n == 1 {
      LanesOfSum(Lane(w, 1), Lane(w, 2), Lane(w, 3), 0);
    } else if n == 2 {
      LanesOfSum(Lane(w, 2), Lane(w, 3), 0, 0);
    } else if n == 3 {
      LanesOfSum(Lane(w, 3), 0, 0, 0);
    }
  }

  /** What was stored is loaded again. */
  lemma StoreThenLoad(m: Memory, size: Size, address: Word, x: Word)
    requires address < m.size
    ensures LoadFrom(StoreTo(m, size, address, x), size, address) % Range(size) == x % Range(size)
  {
    hide StoreTo, StoredWord, LaneOffset, Lane, Start, AccessSize, LoadFrom, Range;
    var n := LaneOffset(size, address);
    var was := if address / 4 in m.words then m.words[address / 4] else 0;
    var after := StoreTo(m, size, address, x);
    StoresInto(m, size, address, x);
    LaneOffsetFits(size, address);
    StoredLanes(was, size, n, x);
    InWord(size, address, 0);
    forall i: nat | i < AccessSize(size) ensures Lane(LoadFrom(after, size, address), i) == Lane(x, i) {
      LoadedLanes(after, size, address, i);
      assert Lane(StoredWord(was, size, n, x), n + i) == Lane(x, i);
    }
    LowLanes(size, LoadFrom(after, size, address), x);
  }
}
