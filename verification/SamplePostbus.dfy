/** The record buffer of the sample memory and the state machine that sends its blocks as
    postbus transactions, sharing one RAM port with the samples that come in. */
module SamplePostbus {
  import opened Words

  const BLOCK_WORDS: nat := 32
  const RAM_WORDS: nat := 2048

  /** Idle and hold have one encoding. */
  datatype WordType = Start | IdleOrHold | Data | Last

  datatype BufferFsm = BufferIdle | PushPending | PushInProgress

  datatype TxFsm = TxIdle | PushOut | PushLast | PushComplete

  // ----- the grammar of the bus -----

  datatype Parse = Between | Open | Wrong

  function NextParse(p: Parse, w: WordType): (q: Parse) {
    match w
    case Start => if p.Between? then Open else Wrong
    case IdleOrHold => p
    case Data => if p.Open? then Open else Wrong
    case Last => if p.Open? then Between else Wrong
  }

  /** Where the words accepted so far leave the sequence (Idle* Start (Data | Hold)* Last)*. */
  function ParseOf(words: seq<WordType>): (p: Parse) {
    if words == [] then Between else NextParse(ParseOf(words[..|words| - 1]), words[|words| - 1])
  }

  function Packets(words: seq<WordType>): (n: nat) {
    if words == [] then 0 else Packets(words[..|words| - 1]) + BitValue(words[|words| - 1].Last?)
  }

  lemma OneMoreWord(words: seq<WordType>, w: WordType)
    ensures ParseOf(words + [w]) == NextParse(ParseOf(words), w)
    ensures Packets(words + [w]) == Packets(words) + BitValue(w.Last?)
  {
    assert (words + [w])[..|words|] == words;
  }

  datatype Ring = Ring(first: nat, last: nat)

  function NextBlock(ring: Ring, block: nat): (b: nat) {
    if block == ring.last then ring.first else block + 1
  }

  /** The block n places round the ring from its start. */
  function BlockAt(ring: Ring, n: nat): (b: nat)
    requires ring.first <= ring.last
    ensures ring.first <= b <= ring.last
  {
    if n == 0 then ring.first else NextBlock(ring, BlockAt(ring, n - 1))
  }

  lemma OneMorePacket(ring: Ring, n: nat)
    requires ring.first <= ring.last
    ensures BlockAt(ring, n + 1) == NextBlock(ring, BlockAt(ring, n))
  {
  }

  /** Going all the way round returns to the same block. */
  lemma {:induction false} BlockAtIsModular(ring: Ring, n: nat)
    requires ring.first <= ring.last
    ensures BlockAt(ring, n) == ring.first + n % (ring.last - ring.first + 1)
  {
    if n > 0 {
      BlockAtIsModular(ring, n - 1);
      var size := ring.last - ring.first + 1;
      var q, r := (n - 1) / size, (n - 1) % size;
      if r == size - 1 {
        QuotientUnique(n, size, q + 1, 0);
      } else {
        QuotientUnique(n, size, q, r + 1);
      }
    }
  }

  datatype Tx = Tx(fsm: TxFsm, wordType: WordType, data: Word, holding: Word, holdingFull: bool, count: nat)

  /** What the sender does in a clock: its next registers, whether it reads the RAM, whether
      it begins or ends a packet. */
  datatype TxStep = TxStep(tx: Tx, read: bool, begins: bool, ends: bool)

  // ----- what the words of a packet carry -----

  /** The words offered after the start word of a packet, and the places of the block they
      were read from: 0 to 31, and 32 for the word behind the block. */
  datatype Packet = Packet(places: seq<nat>, words: seq<Word>)

  /** The places go up one by one from 0; a place may come several times running. */
  predicate InOrder(places: seq<nat>) {
    && (places != [] ==> places[0] == 0)
    && forall k | 0 < k < |places| :: places[k - 1] <= places[k] <= places[k - 1] + 1
  }

  /** The words are those at their places. */
  predicate ReadFrom(p: Packet, block: seq<Word>) {
    && |p.words| == |p.places|
    && forall k | 0 <= k < |p.places| :: p.places[k] < |block| && p.words[k] == block[p.places[k]]
  }

  /** How far the packet has come: while it is open the count is the place to be read next,
      or that of the word that was just sent out of the holding register. */
  predicate ComeTo(tx: Tx, places: seq<nat>) {
    InOrder(places)
    && match tx.fsm
       case TxIdle => true
       case PushOut => if places == [] then tx.count == 0
                       else tx.count == places[|places| - 1] || tx.count == places[|places| - 1] + 1
       case PushLast => tx.count == BLOCK_WORDS && places != [] && places[|places| - 1] == BLOCK_WORDS - 1
       case PushComplete => |places| > 1 && places[|places| - 1] == BLOCK_WORDS
                            && places[|places| - 2] == BLOCK_WORDS - 1
  }

  predicate Offers(tx: Tx) {
    tx.wordType.Data? || tx.wordType.Last?
  }

  /** The packet so far against the sender and, if it is known, the contents of the block. */
  predicate Sending(tx: Tx, p: Packet, block: seq<Word>, known: bool)
    requires tx.count < |block|
  {
    && ComeTo(tx, p.places) && |p.words| == |p.places|
    && (Offers(tx) ==> p.words != [] && p.words[|p.words| - 1] == tx.data)
    && (known ==> ReadFrom(p, block))
    && (known && (tx.fsm.PushOut? || tx.fsm.PushLast?) && tx.holdingFull ==> tx.holding == block[tx.count])
  }

  /** The packet after a clock. */
  function NextPacket(p: Packet, tx: Tx, taken: bool, s: TxStep): (q: Packet) {
    if s.begins then Packet([], [])
    else if taken && Offers(s.tx) then Packet(p.places + [tx.count], p.words + [s.tx.data])
    else p
  }

  lemma NothingSent(tx: Tx, block: seq<Word>)
    ensures InOrder([]) && ReadFrom(Packet([], []), block)
    ensures tx.fsm.PushOut? && !tx.holdingFull && tx.count == 0 && tx.count < |block| && !Offers(tx)
            ==> Sending(tx, Packet([], []), block, true)
  {
  }

  /** Without knowing the contents of the block. */
  lemma Unknown(tx: Tx, p: Packet, block: seq<Word>, known: bool, other: seq<Word>)
    requires |other| == |block| && tx.count < |block| && Sending(tx, p, block, known)
    ensures Sending(tx, p, other, false)
  {
  }

  lemma OneMorePlace(p: Packet, place: nat, w: Word, block: seq<Word>)
    requires InOrder(p.places) && |p.words| == |p.places|
    requires if p.places == [] then place == 0
             else p.places[|p.places| - 1] <= place <= p.places[|p.places| - 1] + 1
    ensures InOrder(p.places + [place])
    ensures ReadFrom(p, block) && place < |block| && w == block[place]
            ==> ReadFrom(Packet(p.places + [place], p.words + [w]), block)
  {
  }

  /** A packet whose last word is offered has gone through the whole block, place by place,
      and has then taken one word more. */
  lemma {:induction false} GoesThrough(places: seq<nat>, p: nat)
    requires InOrder(places) && places != [] && p <= places[|places| - 1]
    ensures exists k :: 0 <= k < |places| && places[k] == p
    decreases |places|
  {
    if p != places[|places| - 1] {
      var shorter := places[..|places| - 1];
      GoesThrough(shorter, p);
      var k :| 0 <= k < |shorter| && shorter[k] == p;
      assert places[k] == p;
    }
  }

  lemma {:induction false} Climbs(places: seq<nat>, j: nat, k: nat)
    requires InOrder(places) && j <= k < |places|
    ensures places[j] <= places[k] <= places[j] + k - j && places[0] == 0
    decreases k
  {
    if j < k {
      Climbs(places, j, k - 1);
    }
  }

  /** The transmit state machine. */
  method StepTx(tx: Tx, pending: bool, header: Word, taken: bool, lastRead: bool, readData: Word,
                ghost packet: Packet, ghost block: seq<Word>, ghost known: bool)
    returns (s: TxStep)
    requires TxOk(tx) && |block| == BLOCK_WORDS + 1
    requires Sending(tx, packet, block, known)
    requires known && !tx.fsm.TxIdle? && lastRead ==> readData == block[tx.count]
    ensures TxOk(s.tx)
    ensures Sending(s.tx, NextPacket(packet, tx, taken, s), block, known)
    ensures s.begins ==> s.tx.fsm.PushOut? && !s.tx.holdingFull && s.tx.count == 0
    ensures taken && Offers(s.tx) ==> tx.fsm.PushOut? || tx.fsm.PushLast?
    ensures s.begins <==> tx.fsm.TxIdle? && pending
    ensures s.ends <==> tx.fsm.PushComplete? && taken
    ensures tx.fsm.PushComplete? <==> tx.wordType.Last?
    ensures s.read ==> !s.ends
    // what was read is offered as soon as the bus is free, and the next word is asked for
    ensures (tx.fsm.PushOut? || tx.fsm.PushLast?) && taken ==> (Offers(s.tx) <==> tx.holdingFull || lastRead)
    ensures tx.fsm.PushOut? ==> (s.read <==> taken || !lastRead)
    ensures tx.fsm.PushLast? ==> (s.read <==> !lastRead && !(taken && tx.holdingFull))
    // the place moves on but for a word out of the holding register, which comes again
    ensures taken && tx.fsm.PushOut? && Offers(s.tx) ==> s.tx.count == tx.count + (if tx.holdingFull then 0 else 1)
    ensures s.tx.count <= BLOCK_WORDS && (s.tx.fsm.TxIdle? ==> s.tx.wordType.IdleOrHold?)
    ensures !tx.fsm.TxIdle? && !taken ==> s.tx.wordType == tx.wordType && s.tx.data == tx.data
    ensures s.tx.fsm.TxIdle? <==> s.ends || (tx.fsm.TxIdle? && !s.begins)
    ensures s.begins ==> s.tx.wordType.Start? && s.tx.data == header
    ensures IsOpen(s.tx)
        <==> (if taken then NextParse(if IsOpen(tx) then Open else Between, tx.wordType).Open? else IsOpen(tx))
    ensures taken ==> !NextParse(if IsOpen(tx) then Open else Between, tx.wordType).Wrong?
  {
    hide InOrder, ReadFrom;
    NothingSent(tx, block);
    if tx.fsm.PushOut? || tx.fsm.PushLast? {
      OneMorePlace(packet, tx.count, if tx.holdingFull then tx.holding else readData, block);
    }
    s := TxStep(tx, false, false, false);
    match tx.fsm {
      case TxIdle =>
        s := s.(tx := tx.(wordType := IdleOrHold));
        if pending {
          s := TxStep(Tx(PushOut, Start, header, tx.holding, false, 0), true, true, false);
        }
      case PushOut =>
        if taken {
          if tx.holdingFull {
            s := s.(tx := tx.(wordType := Data, data := tx.holding, holdingFull := false), read := true);
          } else if lastRead {
            s := s.(tx := tx.(wordType := Data, data := readData, count := tx.count + 1), read := true);
            if s.tx.count == BLOCK_WORDS {
              s := s.(tx := s.tx.(fsm := PushLast));
            }
          } else {
            s := s.(tx := tx.(wordType := IdleOrHold), read := true);
          }
        } else if lastRead {
          s := s.(tx := tx.(holding := readData, holdingFull := true));
        } else {
          s := s.(read := true);
        }
      case PushLast =>
        if taken {
          if tx.holdingFull {
            s := s.(tx := tx.(wordType := Last, data := tx.holding, fsm := PushComplete));
          } else if lastRead {
            s := s.(tx := tx.(wordType := Last, data := readData, fsm := PushComplete));
          } else {
            s := s.(tx := tx.(wordType := IdleOrHold), read := true);
          }
        } else if lastRead {
          s := s.(tx := tx.(holding := readData, holdingFull := true));
        } else {
          s := s.(read := true);
        }
      case PushComplete =>
        if taken {
          s := TxStep(tx.(wordType := IdleOrHold, fsm := TxIdle), false, false, true);
        }
    }
  }

  /** The word on the bus fits the state. */
  predicate TxOk(tx: Tx) {
    && tx.count <= BLOCK_WORDS
    && match tx.fsm
       case TxIdle => tx.wordType.IdleOrHold?
       case PushOut => !tx.wordType.Last? && tx.count < BLOCK_WORDS
       case PushLast => tx.wordType.Data? || tx.wordType.IdleOrHold?
       case PushComplete => tx.wordType.Last?
  }

  /** The start word of the packet has been accepted. */
  predicate IsOpen(tx: Tx) {
    !tx.fsm.TxIdle? && !tx.wordType.Start?
  }

  /** The words that a packet of a block carries: its own and the one that count 32 reaches. */
  ghost function BlockWords(ram: seq<Word>, block: nat): (words: seq<Word>)
    ensures |words| == BLOCK_WORDS + 1
  {
    seq(BLOCK_WORDS + 1, p requires 0 <= p <= BLOCK_WORDS =>
      var a := ReadAddress(block, p); if a < |ram| then ram[a] else 0)
  }

  /** A packet of the block reads this address. */
  ghost predicate InBlock(block: nat, address: nat) {
    exists p: nat :: p <= BLOCK_WORDS && ReadAddress(block, p) == address
  }

  lemma BlockWord(ram: seq<Word>, block: nat, p: nat)
    requires p <= BLOCK_WORDS
    ensures ReadAddress(block, p) < |ram| ==> BlockWords(ram, block)[p] == ram[ReadAddress(block, p)]
  {
  }

  lemma OtherBlockKept(ram: seq<Word>, block: nat, address: nat, w: Word)
    requires address < |ram| && !InBlock(block, address)
    ensures BlockWords(ram[address := w], block) == BlockWords(ram, block)
  {
    hide ReadAddress;
    forall p: nat | p <= BLOCK_WORDS
      ensures BlockWords(ram[address := w], block)[p] == BlockWords(ram, block)[p] {
      assert ReadAddress(block, p) != address;
    }
  }

  class SampleMemory {
    const ring: Ring
    var bufferFsm: BufferFsm
    var readBlock: nat
    var writeBlock: nat
    var posn: nat
    var overflowed: bool
    var header: Word
    var tx: Tx
    const ram: array<Word>
    var lastRead: bool
    var readData: Word

    // the words the bus has taken, the words offered in the packet, and whether no sample
    // has gone into its block since it began
    ghost var accepted: seq<WordType>
    ghost var packet: Packet
    ghost var untouched: bool

    /** The accepted words follow the grammar; every packet has moved the read block one place
        round the ring; all blocks are in the ring and all addresses in the RAM. */
    ghost predicate Valid()
      reads this, ram
    {
      && Sound()
      && var block := BlockWords(ram[..], readBlock);
         && Sending(tx, packet, block, untouched)
         && (untouched && !tx.fsm.TxIdle? && lastRead ==> readData == block[tx.count])
    }

    ghost predicate Sound()
      reads `bufferFsm, `readBlock, `writeBlock, `posn, `tx, `accepted
    {
      && ring.first <= ring.last && ring.last * BLOCK_WORDS + 63 < RAM_WORDS && ram.Length == RAM_WORDS
      && ring.first <= writeBlock <= ring.last && posn < BLOCK_WORDS
      && TxOk(tx) && ParseOf(accepted) == (if IsOpen(tx) then Open else Between)
      && readBlock == BlockAt(ring, Packets(accepted))
      && (bufferFsm.PushInProgress? <==> !tx.fsm.TxIdle?)
    }

    constructor (ring: Ring, header: Word)
      requires ring.first <= ring.last && ring.last * BLOCK_WORDS + 63 < RAM_WORDS
      ensures Valid() && accepted == [] && packet == Packet([], []) && this.ring == ring
    {
      this.ring := ring;
      bufferFsm, readBlock, writeBlock := BufferIdle, ring.first, ring.first;
      posn, overflowed, this.header := 0, false, header;
      tx := Tx(TxIdle, IdleOrHold, 0, 0, false, 0);
      ram := new Word[RAM_WORDS](_ => 0);
      lastRead, readData, accepted, packet, untouched := false, 0, [], Packet([], []), false;
    }

    /** Moves the write side on by one word. */
    method AdvanceWrite()
      requires ring.first <= writeBlock <= ring.last && posn < BLOCK_WORDS
      modifies `posn, `writeBlock, `overflowed, `bufferFsm
      ensures ring.first <= writeBlock <= ring.last && posn == (old(posn) + 1) % BLOCK_WORDS
      ensures writeBlock == if posn == 0 then NextBlock(ring, old(writeBlock)) else old(writeBlock)
      ensures bufferFsm == if posn == 0 && old(bufferFsm).BufferIdle? && header != 0 then PushPending
                           else old(bufferFsm)
      ensures overflowed <==> old(overflowed) || (posn == 0 && writeBlock == readBlock)
    {
      posn := (posn + 1) % BLOCK_WORDS;
      if posn == 0 {
        if writeBlock == ring.last {
          writeBlock := ring.first;
        } else {
          writeBlock := writeBlock + 1;
        }
        if writeBlock == readBlock {
          overflowed := true;
        }
        if bufferFsm.BufferIdle? && header != 0 {
          bufferFsm := PushPending;
        }
      }
    }

    /** The record buffer in a clock in which a sample comes in or a packet begins or ends. */
    method MoveBlocks(sampleValid: bool, begins: bool, ends: bool)
      requires ring.first <= writeBlock <= ring.last && posn < BLOCK_WORDS
      requires begins ==> bufferFsm.PushPending? && !ends
      requires ends ==> bufferFsm.PushInProgress?
      modifies `posn, `writeBlock, `overflowed, `bufferFsm, `readBlock
      ensures ring.first <= writeBlock <= ring.last && posn < BLOCK_WORDS
      ensures posn == if sampleValid then (old(posn) + 1) % BLOCK_WORDS else old(posn)
      ensures writeBlock == if sampleValid && old(posn) == BLOCK_WORDS - 1 then NextBlock(ring, old(writeBlock))
                            else old(writeBlock)
      ensures readBlock == if ends then NextBlock(ring, old(readBlock)) else old(readBlock)
      ensures overflowed <==> old(overflowed)
                              || (sampleValid && old(posn) == BLOCK_WORDS - 1 && writeBlock == old(readBlock))
      ensures bufferFsm == if begins then PushInProgress
                           else if ends then (if old(writeBlock) != readBlock then PushPending else BufferIdle)
                           else if old(bufferFsm).BufferIdle? && header != 0 && sampleValid
                                   && old(posn) == BLOCK_WORDS - 1
                           then PushPending
                           else old(bufferFsm)
    {
      hide NextBlock;
      var wasWriteBlock := writeBlock;
      if sampleValid {
        AdvanceWrite();
      }
      if begins {
        bufferFsm := PushInProgress;
      }
      if ends {
        readBlock := NextBlock(ring, readBlock);
        bufferFsm := if wasWriteBlock != readBlock then PushPending else BufferIdle;
      }
    }

    /** What a clock does to the registers. */
    twostate predicate RegistersFollow(sampleValid: bool, taken: bool)
      reads `bufferFsm, `readBlock, `writeBlock, `posn, `overflowed, `header, `tx, `accepted, `packet
    {
      && accepted == (if taken then old(accepted) + [old(tx).wordType] else old(accepted))
      && (!taken && !old(tx).fsm.TxIdle? ==> tx.wordType == old(tx).wordType && tx.data == old(tx).data)
      && readBlock == (if taken && old(tx).wordType.Last? then NextBlock(ring, old(readBlock)) else old(readBlock))
      // an idle sender begins a packet exactly when a block is pending
      && (old(tx).fsm.TxIdle? ==>
            if old(bufferFsm).PushPending? then tx.wordType.Start? && tx.data == header else tx.fsm.TxIdle?)
      // a block becomes pending when it is filled or when others are left after a packet
      && bufferFsm == (if old(tx).fsm.TxIdle? && old(bufferFsm).PushPending? then PushInProgress
                       else if taken && old(tx).wordType.Last?
                       then (if old(writeBlock) != readBlock then PushPending else BufferIdle)
                       else if old(bufferFsm).BufferIdle? && header != 0 && sampleValid
                               && old(posn) == BLOCK_WORDS - 1
                       then PushPending
                       else old(bufferFsm))
      // each sample takes the next place of the ring; filling the block to be read next is an overflow
      && posn == (if sampleValid then (old(posn) + 1) % BLOCK_WORDS else old(posn))
      && writeBlock == (if sampleValid && old(posn) == BLOCK_WORDS - 1 then NextBlock(ring, old(writeBlock))
                        else old(writeBlock))
      && (overflowed <==> old(overflowed)
                          || (sampleValid && old(posn) == BLOCK_WORDS - 1 && writeBlock == old(readBlock)))
      && header == old(header)
      // the words of a packet are those offered on the bus
      && packet.words == (if old(tx).fsm.TxIdle? && tx.wordType.Start? then []
                          else if taken && Offers(tx) then old(packet).words + [tx.data]
                          else old(packet).words)
    }

    /** The registers after a clock, and what is wanted of the RAM. */
    method Preclock(sampleValid: bool, taken: bool, ghost block: seq<Word>)
      returns (wanted: bool, writeAddress: nat, readAddress: nat)
      requires Sound() && |block| == BLOCK_WORDS + 1 && Sending(tx, packet, block, untouched)
      requires untouched && !tx.fsm.TxIdle? && lastRead ==> readData == block[tx.count]
      modifies `bufferFsm, `readBlock, `writeBlock, `posn, `overflowed, `tx, `accepted, `packet
      ensures Sound() && RegistersFollow(sampleValid, taken)
      ensures writeAddress == old(writeBlock) * BLOCK_WORDS + old(posn) < RAM_WORDS
      ensures readAddress == ReadAddress(old(readBlock), tx.count) < RAM_WORDS
      ensures wanted || !(taken && old(tx).wordType.Last?) ==> readBlock == old(readBlock)
      ensures Sending(tx, packet, block, untouched)
      ensures old(tx).fsm.TxIdle? && !tx.fsm.TxIdle? ==>
                packet == Packet([], []) && tx.fsm.PushOut? && !tx.holdingFull && tx.count == 0 && !Offers(tx)
    {
      hide ParseOf, Packets, NextBlock, NextParse, ReadAddress, Sending, InBlock, TxOk, IsOpen, BlockAt;
      writeAddress := writeBlock * BLOCK_WORDS + posn;
      readAddress := readBlock;
      var step := StepTx(tx, bufferFsm.PushPending?, header, taken, lastRead, readData,
                         packet, block, untouched);
      readAddress, wanted := ReadAddress(readBlock, step.tx.count), step.read;
      packet := NextPacket(packet, tx, taken, step);
      OneMoreWord(accepted, tx.wordType);
      OneMorePacket(ring, Packets(accepted));
      MoveBlocks(sampleValid, step.begins, step.ends);
      accepted := if taken then accepted + [tx.wordType] else accepted;
      tx := step.tx;
    }

    /** One clock: a sample may come in, the bus may take the word it is offered, and the RAM
        is written, or else read when the sender wants it. */
    method Clock(sampleValid: bool, iq: Word, taken: bool)
      requires Valid()
      modifies this, ram
      ensures Valid() && RegistersFollow(sampleValid, taken)
      ensures ram[..] == if sampleValid then old(ram[..])[old(writeBlock) * BLOCK_WORDS + old(posn) := iq]
                         else old(ram[..])
      ensures old(tx).fsm.TxIdle? && !tx.fsm.TxIdle? ==> untouched
      ensures old(untouched) && !(taken && old(tx).wordType.Last?)
              ==> untouched || (sampleValid && InBlock(readBlock, old(writeBlock) * BLOCK_WORDS + old(posn)))
    {
      hide Sound, RegistersFollow, NextBlock, ReadAddress, Sending, BlockWords, InBlock, TxOk;
      ghost var was := ram[..];
      Bounds();
      var wanted, writeAddress, readAddress := Preclock(sampleValid, taken, BlockWords(was, readBlock));
      Bounds();
      UseRam(sampleValid, writeAddress, iq, wanted, readAddress);
      untouched := (old(tx).fsm.TxIdle? && !tx.fsm.TxIdle?)
                   || (untouched && !(taken && old(tx).wordType.Last?)
                       && !(sampleValid && InBlock(readBlock, writeAddress)));
      ghost var block := BlockWords(ram[..], readBlock);
      if old(tx).fsm.TxIdle? && !tx.fsm.TxIdle? {
        NothingSent(tx, block);
      } else if !untouched {
        Unknown(tx, packet, BlockWords(was, old(readBlock)), old(untouched), block);
      } else if sampleValid {
        OtherBlockKept(was, readBlock, writeAddress, iq);
      }
      if lastRead {
        BlockWord(ram[..], readBlock, tx.count);
      }
    }

    lemma Bounds()
      requires Sound()
      ensures tx.count <= BLOCK_WORDS && ram.Length == RAM_WORDS
    {
    }

    /** When the last word of a packet is offered, the packet has carried every word of its
        block in order, and one word more from behind it. */
    lemma PacketCarriesBlock(p: nat)
      requires Valid() && tx.wordType.Last? && p <= BLOCK_WORDS
      ensures var places := packet.places;
              && InOrder(places) && |places| > BLOCK_WORDS
              && (exists k :: 0 <= k < |places| && places[k] == p)
              && (forall k | 0 <= k < |places| :: places[k] == BLOCK_WORDS <==> k == |places| - 1)
      ensures untouched ==> ReadFrom(packet, BlockWords(ram[..], readBlock))
    {
      hide ReadFrom, InOrder;
      var places := packet.places;
      var n := |places|;
      GoesThrough(places, p);
      Climbs(places, 0, n - 1);
      forall k | 0 <= k < n ensures places[k] == BLOCK_WORDS <==> k == n - 1 {
        if k < n - 1 {
          Climbs(places, k, n - 2);
        }
      }
    }

    /** The port of the RAM: a write keeps a read out. */
    method UseRam(writes: bool, writeAddress: nat, iq: Word, wanted: bool, readAddress: nat)
      requires ram.Length == RAM_WORDS && writeAddress < RAM_WORDS && (wanted ==> readAddress < RAM_WORDS)
      modifies ram, `lastRead, `readData
      ensures ram[..] == if writes then old(ram[..])[writeAddress := iq] else old(ram[..])
      ensures lastRead <==> wanted && !writes
      ensures readData == if lastRead then ram[readAddress] else old(readData)
    {
      lastRead := false;
      if writes {
        ram[writeAddress] := iq;
      } else if wanted {
        readData := ram[readAddress];
        lastRead := true;
      }
    }
  }

  /** Block and count are joined by a bitwise or; a count of 32 reaches into the next block. */
  function ReadAddress(block: nat, count: nat): (a: nat)
    requires count <= BLOCK_WORDS
    ensures a <= block * BLOCK_WORDS + BLOCK_WORDS
  {
    if count < BLOCK_WORDS then block * BLOCK_WORDS + count
    else if block % 2 == 1 then block * BLOCK_WORDS else block * BLOCK_WORDS + BLOCK_WORDS
  }

  /** The address is the shifted block number or-ed with the count. */
  lemma ReadAddressIsOr(block: nat, count: nat)
    requires count <= BLOCK_WORDS
    ensures ReadAddress(block, count) == Or(block * BLOCK_WORDS, count)
  {
    hide And, Or, ReadAddress;
    var b1 := 2 * block;
    var b2 := 2 * b1;
    var b3 := 2 * b2;
    var b4 := 2 * b3;
    var c1 := count / 2;
    var c2 := c1 / 2;
    var c3 := c2 / 2;
    var c4 := c3 / 2;
    AndHalves(b4, count);
    AndHalves(b3, c1);
    AndHalves(b2, c2);
    AndHalves(b1, c3);
    AndHalves(block, c4);
    AndLowBit(block, c4 / 2);
    AddressIsSum(block, count);
    OrIsSum(2 * b4, count);
  }

  lemma OrIsSum(x: nat, y: nat)
    ensures Or(x, y) == x + y - And(x, y)
  {
  }

  lemma AddressIsSum(block: nat, count: nat)
    requires count <= BLOCK_WORDS
    ensures ReadAddress(block, count)
         == block * 32 + count - (if count == BLOCK_WORDS then block % 2 * 32 else 0)
  {
  }

  lemma AndLowBit(x: nat, b: nat)
    requires b <= 1
    ensures And(x, b) == if b == 1 then x % 2 else 0
  {
    AndUnfolds(x, b);
  }

  lemma AndHalves(x: nat, y: nat)
    ensures And(2 * x, y) == 2 * And(x, y / 2)
  {
    hide *;
    AndUnfolds(2 * x, y);
    AndUnfolds(x, y / 2);
  }

  lemma AndUnfolds(x: nat, y: nat)
    ensures And(x, y) == 2 * And(x / 2, y / 2) + (x % 2) * (y % 2)
  {
  }
}
