/** ARM instruction words written with place values (ARM DDI 0100, sections A3 and A5 and the
    entries of chapter A4), and what the decoders of the models read in them. */
module ArmEncoding {
  import opened Words
  import opened GipInstruction
  import opened ArmOpcode
  import opened ArmShifter
  import opened ArmDataProcessing
  import opened ArmDecoder
  import opened ArmBranch
  import opened ArmLoadStore
  import opened ArmBlockTransfer
  import opened GipSingle

  // ----- reading a number that is a sum of places -----

  /** Place p of x, w values wide, holds f. */
  lemma Place(x: int, p: int, w: int, hi: int, f: int, lo: int)
    requires p > 0 && w > 0 && 0 <= lo < p && 0 <= f < w && x == (hi * w + f) * p + lo
    ensures x / p % w == f
  {
    QuotientUnique(x, p, hi * w + f, lo);
    RemainderShift(f, w, hi);
    QuotientUnique(f, w, 0, f);
    assert f + hi * w == hi * w + f;
  }

  /** A place and what is above it, put together again. */
  lemma Joined(x: nat, p: nat, w: nat)
    requires p > 0 && w > 0
    ensures p * w > 0 && x / p == x / (p * w) * w + x / p % w
  {
    var q, f, lo := x / p / w, x / p % w, x % p;
    assert x == (q * w + f) * p + lo;
    assert (q * w + f) * p == q * (p * w) + f * p;
    TimesMonotone(f + 1, w, p);
    QuotientUnique(x, p * w, q, f * p + lo);
  }

  lemma DivideTwice(x: nat, p: nat, q: nat)
    requires p > 0 && q > 0
    ensures p * q > 0 && x / (p * q) == x / p / q
  {
    var f, lo := x / p % q, x % p;
    assert x == (x / p / q * q + f) * p + lo;
    assert (x / p / q * q + f) * p == x / p / q * (p * q) + f * p;
    TimesMonotone(f + 1, q, p);
    QuotientUnique(x, p * q, x / p / q, f * p + lo);
  }

  // ----- data processing -----

  function OpNumber(op: AluOp): (n: Nibble) {
    match op
    case OpAnd => 0
    case OpEor => 1
    case OpSub => 2
    case OpRsb => 3
    case OpAdd => 4
    case OpAdc => 5
    case OpSbc => 6
    case OpRsc => 7
    case OpTst => 8
    case OpTeq => 9
    case OpCmp => 10
    case OpCmn => 11
    case OpOrr => 12
    case OpMov => 13
    case OpBic => 14
    case OpMvn => 15
  }

  function ShiftNumber(how: ShiftHow): (n: nat)
    ensures n < 4
  {
    match how
    case HowLsl => 0
    case HowLsr => 1
    case HowAsr => 2
    case HowRor => 3
  }

  /** The low twelve bits. */
  function OperandBits(o: ShifterOperand): (n: nat)
    requires o.RotatedImmediate? ==> o.value < 0x100
    ensures n < 0x1000
  {
    match o
    case RotatedImmediate(rotate, value) => rotate * 0x100 + value
    case ByImmediate(rm, how, amount) => amount * 0x80 + ShiftNumber(how) * 0x20 + rm
    case ByRegister(rm, how, rs) => rs * 0x100 + ShiftNumber(how) * 0x20 + 0x10 + rm
  }

  function Encode(i: DataProcessing): (w: Word)
    requires i.operand.RotatedImmediate? ==> i.operand.value < 0x100
  {
    i.cc * 0x1000_0000 + BitValue(i.operand.RotatedImmediate?) * 0x200_0000 + OpNumber(i.op) * 0x20_0000
    + BitValue(i.s) * 0x10_0000 + i.rn * 0x1_0000 + i.rd * 0x1000 + OperandBits(i.operand)
  }

  /** The places above the operand. */
  lemma UpperPlaces(x: int, cc: Nibble, class_: nat, op: Nibble, s: nat, rn: Nibble, rd: Nibble, low: nat)
    requires class_ < 8 && s < 2 && low < 0x1000
    requires x == cc * 0x1000_0000 + class_ * 0x200_0000 + op * 0x20_0000 + s * 0x10_0000 + rn * 0x1_0000
                  + rd * 0x1000 + low
    ensures x / 0x1000_0000 % 16 == cc && x / 0x200_0000 % 8 == class_ && x / 0x20_0000 % 16 == op
    ensures x / 0x10_0000 % 2 == s && x / 0x1_0000 % 16 == rn && x / 0x1000 % 16 == rd && x % 0x1000 == low
  {
    var below := op * 0x20_0000 + s * 0x10_0000 + rn * 0x1_0000 + rd * 0x1000 + low;
    Place(x, 0x1000_0000, 16, 0, cc, class_ * 0x200_0000 + below);
    Place(x, 0x200_0000, 8, cc, class_, below);
    Place(x, 0x20_0000, 16, cc * 8 + class_, op, below - op * 0x20_0000);
    var above := (cc * 8 + class_) * 16 + op;
    Place(x, 0x10_0000, 2, above, s, rn * 0x1_0000 + rd * 0x1000 + low);
    Place(x, 0x1_0000, 16, above * 2 + s, rn, rd * 0x1000 + low);
    Place(x, 0x1000, 16, (above * 2 + s) * 16 + rn, rd, low);
    QuotientUnique(x, 0x1000, ((above * 2 + s) * 16 + rn) * 16 + rd, low);
  }

  lemma OperandPlaces(x: nat, o: ShifterOperand, top: nat)
    requires o.RotatedImmediate? ==> o.value < 0x100
    requires x == top * 0x1000 + OperandBits(o)
    ensures match o
            case RotatedImmediate(rotate, value) => x / 0x100 % 16 == rotate && x % 0x100 == value
            case ByImmediate(rm, how, amount) =>
              x / 0x80 % 32 == amount && x / 0x20 % 4 == ShiftNumber(how) && x / 0x10 % 2 == 0 && x % 16 == rm
            case ByRegister(rm, how, rs) =>
              && x / 0x100 % 16 == rs && x / 0x80 % 2 == 0 && x / 0x20 % 4 == ShiftNumber(how)
              && x / 0x10 % 2 == 1 && x % 16 == rm
  {
    match o
    case RotatedImmediate(rotate, value) =>
      Place(x, 0x100, 16, top, rotate, value);
      Place(x, 1, 0x100, top * 16 + rotate, value, 0);
    case ByImmediate(rm, how, amount) =>
      var n := ShiftNumber(how);
      Place(x, 0x80, 32, top, amount, n * 0x20 + rm);
      Place(x, 0x20, 4, top * 32 + amount, n, rm);
      Place(x, 0x10, 2, (top * 32 + amount) * 4 + n, 0, rm);
      Place(x, 1, 16, ((top * 32 + amount) * 4 + n) * 2, rm, 0);
    case ByRegister(rm, how, rs) =>
      var n := ShiftNumber(how);
      Place(x, 0x100, 16, top, rs, n * 0x20 + 0x10 + rm);
      Place(x, 0x80, 2, top * 16 + rs, 0, n * 0x20 + 0x10 + rm);
      Place(x, 0x20, 4, (top * 16 + rs) * 2, n, 0x10 + rm);
      Place(x, 0x10, 2, ((top * 16 + rs) * 2) * 4 + n, 1, rm);
      Place(x, 1, 16, (((top * 16 + rs) * 2) * 4 + n) * 2 + 1, rm, 0);
  }

  lemma NumbersAreRead(op: AluOp, how: ShiftHow)
    ensures AluOpOf(OpNumber(op)) == op && ShiftHowOf(ShiftNumber(how)) == how
  {
  }

  /** The decoder reads every data-processing instruction as it was written: all sixteen
      operations, all three operand forms, all four shifts. */
  lemma DecodesWhatWasEncoded(i: DataProcessing)
    requires i.operand.RotatedImmediate? ==> i.operand.value < 0x100
    ensures Fields(Encode(i), i.pc) == i
    ensures IsDataProcessing(Encode(i)) <==> Encode(i) / 0x100 != 0xf0_0000
  {
    var x := Encode(i);
    var imm := BitValue(i.operand.RotatedImmediate?);
    UpperPlaces(x, i.cc, imm, OpNumber(i.op), BitValue(i.s), i.rn, i.rd, OperandBits(i.operand));
    var top := i.cc * 0x1_0000 + imm * 0x2000 + OpNumber(i.op) * 0x200 + BitValue(i.s) * 0x100 + i.rn * 0x10 + i.rd;
    OperandPlaces(x, i.operand, top);
    Place(x, 0x400_0000, 4, i.cc, 0, x - i.cc * 0x1000_0000);
    Place(x, 0x200_0000, 2, i.cc * 4, imm, x - i.cc * 0x1000_0000 - imm * 0x200_0000);
    NumbersAreRead(i.op, if i.operand.RotatedImmediate? then HowLsl else i.operand.how);
    hide Encode, OperandBits, OpNumber, ShiftNumber, AluOpOf, ShiftHowOf;
    assert x / 1 == x;
  }

  /** A data-processing word is the sum of its places. */
  lemma UpperSum(x: Word)
    ensures x == x / 0x1000_0000 % 16 * 0x1000_0000 + x / 0x200_0000 % 8 * 0x200_0000 + x / 0x20_0000 % 16 * 0x20_0000
                 + x / 0x10_0000 % 2 * 0x10_0000 + x / 0x1_0000 % 16 * 0x1_0000 + x / 0x1000 % 16 * 0x1000 + x % 0x1000
  {
    Joined(x, 0x1000, 16);
    Joined(x, 0x1_0000, 16);
    Joined(x, 0x10_0000, 2);
    Joined(x, 0x20_0000, 16);
    Joined(x, 0x200_0000, 8);
  }

  lemma LowerSums(x: Word)
    ensures x % 0x1000 == x / 0x100 % 16 * 0x100 + x % 0x100
    ensures x % 0x1000 == x / 0x80 % 32 * 0x80 + x / 0x20 % 4 * 0x20 + x / 0x10 % 2 * 0x10 + x % 16
    ensures x % 0x1000 == x / 0x100 % 16 * 0x100 + x / 0x80 % 2 * 0x80 + x / 0x20 % 4 * 0x20 + x / 0x10 % 2 * 0x10
        + x % 16
  {
    Joined(x, 0x10, 2);
    Joined(x, 0x20, 4);
    Joined(x, 0x80, 32);
    Joined(x, 0x80, 2);
    Joined(x, 0x100, 16);
  }

  lemma NumbersAreWritten(n: Nibble, k: nat)
    requires k < 4
    ensures OpNumber(AluOpOf(n)) == n && ShiftNumber(ShiftHowOf(k)) == k
  {
  }

  /** ... and there is no other word that it reads in the same way. */
  lemma EncodesWhatWasDecoded(x: Word, pc: Word)
    requires IsDataProcessing(x)
    ensures var i := Fields(x, pc);
            (i.operand.RotatedImmediate? ==> i.operand.value < 0x100) && Encode(i) == x
  {
    hide *;
    UpperSum(x);
    LowerSums(x);
    ClassBits(x);
    NumbersAreWritten(x / 0x20_0000 % 16, x / 0x20 % 4);
    ReadOperand(x);
    WrittenSum(x, pc);
  }

  /** Bits 27 and 26 are clear, so the three bits from 25 up are the immediate flag. */
  lemma ClassBits(x: Word)
    requires IsDataProcessing(x)
    ensures x / 0x200_0000 % 8 == BitValue(Flag(x, 0x200_0000))
  {
    DivideTwice(x, 0x200_0000, 2);
    var z := x / 0x200_0000;
    assert z / 2 % 4 == 0;
  }

  lemma ReadOperand(x: Word)
    requires IsDataProcessing(x) && ShiftNumber(ShiftHowOf(x / 0x20 % 4)) == x / 0x20 % 4
    requires x % 0x1000 == x / 0x100 % 16 * 0x100 + x % 0x100
    requires x % 0x1000 == x / 0x80 % 32 * 0x80 + x / 0x20 % 4 * 0x20 + x / 0x10 % 2 * 0x10 + x % 16
    requires x % 0x1000 == x / 0x100 % 16 * 0x100 + x / 0x80 % 2 * 0x80 + x / 0x20 % 4 * 0x20 + x / 0x10 % 2 * 0x10
                           + x % 16
    ensures var o := OperandField(x);
            && (o.RotatedImmediate? <==> Flag(x, 0x200_0000)) && (o.RotatedImmediate? ==> o.value < 0x100)
            && OperandBits(o) == x % 0x1000
  {
    hide ShiftNumber, ShiftHowOf;
    assert x / 1 == x;
  }

  lemma WrittenSum(x: Word, pc: Word)
    requires var o := OperandField(x);
             && (o.RotatedImmediate? <==> Flag(x, 0x200_0000)) && (o.RotatedImmediate? ==> o.value < 0x100)
             && OperandBits(o) == x % 0x1000
    requires OpNumber(AluOpOf(x / 0x20_0000 % 16)) == x / 0x20_0000 % 16
    requires x == x / 0x1000_0000 % 16 * 0x1000_0000 + BitValue(Flag(x, 0x200_0000)) * 0x200_0000
                  + x / 0x20_0000 % 16 * 0x20_0000 + x / 0x10_0000 % 2 * 0x10_0000 + x / 0x1_0000 % 16 * 0x1_0000
                  + x / 0x1000 % 16 * 0x1000 + x % 0x1000
    ensures var i := Fields(x, pc);
            (i.operand.RotatedImmediate? ==> i.operand.value < 0x100) && Encode(i) == x
  {
    hide OperandField, OperandBits, OpNumber, AluOpOf;
    assert BitValue(Flag(x, 0x10_0000)) == x / 0x10_0000 % 2;
  }

  // ----- word transfers -----

  function OffsetBits(o: Offset): (n: nat)
    requires o.ImmediateOffset? ==> o.value < 0x1000
    ensures n < 0x1000
  {
    match o
    case ImmediateOffset(value) => value
    case RegisterOffset(rm, how, amount) => amount * 0x80 + ShiftNumber(how) * 0x20 + rm
  }

  /** LDR and STR; bit 22 asks for a byte, which the models ignore. */
  function EncodeTransfer(t: Transfer, byte: bool): (w: Word)
    requires t.offset.ImmediateOffset? ==> t.offset.value < 0x1000
  {
    t.cc * 0x1000_0000 + 0x400_0000 + BitValue(t.offset.RegisterOffset?) * 0x200_0000 + BitValue(t.pre) * 0x100_0000
    + BitValue(t.up) * 0x80_0000 + BitValue(byte) * 0x40_0000 + BitValue(t.wb) * 0x20_0000
    + BitValue(t.load) * 0x10_0000 + t.rn * 0x1_0000 + t.rd * 0x1000 + OffsetBits(t.offset)
  }

  lemma TransferPlaces(x: int, cc: Nibble, imm: nat, p: nat, u: nat, b: nat, w: nat, l: nat, rn: Nibble, rd: Nibble,
                       low: nat)
    requires imm < 2 && p < 2 && u < 2 && b < 2 && w < 2 && l < 2 && low < 0x1000
    requires x == cc * 0x1000_0000 + 0x400_0000 + imm * 0x200_0000 + p * 0x100_0000 + u * 0x80_0000 + b * 0x40_0000
                  + w * 0x20_0000 + l * 0x10_0000 + rn * 0x1_0000 + rd * 0x1000 + low
    ensures x / 0x1000_0000 % 16 == cc && x / 0x400_0000 % 4 == 1 && x / 0x200_0000 % 2 == imm
    ensures x / 0x100_0000 % 2 == p && x / 0x80_0000 % 2 == u && x / 0x20_0000 % 2 == w && x / 0x10_0000 % 2 == l
    ensures x / 0x1_0000 % 16 == rn && x / 0x1000 % 16 == rd
  {
    var lower := l * 0x10_0000 + rn * 0x1_0000 + rd * 0x1000 + low;
    var flags := p * 0x100_0000 + u * 0x80_0000 + b * 0x40_0000 + w * 0x20_0000;
    UpperPlaces(x, cc, 2 + imm, p * 8 + u * 4 + b * 2 + w, l, rn, rd, low);
    Place(x, 0x400_0000, 4, cc, 1, imm * 0x200_0000 + flags + lower);
    Place(x, 0x200_0000, 2, cc * 4 + 1, imm, flags + lower);
    var up := cc * 8 + 2 + imm;
    Place(x, 0x100_0000, 2, up, p, u * 0x80_0000 + b * 0x40_0000 + w * 0x20_0000 + lower);
    Place(x, 0x80_0000, 2, up * 2 + p, u, b * 0x40_0000 + w * 0x20_0000 + lower);
    Place(x, 0x20_0000, 2, up * 8 + p * 4 + u * 2 + b, w, lower);
  }

  lemma TransferIsDecoded(t: Transfer, byte: bool)
    requires t.offset.ImmediateOffset? ==> t.offset.value < 0x1000
    ensures IsTransfer(EncodeTransfer(t, byte)) && TransferOf(EncodeTransfer(t, byte), t.pc) == t
  {
    hide *;
    var x, low := EncodeTransfer(t, byte), OffsetBits(t.offset);
    var imm, p, u, b := BitValue(t.offset.RegisterOffset?), BitValue(t.pre), BitValue(t.up), BitValue(byte);
    var w, l := BitValue(t.wb), BitValue(t.load);
    BitsAreSmall();
    TransferSum(t, byte);
    TransferPlaces(x, t.cc, imm, p, u, b, w, l, t.rn, t.rd, low);
    var top := t.cc * 0x1_0000 + 0x4000 + imm * 0x2000 + p * 0x1000 + u * 0x800 + b * 0x400 + w * 0x200 + l * 0x100
               + t.rn * 0x10 + t.rd;
    OffsetIsRead(x, t.offset, top);
    TransferIsRead(x, t);
  }

  lemma TransferSum(t: Transfer, byte: bool)
    requires t.offset.ImmediateOffset? ==> t.offset.value < 0x1000
    ensures EncodeTransfer(t, byte)
            == t.cc * 0x1000_0000 + 0x400_0000 + BitValue(t.offset.RegisterOffset?) * 0x200_0000
               + BitValue(t.pre) * 0x100_0000 + BitValue(t.up) * 0x80_0000 + BitValue(byte) * 0x40_0000
               + BitValue(t.wb) * 0x20_0000 + BitValue(t.load) * 0x10_0000 + t.rn * 0x1_0000 + t.rd * 0x1000
               + OffsetBits(t.offset)
  {
    hide BitValue, OffsetBits;
  }

  lemma BitsAreSmall()
    ensures forall b :: BitValue(b) < 2 && (BitValue(b) == 1 <==> b)
  {
  }

  lemma OffsetIsRead(x: nat, o: Offset, top: nat)
    requires o.ImmediateOffset? ==> o.value < 0x1000
    requires x == top * 0x1000 + OffsetBits(o)
    ensures match o
            case ImmediateOffset(value) => x % 0x1000 == value
            case RegisterOffset(rm, how, amount) =>
              x / 0x80 % 32 == amount && ShiftHowOf(x / 0x20 % 4) == how && x / 0x10 % 2 == 0 && x % 16 == rm
  {
    if o.RegisterOffset? {
      OperandPlaces(x, ByImmediate(o.rm, o.how, o.amount), top);
      NumbersAreRead(OpAnd, o.how);
    } else {
      QuotientUnique(x, 0x1000, top, OffsetBits(o));
    }
    hide ShiftNumber, ShiftHowOf;
  }

  lemma TransferIsRead(x: Word, t: Transfer)
    requires x / 0x1000_0000 % 16 == t.cc && x / 0x400_0000 % 4 == 1
    requires x / 0x200_0000 % 2 == BitValue(t.offset.RegisterOffset?)
    requires (x / 0x100_0000 % 2 == 1 <==> t.pre) && (x / 0x80_0000 % 2 == 1 <==> t.up)
    requires (x / 0x20_0000 % 2 == 1 <==> t.wb) && x / 0x10_0000 % 2 == BitValue(t.load)
    requires x / 0x1_0000 % 16 == t.rn && x / 0x1000 % 16 == t.rd
    requires match t.offset
             case ImmediateOffset(value) => x % 0x1000 == value
             case RegisterOffset(rm, how, amount) =>
               x / 0x80 % 32 == amount && ShiftHowOf(x / 0x20 % 4) == how && x / 0x10 % 2 == 0 && x % 16 == rm
    ensures IsTransfer(x) && TransferOf(x, t.pc) == t
  {
    hide ShiftHowOf;
    assert x / 1 == x;
  }

  // ----- block transfers -----

  /** Registers j to j + 3 as the digits of a number. */
  function FourBits(f: RegFlags, j: nat): (n: nat)
    requires j <= 12
  {
    BitValue(f[j]) + BitValue(f[j + 1]) * 2 + BitValue(f[j + 2]) * 4 + BitValue(f[j + 3]) * 8
  }

  /** Register j is bit j. */
  function ListBits(f: RegFlags): (n: nat) {
    FourBits(f, 0) + FourBits(f, 4) * 0x10 + FourBits(f, 8) * 0x100 + FourBits(f, 12) * 0x1000
  }

  function EncodeBlock(cc: Nibble, m: Mode, load: bool, flags: RegFlags): (n: nat) {
    cc * 0x1000_0000 + 0x800_0000 + BitValue(m.pre) * 0x100_0000 + BitValue(m.up) * 0x80_0000
    + BitValue(m.wb) * 0x20_0000 + BitValue(load) * 0x10_0000 + m.rn * 0x1_0000 + ListBits(flags)
  }

  /** What is above the list and its bits from j upwards, moved down to place one. */
  function BitsFrom(f: RegFlags, j: nat, above: nat): (n: nat)
    requires j <= 16
    decreases 16 - j
  {
    if j == 16 then above else BitValue(f[j]) + 2 * BitsFrom(f, j + 1, above)
  }

  lemma FourBitsFrom(f: RegFlags, j: nat, above: nat)
    requires j <= 12
    ensures BitsFrom(f, j, above) == FourBits(f, j) + BitsFrom(f, j + 4, above) * 0x10 && FourBits(f, j) < 16
  {
    assert BitsFrom(f, j, above) == BitValue(f[j]) + 2 * BitsFrom(f, j + 1, above);
    assert BitsFrom(f, j + 1, above) == BitValue(f[j + 1]) + 2 * BitsFrom(f, j + 2, above);
    assert BitsFrom(f, j + 2, above) == BitValue(f[j + 2]) + 2 * BitsFrom(f, j + 3, above);
    assert BitsFrom(f, j + 3, above) == BitValue(f[j + 3]) + 2 * BitsFrom(f, j + 4, above);
    hide BitsFrom;
  }

  lemma ListIsBits(f: RegFlags, above: nat)
    ensures BitsFrom(f, 0, above) == above * 0x1_0000 + ListBits(f) && ListBits(f) < 0x1_0000
  {
    hide FourBits, BitsFrom;
    FourBitsFrom(f, 0, above);
    FourBitsFrom(f, 4, above);
    FourBitsFrom(f, 8, above);
    FourBitsFrom(f, 12, above);
    assert BitsFrom(f, 16, above) == above by { NothingBelow(f, above); }
  }

  lemma NothingBelow(f: RegFlags, above: nat)
    ensures BitsFrom(f, 16, above) == above
  {
  }

  lemma {:induction false} BitOfList(f: RegFlags, j: nat, r: nat, above: nat)
    requires j <= r < 16
    ensures Bit(BitsFrom(f, j, above), r - j) <==> f[r]
    decreases r - j
  {
    var x, y := BitsFrom(f, j, above), BitsFrom(f, j + 1, above);
    assert x == 2 * y + BitValue(f[j]);
    hide BitsFrom;
    QuotientUnique(x, 2, y, BitValue(f[j]));
    if j < r {
      BitOfList(f, j + 1, r, above);
      DivideTwice(x, 2, Pow2(r - j - 1));
      assert Pow2(r - j) == 2 * Pow2(r - j - 1);
    } else {
      assert Pow2(0) == 1;
    }
  }

  lemma BlockPlaces(x: int, cc: Nibble, p: nat, u: nat, w: nat, l: nat, rn: Nibble, list: nat)
    requires p < 2 && u < 2 && w < 2 && l < 2 && list < 0x1_0000
    requires x == cc * 0x1000_0000 + 0x800_0000 + p * 0x100_0000 + u * 0x80_0000 + w * 0x20_0000 + l * 0x10_0000
                  + rn * 0x1_0000 + list
    ensures x / 0x1000_0000 % 16 == cc && x / 0x200_0000 % 8 == 4
    ensures x / 0x100_0000 % 2 == p && x / 0x80_0000 % 2 == u && x / 0x20_0000 % 2 == w && x / 0x10_0000 % 2 == l
    ensures x / 0x1_0000 % 16 == rn
  {
    UpperPlaces(x, cc, 4, p * 8 + u * 4 + w, l, rn, list / 0x1000, list % 0x1000);
    var up, lower := cc * 8 + 4, l * 0x10_0000 + rn * 0x1_0000 + list;
    Place(x, 0x100_0000, 2, up, p, u * 0x80_0000 + w * 0x20_0000 + lower);
    Place(x, 0x80_0000, 2, up * 2 + p, u, w * 0x20_0000 + lower);
    Place(x, 0x20_0000, 2, up * 8 + p * 4 + u * 2, w, lower);
  }

  lemma BlockIsDecoded(cc: Nibble, m: Mode, load: bool, flags: RegFlags)
    ensures var x := EncodeBlock(cc, m, load, flags);
            && x < 0x1_0000_0000 && IsBlockTransfer(x) && CcField(x) == cc && ListField(x) == flags
            && Mode(Flag(x, 0x100_0000), Flag(x, 0x80_0000), Flag(x, 0x20_0000), RegField(x, 0x1_0000)) == m
            && (Flag(x, 0x10_0000) <==> load)
  {
    hide ListBits, ListField, BitsFrom, BitValue;
    var x, list := EncodeBlock(cc, m, load, flags), ListBits(flags);
    var p, u, w, l := BitValue(m.pre), BitValue(m.up), BitValue(m.wb), BitValue(load);
    BitsAreSmall();
    var above := cc * 0x1000 + 4 * 0x200 + p * 0x100 + u * 0x80 + w * 0x20 + l * 0x10 + m.rn;
    ListIsBits(flags, above);
    ListIsRead(x, flags, above);
    BlockPlaces(x, cc, p, u, w, l, m.rn, list);
    hide EncodeBlock;
  }

  lemma ListIsRead(x: Word, flags: RegFlags, above: nat)
    requires x == BitsFrom(flags, 0, above)
    ensures ListField(x) == flags
  {
    hide Bit, BitsFrom;
    forall r: nat | r < 16 ensures ListField(x)[r] == flags[r] {
      BitOfList(flags, 0, r, above);
    }
    assert ListField(x) == flags;
  }

  // ----- multiplications and branches -----

  function EncodeMultiply(cc: Nibble, accumulate: bool, s: bool, rd: ArmReg, rn: ArmReg, rs: ArmReg,
                          rm: ArmReg): (w: Word)
  {
    cc * 0x1000_0000 + BitValue(accumulate) * 0x20_0000 + BitValue(s) * 0x10_0000 + rd * 0x1_0000 + rn * 0x1000
    + rs * 0x100 + 0x90 + rm
  }

  lemma MultiplyIsDecoded(cc: Nibble, accumulate: bool, s: bool, rd: ArmReg, rn: ArmReg, rs: ArmReg, rm: ArmReg)
    ensures var x := EncodeMultiply(cc, accumulate, s, rd, rn, rs, rm);
            && (IsMultiply(x) <==> cc != 15) && CcField(x) == cc
            && (Flag(x, 0x20_0000) <==> accumulate) && (Flag(x, 0x10_0000) <==> s)
            && RegField(x, 0x1_0000) == rd && RegField(x, 0x1000) == rn
            && RegField(x, 0x100) == rs && RegField(x, 1) == rm
  {
    var x, low := EncodeMultiply(cc, accumulate, s, rd, rn, rs, rm), rs * 0x100 + 0x90 + rm;
    UpperPlaces(x, cc, 0, BitValue(accumulate), BitValue(s), rd, rn, low);
    Place(x, 0x20_0000, 2, cc * 64, BitValue(accumulate), BitValue(s) * 0x10_0000 + rd * 0x1_0000 + rn * 0x1000 + low);
    Place(x, 0x40_0000, 64, cc, 0, x - cc * 0x1000_0000);
    var top := cc * 0x1_0000 + BitValue(accumulate) * 0x200 + BitValue(s) * 0x100 + rd * 0x10 + rn;
    Place(x, 0x100, 16, top, rs, 0x90 + rm);
    Place(x, 16, 16, top * 16 + rs, 9, rm);
    Place(x, 1, 16, (top * 16 + rs) * 16 + 9, rm, 0);
  }

  /** B and BL with an offset in words. */
  function EncodeBranch(cc: Nibble, link: bool, offset: int): (w: Word)
    requires -0x80_0000 <= offset < 0x80_0000
  {
    cc * 0x1000_0000 + 0xa00_0000 + BitValue(link) * 0x100_0000 + (if offset < 0 then offset + 0x100_0000 else offset)
  }

  lemma BranchIsDecoded(cc: Nibble, link: bool, offset: int, pc: Word)
    requires -0x80_0000 <= offset < 0x80_0000
    ensures var x := EncodeBranch(cc, link, offset);
            && IsBranch(x) && CcField(x) == cc && (Flag(x, 0x100_0000) <==> link)
            && (Flag(x, 0x80_0000) <==> offset < 0)
            && BranchTarget(x, pc) == Wrap(pc + 8 + 4 * offset)
  {
    var x, low := EncodeBranch(cc, link, offset), if offset < 0 then offset + 0x100_0000 else offset;
    Place(x, 0x1000_0000, 16, 0, cc, x - cc * 0x1000_0000);
    Place(x, 0x200_0000, 8, cc, 5, BitValue(link) * 0x100_0000 + low);
    Place(x, 0x100_0000, 2, cc * 8 + 5, BitValue(link), low);
    Place(x, 0x80_0000, 2, (cc * 8 + 5) * 2 + BitValue(link), BitValue(offset < 0),
          if offset < 0 then low - 0x80_0000 else low);
    QuotientUnique(x, 0x100_0000, (cc * 8 + 5) * 2 + BitValue(link), low);
    hide Wrap;
  }

  // ----- no word is two instructions -----

  lemma ClassesAreDisjoint(x: Word)
    ensures IsMultiply(x) ==> !IsDataProcessing(x)
    ensures IsMultiply(x) || IsDataProcessing(x) ==> !IsTransfer(x) && !IsBlockTransfer(x) && !IsBranch(x)
    ensures IsTransfer(x) ==> !IsBlockTransfer(x) && !IsBranch(x)
    ensures IsBlockTransfer(x) ==> !IsBranch(x)
  {
    hide *;
    DivideTwice(x, 0x40_0000, 8);
    DivideTwice(x, 0x40_0000, 16);
    DivideTwice(x, 0x10, 8);
    ClassNumbers(x, x / 0x40_0000, x / 0x10);
  }

  /** Bits 31 to 22 and 31 to 4 of a word. */
  lemma ClassNumbers(x: Word, z: nat, y: nat)
    requires z == x / 0x40_0000 && y == x / 0x10
    requires x / 0x200_0000 == z / 8 && x / 0x400_0000 == z / 16 && x / 0x80 == y / 8
    ensures IsMultiply(x) ==> z % 64 == 0 && y % 16 == 9 && !IsDataProcessing(x)
    ensures IsDataProcessing(x) ==> z / 16 % 4 == 0
    ensures IsTransfer(x) ==> z / 16 % 4 == 1
    ensures IsBlockTransfer(x) <==> z / 8 % 8 == 4
    ensures IsBranch(x) <==> z / 8 % 8 == 5
  {
    hide CcField;
    Tens(z, y);
  }

  lemma Tens(z: nat, y: nat)
    ensures z % 64 == 0 ==> z / 16 % 4 == 0 && z / 8 % 8 == 0 && z / 8 % 2 == 0
    ensures y % 16 == 9 ==> y % 2 == 1 && y / 8 % 2 == 1
    ensures z / 16 == z / 8 / 2
  {
    DivideTwice(z, 8, 2);
    if z % 64 == 0 {
      SixtyFours(z, z / 64);
    }
    if y % 16 == 9 {
      NineOver(y, y / 16);
    }
  }

  lemma SixtyFours(z: nat, q: nat)
    requires z == 64 * q
    ensures z / 16 % 4 == 0 && z / 8 % 8 == 0 && z / 8 % 2 == 0
  {
    hide *;
    QuotientUnique(z, 8, 8 * q, 0);
    QuotientUnique(z, 16, 4 * q, 0);
    QuotientUnique(4 * q, 4, q, 0);
    QuotientUnique(8 * q, 8, q, 0);
    QuotientUnique(8 * q, 2, 4 * q, 0);
  }

  lemma NineOver(y: nat, q: nat)
    requires y == 16 * q + 9
    ensures y % 2 == 1 && y / 8 % 2 == 1
  {
    hide *;
    QuotientUnique(y, 2, 8 * q + 4, 1);
    QuotientUnique(y, 8, 2 * q + 1, 1);
    QuotientUnique(2 * q + 1, 2, q, 1);
  }
}
