/** What the operations of the ALU mean, bit by bit and as sums, and what the comparisons
    that have a condition as their destination decide. */
module GipOperations {
  import opened Words
  import opened FlatMemory
  import opened GipInstruction
  import opened GipAlu
  import opened GipSequential

  // ----- bits -----

  lemma {:induction false} BitOfAnd(x: nat, y: nat, i: nat)
    ensures Bit(And(x, y), i) <==> Bit(x, i) && Bit(y, i)
    decreases i
  {
    hide Bit;
    NoBits(i);
    if x != 0 && y != 0 {
      LowBit(x);
      LowBit(y);
      LowBit(And(x, y));
      ProductOfBits(x % 2, y % 2);
      if i > 0 {
        NextBit(x, i);
        NextBit(y, i);
        NextBit(And(x, y), i);
        BitOfAnd(x / 2, y / 2, i - 1);
      }
    }
  }

  lemma {:induction false} BitOfOr(x: nat, y: nat, i: nat)
    ensures Bit(Or(x, y), i) <==> Bit(x, i) || Bit(y, i)
    decreases i
  {
    hide Bit, And;
    NoBits(i);
    if x != 0 && y != 0 {
      LowBit(x);
      LowBit(y);
      LowBit(Or(x, y));
      if i > 0 {
        NextBit(x, i);
        NextBit(y, i);
        NextBit(Or(x, y), i);
        BitOfOr(x / 2, y / 2, i - 1);
      }
    }
  }

  lemma {:induction false} BitOfXor(x: nat, y: nat, i: nat)
    ensures Bit(Xor(x, y), i) <==> (Bit(x, i) <==> !Bit(y, i))
    decreases i
  {
    hide Bit, And;
    NoBits(i);
    if x != 0 && y != 0 {
      LowBit(x);
      LowBit(y);
      LowBit(Xor(x, y));
      if i > 0 {
        NextBit(x, i);
        NextBit(y, i);
        NextBit(Xor(x, y), i);
        BitOfXor(x / 2, y / 2, i - 1);
      }
    }
  }

  lemma BitOfNot(w: Word, i: nat)
    requires i < 32
    ensures Bit(Not(w), i) <==> !Bit(w, i)
  {
    Pow2Values();
    Pow2Grows(i, 31);
    Pow2Add(i, 31 - i);
    NotFlips(w, Pow2(i), Pow2(31 - i));
  }

  /** Read in halves of 2p, the complement has the other half. */
  lemma NotFlips(w: Word, p: nat, q: nat)
    requires p > 0 && p * q == 0x8000_0000
    ensures Not(w) / p % 2 == 1 - w / p % 2
  {
    var d, r := w / p, w % p;
    assert w == d * p + r && 2 * (p * q) == 0x1_0000_0000;
    assert Not(w) == 2 * (p * q) - 1 - (d * p + r);
    assert Not(w) == (2 * q - 1 - d) * p + (p - 1 - r) by {
      assert (2 * q - 1 - d) * p == 2 * (p * q) - p - d * p;
    }
    QuotientUnique(Not(w), p, 2 * q - 1 - d, p - 1 - r);
  }

  lemma NoBits(i: nat)
    ensures !Bit(0, i)
  {
    QuotientUnique(0, Pow2(i), 0, 0);
  }

  lemma LowBit(x: nat)
    ensures Bit(x, 0) <==> x % 2 == 1
  {
    assert Pow2(0) == 1;
  }

  lemma NextBit(x: nat, i: nat)
    requires i > 0
    ensures Bit(x, i) <==> Bit(x / 2, i - 1)
  {
    DivideTwice(x, Pow2(i - 1));
  }

  lemma ProductOfBits(x: nat, y: nat)
    requires x < 2 && y < 2
    ensures x * y == if x == 1 && y == 1 then 1 else 0
  {
  }

  lemma DivideTwice(x: nat, p: nat)
    requires p > 0
    ensures x / (2 * p) == x / 2 / p
  {
    var q, r := x / 2 / p, x / 2 % p;
    assert x / 2 == q * p + r && x == 2 * (q * p + r) + x % 2;
    assert q * (2 * p) == 2 * (q * p);
    QuotientUnique(x, 2 * p, q, 2 * r + x % 2);
  }

  /** The bits of a number written as digits below a multiple of 256. */
  lemma EightDigits(x: nat, hi: nat, d0: nat, d1: nat, d2: nat, d3: nat, d4: nat, d5: nat, d6: nat, d7: nat)
    requires d0 < 2 && d1 < 2 && d2 < 2 && d3 < 2 && d4 < 2 && d5 < 2 && d6 < 2 && d7 < 2
    requires x == hi * 0x100 + d0 + d1 * 2 + d2 * 4 + d3 * 8 + d4 * 0x10 + d5 * 0x20 + d6 * 0x40 + d7 * 0x80
    ensures x % 2 == d0 && x / 2 % 2 == d1 && x / 4 % 2 == d2 && x / 8 % 2 == d3
    ensures x / 0x10 % 2 == d4 && x / 0x20 % 2 == d5 && x / 0x40 % 2 == d6 && x / 0x80 % 2 == d7
    ensures x / 0x100 == hi
  {
    hide *;
    var x7 := 2 * hi + d7;
    var x6 := 2 * x7 + d6;
    var x5 := 2 * x6 + d5;
    var x4 := 2 * x5 + d4;
    var x3 := 2 * x4 + d3;
    var x2 := 2 * x3 + d2;
    var x1 := 2 * x2 + d1;
    var r2 := d0 + 2 * d1;
    var r3 := r2 + 4 * d2;
    var r4 := r3 + 8 * d3;
    var r5 := r4 + 0x10 * d4;
    var r6 := r5 + 0x20 * d5;
    var r7 := r6 + 0x40 * d6;
    DigitAt(x, 1, x1, d0, 0);
    DigitAt(x, 2, x2, d1, d0);
    DigitAt(x, 4, x3, d2, r2);
    DigitAt(x, 8, x4, d3, r3);
    DigitAt(x, 0x10, x5, d4, r4);
    DigitAt(x, 0x20, x6, d5, r5);
    DigitAt(x, 0x40, x7, d6, r6);
    DigitAt(x, 0x80, hi, d7, r7);
    QuotientUnique(x, 0x100, hi, r7 + 0x80 * d7);
  }

  lemma DigitAt(x: nat, p: nat, q: nat, d: nat, r: nat)
    requires d < 2 && r < p && x == (2 * q + d) * p + r
    ensures x / p % 2 == d
  {
    QuotientUnique(x, p, 2 * q + d, r);
  }

  /** Reversing the low eight bits. */
  lemma LowBitsReverse(w: Word, i: nat)
    requires i < 32
    ensures Bit(LowBitsReversed(w), i) <==> Bit(w, if i < 8 then 7 - i else i)
  {
    hide Pow2, LowBitsReversed, Bit;
    ReversedDigits(w);
    if i < 8 {
      ByteBits(w, i);
      ByteBits(w, 7 - i);
      ByteBits(LowBitsReversed(w), i);
    } else {
      AboveByte(w, i);
      AboveByte(LowBitsReversed(w), i);
    }
  }

  lemma ReversedDigits(w: Word)
    ensures var x := LowBitsReversed(w);
            && x % 2 == w / 0x80 % 2 && x / 2 % 2 == w / 0x40 % 2
            && x / 4 % 2 == w / 0x20 % 2 && x / 8 % 2 == w / 0x10 % 2
            && x / 0x10 % 2 == w / 8 % 2 && x / 0x20 % 2 == w / 4 % 2
            && x / 0x40 % 2 == w / 2 % 2 && x / 0x80 % 2 == w % 2
            && x / 0x100 == w / 0x100
  {
    EightDigits(LowBitsReversed(w), w / 0x100, w / 0x80 % 2, w / 0x40 % 2, w / 0x20 % 2, w / 0x10 % 2,
                w / 8 % 2, w / 4 % 2, w / 2 % 2, w % 2);
  }

  lemma ByteBits(x: nat, i: nat)
    requires i < 8
    ensures Bit(x, i) <==> (if i == 0 then x % 2 == 1
                            else if i == 1 then x / 2 % 2 == 1
                            else if i == 2 then x / 4 % 2 == 1
                            else if i == 3 then x / 8 % 2 == 1
                            else if i == 4 then x / 0x10 % 2 == 1
                            else if i == 5 then x / 0x20 % 2 == 1
                            else if i == 6 then x / 0x40 % 2 == 1
                            else x / 0x80 % 2 == 1)
  {
    hide Pow2;
    SmallPowers();
  }

  lemma SmallPowers()
    ensures Pow2(0) == 1 && Pow2(1) == 2 && Pow2(2) == 4 && Pow2(3) == 8
    ensures Pow2(4) == 0x10 && Pow2(5) == 0x20 && Pow2(6) == 0x40 && Pow2(7) == 0x80
  {
  }

  lemma AboveByte(x: nat, i: nat)
    requires i >= 8
    ensures Bit(x, i) <==> Bit(x / 0x100, i - 8)
  {
    hide Bit;
    NextBit(x, i);
    NextBit(x / 2, i - 1);
    NextBit(x / 4, i - 2);
    NextBit(x / 8, i - 3);
    NextBit(x / 0x10, i - 4);
    NextBit(x / 0x20, i - 5);
    NextBit(x / 0x40, i - 6);
    NextBit(x / 0x80, i - 7);
  }

  /** Reversing the bytes. */
  lemma BytesReverse(a: Word, w: Word, k: nat)
    requires k < 4
    ensures Lane(LogicResult(ByteReverse, a, w), k) == Lane(w, 3 - k)
  {
    hide Lane, FromLanes;
    LanesOfWord(w);
    LanesOfSum(Lane(w, 3), Lane(w, 2), Lane(w, 1), Lane(w, 0));
  }

  lemma LanesOfWord(w: Word)
    ensures ByteReversed(w)
         == Lane(w, 3) + 0x100 * Lane(w, 2) + 0x1_0000 * Lane(w, 1) + 0x100_0000 * Lane(w, 0)
  {
    hide Lane;
    WordOfLanes(w);
    UpperLanes(w);
    var b0, b1, b2, b3 := Lane(w, 0), Lane(w, 1), Lane(w, 2), Lane(w, 3);
    QuotientUnique(w, 0x100, b1 + 0x100 * b2 + 0x1_0000 * b3, b0);
    QuotientUnique(b1 + 0x100 * b2 + 0x1_0000 * b3, 0x100, b2 + 0x100 * b3, b1);
    QuotientUnique(b2 + 0x100 * b3, 0x100, b3, b2);
  }

  /** Bit i of a logical result in terms of the bits of the operands. */
  lemma LogicBitByBit(op: LogicOp, a: Word, b: Word, i: nat)
    requires i < 32
    ensures Bit(LogicResult(op, a, b), i)
        <==> match op
             case Mov => Bit(b, i)
             case Mvn => !Bit(b, i)
             case BitAnd => Bit(a, i) && Bit(b, i)
             case BitOr => Bit(a, i) || Bit(b, i)
             case BitXor => Bit(a, i) != Bit(b, i)
             case BitBic => Bit(a, i) && !Bit(b, i)
             case BitOrn => Bit(a, i) || !Bit(b, i)
             case AndXor => !Bit(a, i) && Bit(b, i)
             case BitReverse => Bit(b, if i < 8 then 7 - i else i)
             case ByteReverse => Bit(ByteReversed(b), i)
  {
    hide Bit, And, Or, Xor, Not, LowBitsReversed, ByteReversed;
    BitOfAnd(a, b, i);
    BitOfOr(a, b, i);
    BitOfXor(a, b, i);
    BitOfNot(b, i);
    BitOfAnd(a, Not(b), i);
    BitOfOr(a, Not(b), i);
    BitOfXor(And(a, b), b, i);
    match op
    case BitReverse => LowBitsReverse(b, i);
    case _ =>
  }

  // ----- sums -----

  /** The sums that the arithmetic operations form, with a carry that says whether the
      unsigned sum was too large or the difference was not negative. */
  lemma SumsSpelledOut(core: Core, op: ArithOp, a: Word, b: Word)
    requires !op.Mla? && !op.Mlb?
    ensures var r := ArithResult(core, op, a, b);
            var borrow := BitValue(!core.flags.c);
            match op
            case Add => r.value == Wrap(a + b) && (r.c <==> a + b >= 0x1_0000_0000)
            case Adc => r.value == Wrap(a + b + 1 - borrow) && (r.c <==> a + b + 1 - borrow >= 0x1_0000_0000)
            case Sub => r.value == Wrap(a - b) && (r.c <==> a >= b)
            case Sbc => r.value == Wrap(a - b - borrow) && (r.c <==> a >= b + borrow)
            case Rsb => r.value == Wrap(b - a) && (r.c <==> b >= a)
            case Rsc => r.value == Wrap(b - a - borrow) && (r.c <==> b >= a + borrow)
            case Init => r.value == b && !r.c
            case Mla => true
            case Mlb => true
  {
    hide AddOp, MultiplyStep, Wrap;
    match op
    case Add => AddOpAdds(a, b, false);
    case Adc => AddOpAdds(a, b, core.flags.c);
    case Sub => Difference(a, b, true);
    case Sbc => Difference(a, b, core.flags.c);
    case Rsb => Difference(b, a, true);
      AddOpCommutes(Not(a), b, true);
    case Rsc => Difference(b, a, core.flags.c);
      AddOpCommutes(Not(a), b, core.flags.c);
    case Init => AddOpAdds(0, b, false);
      WrapOfWord(b);
  }

  lemma Difference(a: Word, b: Word, cIn: bool)
    ensures var r := AddOp(a, Not(b), cIn);
            && r.value == Wrap(a - b - BitValue(!cIn)) && (r.c <==> a >= b + BitValue(!cIn))
            && (r.v <==> !(-0x8000_0000 <= Signed(a) - Signed(b) - BitValue(!cIn) < 0x8000_0000))
  {
    AddOpAdds(a, Not(b), cIn);
    hide AddOp;
    WrapShift(a - b - BitValue(!cIn), 1);
  }

  // ----- comparisons with a condition as their destination -----

  /** The comparison that a condition destination names. */
  predicate Names(c: ConditionDest, a: Word, b: Word) {
    match c
    case ToEQ => a == b
    case ToNE => a != b
    case ToCS => a >= b
    case ToCC => a < b
    case ToHI => a > b
    case ToLS => a <= b
    case ToGE => Signed(a) >= Signed(b)
    case ToLT => Signed(a) < Signed(b)
    case ToGT => Signed(a) > Signed(b)
    case ToLE => Signed(a) <= Signed(b)
  }

  lemma ResultNames(c: ConditionDest, a: Word, b: Word)
    ensures ConditionResult(c, SumFlags(AddOp(a, Not(b), true))) <==> Names(c, a, b)
  {
    Difference(a, b, true);
    hide AddOp;
    assert Wrap(a - b) == if a >= b then a - b else a - b + 0x1_0000_0000;
  }

  /** A subtraction into a condition: what follows it under CP is executed if and only if
      the subtraction was and the comparison holds, for one instruction or for two. */
  lemma ComparisonDecides(trail2: bool, core: Core, inst: Instruction, aIn: Word, bIn: Word,
                          next: Instruction, aNext: Word, bNext: Word)
    requires inst.kind.Arith? && inst.kind.arithOp.Sub? && inst.rd.ToCondition?
    requires next.cc.CP? && !next.rd.ToCondition?
    ensures var o := Evaluate(trail2, inst, aIn, bIn, core);
            var holds := ConditionMet(trail2, core, inst.cc)
                         && Names(inst.rd.c, Operand1(inst, aIn, core), Operand2(inst, bIn, core));
            var then_ := Evaluate(trail2, next, aNext, bNext, o.core);
            && (then_.passed <==> holds)
            && (ConditionMet(trail2, then_.core, CP) <==> holds)
  {
    hide AddOp, ConditionResult, SumFlags, Names, Operand1, Operand2, BarrelShift, LogicResult, MultiplyStep;
    ResultNames(inst.rd.c, Operand1(inst, aIn, core), Operand2(inst, bIn, core));
  }
}
