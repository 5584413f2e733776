/** The shifter of the ARM architecture (ARM DDI 0100, section A5.1), stated with
    multiplication and floor division, and the model's barrel shifter measured against it. */
module ArmShifter {
  import opened Words
  import opened GipInstruction
  import opened GipAlu

  /** A word rotated right by m places: the word written twice, shifted and cut off. */
  function Rotated(val: Word, m: nat): (w: Word)
    requires m < 32
  {
    Wrap(val * 0x1_0000_0001 / Pow2(m))
  }

  /** The four shifts of the architecture. */
  datatype ShiftHow = HowLsl | HowLsr | HowAsr | HowRor

  /** Shifted value and carry out, for any amount. */
  function ArmShift(c: bool, how: ShiftHow, val: Word, n: nat): (r: (Word, bool)) {
    if n == 0 then (val, c)
    else
      match how
      case HowLsl => (Wrap(val * Pow2(n)), val * Pow2(n) / 0x1_0000_0000 % 2 == 1)
      case HowLsr => ShiftRightBelow(val, n); (val / Pow2(n), Bit(val, n - 1))
      case HowAsr => (Wrap(Signed(val) / Pow2(n)), Signed(val) / Pow2(n - 1) % 2 == 1)
      case HowRor => (Rotated(val, n % 32), if n % 32 == 0 then val >= 0x8000_0000 else Bit(val, n % 32 - 1))
  }

  /** RRX: the word and the carry in front of it rotated right by one place. */
  function Rrx(c: bool, val: Word): (r: (Word, bool)) {
    ((val + BitValue(c) * 0x1_0000_0000) / 2, val % 2 == 1)
  }

  // ----- the model's shifter -----

  /** The internal operation that the decoder maps a shift to. */
  function MapShift(how: ShiftHow): (op: ShiftOp) {
    match how
    case HowLsl => Lsl
    case HowLsr => Lsr
    case HowAsr => Asr
    case HowRor => Ror
  }

  /** The one place where the C code departs: an arithmetic shift of a negative word by
      more than 32 has its sign bits cut to 28. */
  predicate ShiftDeparts(how: ShiftHow, val: Word, amount: Word) {
    how.HowAsr? && amount % 256 > 32 && val >= 0x8000_0000
  }

  /** With the mapped operation the barrel shifter is the architectural shifter exactly outside
      that case. */
  lemma BarrelShiftIsArm(c: bool, how: ShiftHow, val: Word, amount: Word)
    ensures BarrelShift(c, MapShift(how), val, amount) == ArmShift(c, how, val, amount % 256)
            <==> !ShiftDeparts(how, val, amount)
  {
    hide Pow2, OrWord;
    match how
    case HowLsl => LslIsArm(c, val, amount);
    case HowLsr => LsrIsArm(c, val, amount);
    case HowAsr => AsrIsArm(c, val, amount);
    case HowRor => RorIsArm(c, val, amount);
  }

  lemma RrxIsArm(c: bool, val: Word)
    ensures BarrelShift(c, Ror33, val, 32) == Rrx(c, val)
  {
    hide Pow2;
  }

  /** Spelled out for the amounts that an instruction can give with one field. */
  lemma ShiftsSpelledOut(c: bool, val: Word, n: nat)
    requires 0 < n < 32
    ensures BarrelShift(c, Lsl, val, n) == (Wrap(val * Pow2(n)), Bit(val, 32 - n))
    ensures BarrelShift(c, Lsr, val, n).0 == val / Pow2(n) && (BarrelShift(c, Lsr, val, n).1 <==> Bit(val, n - 1))
    ensures BarrelShift(c, Asr, val, n).0 == Wrap(Signed(val) / Pow2(n))
    ensures BarrelShift(c, Asr, val, n).1 <==> Signed(val) / Pow2(n - 1) % 2 == 1
    ensures BarrelShift(c, Ror, val, n) == (Rotated(val, n), Bit(val, n - 1))
  {
    hide Pow2, OrWord, Rotated, RotateRight;
    RorIsArm(c, val, n);
  }

  lemma LslIsArm(c: bool, val: Word, amount: Word)
    ensures BarrelShift(c, Lsl, val, amount) == ArmShift(c, HowLsl, val, amount % 256)
  {
    hide Pow2;
    var n := amount % 256;
    Pow2Values();
    if n > 32 {
      Pow2Add(33, n - 33);
      Pow2Add(1, 32);
      assert Pow2(1) == 2 by { Pow2One(); }
      var k := val * Pow2(n - 33);
      assert val * Pow2(n) == (2 * k) * 0x1_0000_0000;
      RemainderShift(0, 0x1_0000_0000, 2 * k);
    } else if n == 32 {
      RemainderShift(0, 0x1_0000_0000, val);
    } else if n > 0 {
      Pow2Add(n, 32 - n);
      CancelFactor(val, Pow2(n), Pow2(32 - n));
    }
  }

  lemma Pow2One()
    ensures Pow2(1) == 2
  {
  }

  lemma CancelFactor(x: nat, p: nat, q: nat)
    requires p > 0 && q > 0
    ensures p * q > 0 && x * p / (p * q) == x / q
  {
    var k, r := x / q, x % q;
    assert x * p == k * (p * q) + r * p;
    TimesMonotone(r + 1, q, p);
    assert r * p < p * q;
    QuotientUnique(x * p, p * q, k, r * p);
  }

  lemma LsrIsArm(c: bool, val: Word, amount: Word)
    ensures BarrelShift(c, Lsr, val, amount) == ArmShift(c, HowLsr, val, amount % 256)
  {
    hide Pow2;
    var n := amount % 256;
    Pow2Values();
    if n > 32 {
      Pow2Grows(32, n - 1);
      Pow2Grows(32, n);
      QuotientUnique(val, Pow2(n), 0, val);
      QuotientUnique(val, Pow2(n - 1), 0, val);
    } else if n == 32 {
      QuotientUnique(val, Pow2(32), 0, val);
    }
  }

  lemma AsrIsArm(c: bool, val: Word, amount: Word)
    ensures BarrelShift(c, Asr, val, amount) == ArmShift(c, HowAsr, val, amount % 256)
            <==> !ShiftDeparts(HowAsr, val, amount)
  {
    hide Pow2;
    var n := amount % 256;
    if n >= 32 {
      SignFill(Signed(val), n);
      SignFill(Signed(val), n - 1);
    }
  }

  /** Shifting a C int right by 31 places or more leaves its sign alone. */
  lemma SignFill(s: int, n: nat)
    requires -0x8000_0000 <= s < 0x8000_0000 && n >= 31
    ensures s / Pow2(n) == if s < 0 then -1 else 0
  {
    hide Pow2;
    Pow2Values();
    Pow2Grows(31, n);
    if s < 0 {
      QuotientUnique(s, Pow2(n), -1, s + Pow2(n));
    } else {
      QuotientUnique(s, Pow2(n), 0, s);
    }
  }

  /** Numbers with no bit in common are or-ed by adding. */
  lemma {:induction false} DisjointBits(x: nat, y: nat, k: nat)
    requires x < Pow2(k) && y % Pow2(k) == 0
    ensures And(x, y) == 0
  {
    if x != 0 && y != 0 {
      var p, q := Pow2(k - 1), y / Pow2(k);
      assert y == 2 * (q * p);
      RemainderShift(0, p, q);
      DisjointBits(x / 2, y / 2, k - 1);
    }
  }

  lemma RorIsArm(c: bool, val: Word, amount: Word)
    ensures BarrelShift(c, Ror, val, amount) == ArmShift(c, HowRor, val, amount % 256)
  {
    hide Pow2, Rotated, RotateRight;
    var n := amount % 256;
    if n % 32 == 0 {
      RotatedByNothing(val);
    } else {
      RotateIsArm(val, n % 32);
    }
  }

  lemma RotatedByNothing(val: Word)
    ensures Rotated(val, 0) == val
  {
    assert val * 0x1_0000_0001 == val + val * 0x1_0000_0000;
    WrapShift(val, val);
    WrapOfWord(val);
  }

  lemma RotateIsArm(val: Word, m: nat)
    requires 0 < m < 32
    ensures RotateRight(val, m) == Rotated(val, m)
  {
    hide Pow2, And, Wrap;
    Pow2Values();
    Pow2Add(m, 32 - m);
    ShiftRightBelow(val, m);
    QuotientLess(val, Pow2(m), Pow2(32 - m));
    WrapMultiple(val, Pow2(32 - m), Pow2(m));
    DisjointBits(val / Pow2(m), Wrap(val * Pow2(32 - m)), 32 - m);
    TwiceShifted(val, Pow2(m), Pow2(32 - m));
  }

  lemma TwiceShifted(val: Word, p: nat, q: nat)
    requires p > 0 && q > 0 && p * q == 0x1_0000_0000
    requires 0 <= val / p < q && Wrap(val * q) + q <= 0x1_0000_0000
    ensures Wrap(val * 0x1_0000_0001 / p) == val / p + Wrap(val * q)
  {
    hide Wrap;
    calc {
      val * 0x1_0000_0001;
      val + val * (p * q);
      val + (val * q) * p;
    }
    RemainderShift(val, p, val * q);
    WrapPlus(val * q, val / p);
    WrapOfWord(val / p + Wrap(val * q));
  }

  lemma QuotientLess(x: nat, p: nat, q: nat)
    requires p > 0 && x < p * q
    ensures 0 <= x / p < q
  {
    MultiplesAreFar(q - x / p, p);
    assert (q - x / p) * p == p * q - x + x % p;
  }

  lemma WrapMultiple(x: nat, q: nat, p: nat)
    requires q > 0 && p > 0 && p * q == 0x1_0000_0000
    ensures Wrap(x * q) % q == 0 && Wrap(x * q) + q <= 0x1_0000_0000
  {
    var k := x / p;
    var r := x % p;
    assert x * q == k * (p * q) + r * q;
    TimesMonotone(r + 1, p, q);
    assert r * q + q <= p * q;
    WrapUnique(x * q, k, r * q);
    RemainderShift(0, q, r);
  }
}
