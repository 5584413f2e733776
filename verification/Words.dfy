/** Thirty-two bit words as integers, with the C operators the GIP model uses on them.
    Shifts are written with powers of two; the bitwise operators recurse over the bits. */
module Words {

  type Word = n: int | 0 <= n < 0x1_0000_0000

  /** Truncation to 32 bits, as every C assignment to an `unsigned int` does. */
  function Wrap(x: int): (w: Word) {
    x % 0x1_0000_0000
  }

  /** The value of a word read as a C `int`. */
  function Signed(w: Word): (s: int) {
    if w < 0x8000_0000 then w else w - 0x1_0000_0000
  }

  function Pow2(n: nat): (p: nat)
    ensures p > 0
  {
    if n == 0 then 1 else 2 * Pow2(n - 1)
  }

  /** Bit `i` of a non-negative number. */
  predicate Bit(x: nat, i: nat) {
    x / Pow2(i) % 2 == 1
  }

  function BitValue(b: bool): (v: nat) {
    if b then 1 else 0
  }

  function And(x: nat, y: nat): (r: nat)
    ensures r <= x && r <= y
  {
    if x == 0 || y == 0 then 0 else 2 * And(x / 2, y / 2) + (x % 2) * (y % 2)
  }

  function Or(x: nat, y: nat): (r: nat)
    ensures r == x + y - And(x, y)
  {
    if x == 0 then y
    else if y == 0 then x
    else
      assert (x % 2) * (y % 2) == (if x % 2 == 1 && y % 2 == 1 then 1 else 0);
      2 * Or(x / 2, y / 2) + (if x % 2 == 1 || y % 2 == 1 then 1 else 0)
  }

  function Xor(x: nat, y: nat): (r: nat)
    ensures r == x + y - 2 * And(x, y)
  {
    if x == 0 then y
    else if y == 0 then x
    else
      assert (x % 2) * (y % 2) == (if x % 2 == 1 && y % 2 == 1 then 1 else 0);
      2 * Xor(x / 2, y / 2) + (if x % 2 != y % 2 then 1 else 0)
  }

  function Not(w: Word): (r: Word) {
    0xffff_ffff - w
  }

  /** Powers of two grow with the exponent. */
  lemma {:induction false} Pow2Grows(a: nat, b: nat)
    requires a <= b
    ensures Pow2(a) <= Pow2(b)
    decreases b
  {
    if a < b {
      Pow2Grows(a, b - 1);
    }
  }

  lemma {:induction false} Pow2Add(a: nat, b: nat)
    ensures Pow2(a + b) == Pow2(a) * Pow2(b)
  {
    if a != 0 {
      Pow2Add(a - 1, b);
      assert (2 * Pow2(a - 1)) * Pow2(b) == 2 * (Pow2(a - 1) * Pow2(b));
    }
  }

  lemma Pow2Values()
    ensures Pow2(8) == 0x100 && Pow2(16) == 0x1_0000 && Pow2(31) == 0x8000_0000 && Pow2(32) == 0x1_0000_0000
  {
    assert Pow2(8) == 0x100;
    Pow2Add(8, 8);
    Pow2Add(16, 16);
    assert Pow2(32) == 2 * Pow2(31);
  }

  lemma Pow2Bytes()
    ensures Pow2(0) == 1 && Pow2(8) == 0x100 && Pow2(16) == 0x1_0000 && Pow2(24) == 0x100_0000
    ensures Pow2(1) == 2 && Pow2(2) == 4 && Pow2(3) == 8
  {
  }

  lemma {:induction false} OrBelow(x: nat, y: nat, n: nat)
    requires x < Pow2(n) && y < Pow2(n)
    ensures Or(x, y) < Pow2(n)
  {
    if x != 0 && y != 0 {
      OrBelow(x / 2, y / 2, n - 1);
    }
  }

  lemma {:induction false} XorBelow(x: nat, y: nat, n: nat)
    requires x < Pow2(n) && y < Pow2(n)
    ensures Xor(x, y) < Pow2(n)
  {
    if x != 0 && y != 0 {
      XorBelow(x / 2, y / 2, n - 1);
    }
  }

  function OrWord(x: Word, y: Word): (r: Word) {
    Pow2Values();
    OrBelow(x, y, 32);
    Or(x, y)
  }

  function XorWord(x: Word, y: Word): (r: Word) {
    Pow2Values();
    XorBelow(x, y, 32);
    Xor(x, y)
  }

  // ----- arithmetic modulo 2^32 -----

  lemma WrapUnique(x: int, q: int, r: Word)
    requires x == q * 0x1_0000_0000 + r
    ensures Wrap(x) == r
  {
  }

  lemma WrapOfWord(w: Word)
    ensures Wrap(w) == w
  {
    WrapUnique(w, 0, w);
  }

  lemma WrapPlus(a: int, b: int)
    ensures Wrap(Wrap(a) + b) == Wrap(a + b)
  {
    var q := a / 0x1_0000_0000;
    var p := (Wrap(a) + b) / 0x1_0000_0000;
    WrapUnique(a + b, p + q, Wrap(Wrap(a) + b));
  }

  lemma WrapTimes(a: int, k: int)
    ensures Wrap(k * Wrap(a)) == Wrap(k * a)
  {
    var q := a / 0x1_0000_0000;
    var p := k * Wrap(a) / 0x1_0000_0000;
    assert k * a == k * (q * 0x1_0000_0000) + k * Wrap(a);
    assert k * (q * 0x1_0000_0000) == (k * q) * 0x1_0000_0000;
    WrapUnique(k * a, p + k * q, Wrap(k * Wrap(a)));
  }

  lemma WrapShift(x: int, k: int)
    ensures Wrap(x + k * 0x1_0000_0000) == Wrap(x)
  {
    WrapUnique(x + k * 0x1_0000_0000, x / 0x1_0000_0000 + k, Wrap(x));
  }

  lemma TimesMonotone(a: nat, b: nat, p: nat)
    requires a <= b
    ensures a * p <= b * p
  {
  }

  lemma QuotientBelow(x: nat, d: nat)
    requires d > 0
    ensures 0 <= x / d <= x
  {
    TimesMonotone(1, d, x / d);
  }

  // ----- quotient and remainder for any divisor -----

  lemma MultiplesAreFar(k: int, d: int)
    requires d > 0
    ensures k >= 1 ==> k * d >= d
    ensures k <= -1 ==> k * d <= -d
  {
    if k >= 1 {
      TimesMonotone(1, k, d);
    } else if k <= -1 {
      TimesMonotone(1, -k, d);
    }
  }

  lemma QuotientUnique(x: int, d: int, q: int, r: int)
    requires d > 0 && x == q * d + r && 0 <= r < d
    ensures x / d == q && x % d == r
  {
    assert (x / d - q) * d == r - x % d;
    MultiplesAreFar(x / d - q, d);
  }

  lemma RemainderShift(x: int, d: int, k: int)
    requires d > 0
    ensures (x + k * d) % d == x % d && (x + k * d) / d == x / d + k
  {
    assert x + k * d == (x / d + k) * d + x % d;
    QuotientUnique(x + k * d, d, x / d + k, x % d);
  }

  /** Wrapping to 32 bits does not change remainders of divisors of 2^32. */
  lemma WrapKeepsRemainder(x: int, d: int)
    requires d > 0 && 0x1_0000_0000 % d == 0
    ensures Wrap(x) % d == x % d
  {
    var k := 0x1_0000_0000 / d;
    var q := x / 0x1_0000_0000;
    assert k * d == 0x1_0000_0000;
    assert x == Wrap(x) + (q * k) * d;
    RemainderShift(Wrap(x), d, q * k);
  }

  /** Numbers less than d apart have different remainders. */
  lemma RemaindersDiffer(x: int, y: int, d: int)
    requires d > 0 && x < y < x + d
    ensures x % d != y % d
  {
    assert y - x == (y / d - x / d) * d + (y % d - x % d);
    MultiplesAreFar(y / d - x / d, d);
  }
}
