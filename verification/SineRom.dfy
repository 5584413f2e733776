/** The sine ROM: a base value and a slope for every group of substeps, and one error bit for
    each substep that says whether the interpolated value is one too small. */
module SineRom {
  import opened Words

  /** log2 of the substeps of a ROM word. */
  type Log = n: nat | 1 <= n <= 6 witness 1

  datatype Entry = Entry(base: int, delta: nat, errorBits: nat)

  /** The slope's share of the first k fine phase bits, the highest first. */
  function DeltaSum(delta: nat, fine: nat, log: nat, k: nat): (s: nat)
    requires k <= log
  {
    if k == 0 then 0
    else DeltaSum(delta, fine, log, k - 1)
         + (if Bit(fine, log - k) then QuotientNat(2 * delta, Pow2(k - 1)) else 0)
  }

  function QuotientNat(x: nat, d: nat): (q: nat)
    requires d > 0
  {
    QuotientBelow(x, d);
    x / d
  }

  /** The interpolated value, rounded up from half steps. */
  function Interpolated(base: int, delta: nat, fine: nat, log: Log): (v: int) {
    var sum := DeltaSum(delta, fine, log, log);
    2 * base + (if sum % 2 == 1 then sum + 1 else sum) / 2
  }

  function Error(base: int, delta: nat, target: seq<int>, log: Log, j: nat): (e: int)
    requires j < |target|
  {
    target[j] - Interpolated(base, delta, j, log)
  }

  predicate Bad(base: int, delta: nat, target: seq<int>, log: Log, j: nat)
    requires j < |target|
  {
    Error(base, delta, target, log, j) < 0 || Error(base, delta, target, log, j) > 1
  }

  /** Substeps, of the first n, that no error bit can correct. */
  function BadCount(base: int, delta: nat, target: seq<int>, log: Log, n: nat): (c: nat)
    requires n <= |target|
    ensures c <= n
  {
    if n == 0 then 0
    else BadCount(base, delta, target, log, n - 1) + (if Bad(base, delta, target, log, n - 1) then 1 else 0)
  }

  // ----- decoding -----

  /** One quarter-wave value from a ROM word, as the table program reads it. */
  function Decode(e: Entry, fine: nat, log: Log): (v: int)
    requires fine < Pow2(log)
  {
    var sum := DeltaSum(e.delta, fine, log, log);
    2 * e.base + sum / 2 + BitValue(Bit(e.errorBits, Pow2(log) - 1 - fine)) + sum % 2
  }

  /** The error bits say of each substep whether its error is positive; the first substep
      has the highest bit. */
  predicate BitsOf(bits: nat, base: int, delta: nat, target: seq<int>, log: Log, n: nat)
    requires n <= |target|
  {
    && bits < Pow2(n)
    && forall j: nat | j < n :: Bit(bits, n - 1 - j) <==> Error(base, delta, target, log, j) > 0
  }

  /** A substep is decoded to its target exactly when its error was 0 or 1. */
  lemma DecodeIsTarget(e: Entry, target: seq<int>, log: Log, j: nat)
    requires |target| == Pow2(log) && j < |target| && BitsOf(e.errorBits, e.base, e.delta, target, log, |target|)
    ensures Decode(e, j, log) == target[j] <==> !Bad(e.base, e.delta, target, log, j)
  {
    hide DeltaSum, Bit;
    assert Bit(e.errorBits, |target| - 1 - j) <==> Error(e.base, e.delta, target, log, j) > 0;
  }

  lemma ShiftInBit(bits: nat, n: nat, b: bool)
    requires bits < Pow2(n)
    ensures var x := 2 * bits + BitValue(b);
            x < Pow2(n + 1) && Bit(x, 0) == b && forall k: nat | 0 < k <= n :: Bit(x, k) == Bit(bits, k - 1)
  {
    var x := 2 * bits + BitValue(b);
    assert Pow2(0) == 1;
    forall k: nat | 0 < k <= n ensures Bit(x, k) == Bit(bits, k - 1) {
      HalfFirst(x, Pow2(k - 1));
      assert x / 2 == bits;
    }
  }

  lemma HalfFirst(x: nat, p: nat)
    requires p > 0
    ensures x / (2 * p) == x / 2 / p
  {
    var q, r := x / 2 / p, x / 2 % p;
    assert x == q * (2 * p) + (2 * r + x % 2);
    QuotientUnique(x, 2 * p, q, 2 * r + x % 2);
  }

  // ----- building -----

  method CountBad(base: int, delta: nat, target: seq<int>, log: Log) returns (count: nat)
    requires |target| == Pow2(log)
    ensures count == BadCount(base, delta, target, log, |target|)
  {
    hide Bit, QuotientNat, Pow2;
    count := 0;
    for j := 0 to |target|
      invariant count == BadCount(base, delta, target, log, j)
    {
      var sum := 0;
      for k := 0 to log
        invariant sum == DeltaSum(delta, j, log, k)
      {
        if Bit(j, log - 1 - k) {
          sum := sum + QuotientNat(2 * delta, Pow2(k));
        }
      }
      if sum % 2 == 1 {
        sum := sum + 1;
      }
      var error := target[j] - (2 * base + sum / 2);
      if error < 0 || error > 1 {
        count := count + 1;
      }
    }
  }

  /** The offsets that are tried, in the order of the two loops. */
  predicate Tried(rbo: int, rdo: int, r: int, d: int) {
    -2 <= rbo < 3 && -5 <= rdo < 6 && (rbo < r || (rbo == r && rdo < d))
  }

  predicate Candidate(rbo: int, rdo: int, delta: int) {
    -2 <= rbo < 3 && -5 <= rdo < 6 && delta + rdo >= 0
  }

  function CountAt(base: int, delta: int, target: seq<int>, log: Log, rbo: int, rdo: int): (c: nat)
    requires delta + rdo >= 0
  {
    BadCount(base + rbo, delta + rdo, target, log, |target|)
  }

  /** Tries 5 by 11 offsets and keeps the first with the fewest bad substeps. The count to
      beat starts at 32, so that some candidate must have fewer. */
  method Search(base: int, delta: int, target: seq<int>, log: Log) returns (bestRbo: int, bestRdo: int)
    requires |target| == Pow2(log)
    requires exists rbo, rdo :: Candidate(rbo, rdo, delta) && CountAt(base, delta, target, log, rbo, rdo) < 32
    ensures Candidate(bestRbo, bestRdo, delta)
    ensures forall rbo, rdo | Candidate(rbo, rdo, delta) ::
              CountAt(base, delta, target, log, bestRbo, bestRdo) <= CountAt(base, delta, target, log, rbo, rdo)
    ensures forall rbo, rdo | Candidate(rbo, rdo, delta) && Tried(rbo, rdo, bestRbo, bestRdo) ::
              CountAt(base, delta, target, log, bestRbo, bestRdo) < CountAt(base, delta, target, log, rbo, rdo)
  {
    hide BadCount;
    bestRbo, bestRdo := 3, 0;
    var least := 32;
    for rbo := -2 to 3
      invariant least <= 32 && (least < 32 <==> Candidate(bestRbo, bestRdo, delta))
      invariant least < 32 ==> least == CountAt(base, delta, target, log, bestRbo, bestRdo)
      invariant least < 32 ==> forall r, d | Candidate(r, d, delta) && Tried(r, d, bestRbo, bestRdo) ::
          least < CountAt(base, delta, target, log, r, d)
      invariant forall r, d | Candidate(r, d, delta) && Tried(r, d, rbo, -5) ::
          least <= CountAt(base, delta, target, log, r, d)
    {
      for rdo := -5 to 6
        invariant least <= 32 && (least < 32 <==> Candidate(bestRbo, bestRdo, delta))
        invariant least < 32 ==> least == CountAt(base, delta, target, log, bestRbo, bestRdo)
        invariant least < 32 ==> forall r, d | Candidate(r, d, delta) && Tried(r, d, bestRbo, bestRdo) ::
            least < CountAt(base, delta, target, log, r, d)
        invariant forall r, d | Candidate(r, d, delta) && Tried(r, d, rbo, rdo) ::
            least <= CountAt(base, delta, target, log, r, d)
      {
        if delta + rdo >= 0 {
          var count := CountBad(base + rbo, delta + rdo, target, log);
          if count < least {
            bestRbo, bestRdo, least := rbo, rdo, count;
          }
        }
      }
    }
  }

  method ErrorBits(base: int, delta: nat, target: seq<int>, log: Log) returns (bits: nat)
    requires |target| == Pow2(log)
    ensures BitsOf(bits, base, delta, target, log, |target|)
  {
    hide Bit, Error;
    bits := 0;
    for j := 0 to |target|
      invariant BitsOf(bits, base, delta, target, log, j)
    {
      var positive := Error(base, delta, target, log, j) > 0;
      ShiftInBit(bits, j, positive);
      bits := 2 * bits + BitValue(positive);
    }
  }

  /** Builds a ROM word for a group of target values, from a first guess of base and slope. */
  method BuildEntry(base: int, delta: int, target: seq<int>, log: Log) returns (e: Entry)
    requires |target| == Pow2(log)
    requires exists rbo, rdo :: Candidate(rbo, rdo, delta) && CountAt(base, delta, target, log, rbo, rdo) < 32
    ensures forall j: nat | j < |target| :: Decode(e, j, log) == target[j] <==> !Bad(e.base, e.delta, target, log, j)
    ensures forall rbo, rdo | Candidate(rbo, rdo, delta) ::
              BadCount(e.base, e.delta, target, log, |target|) <= CountAt(base, delta, target, log, rbo, rdo)
  {
    hide Decode, Bad, BadCount, BitsOf;
    var rbo, rdo := Search(base, delta, target, log);
    var bits := ErrorBits(base + rbo, delta + rdo, target, log);
    e := Entry(base + rbo, delta + rdo, bits);
    forall j: nat | j < |target| ensures Decode(e, j, log) == target[j] <==> !Bad(e.base, e.delta, target, log, j) {
      DecodeIsTarget(e, target, log, j);
    }
  }

  /** With at most sixteen substeps and a slope guess above -6 the search always finds one. */
  lemma SearchFinds(base: int, delta: int, target: seq<int>, log: Log)
    requires |target| == Pow2(log) && log <= 4 && delta >= -5
    ensures exists rbo, rdo :: Candidate(rbo, rdo, delta) && CountAt(base, delta, target, log, rbo, rdo) < 32
  {
    assert Pow2(4) == 16;
    Pow2Grows(log, 4);
    assert Candidate(0, 5, delta) && CountAt(base, delta, target, log, 0, 5) < 32;
  }

  // ----- the whole wave -----

  type Rom = s: seq<Entry> | |s| == 1024 witness seq(1024, i => Entry(0, 0, 0))

  /** The reference decoder: quadrant from the top two of sixteen phase bits, odd quadrants
      run backwards, the upper half is negative. */
  function SineFromRom(rom: Rom, phaseIn: int): (v: int) {
    var phase16 := phaseIn % 0x1_0000;
    var quadrature := phase16 / 0x4000;
    var low := phase16 % 0x4000;
    var phase := if quadrature % 2 == 1 then 0x3fff - low else low;
    assert phase % 16 < Pow2(4) by { assert Pow2(4) == 16; }
    var value := Decode(rom[phase / 16], phase % 16, 4);
    if quadrature / 2 % 2 == 1 then -value else value
  }

  type Fine = n: nat | n < 16

  datatype RomStage = RomStage(negate: bool, fine: Fine, base: int, delta: nat, errorBits: nat)

  datatype CalcStage = CalcStage(negate: bool, fine: Fine, base: int, delta: nat, errorBit: nat)

  datatype DataOut = DataOut(value: int, sign: bool)

  function SignedValue(d: DataOut): (v: int) {
    if d.sign then -d.value else d.value
  }

  /** What each of the three stages of the front end makes of the one before it. */
  function Fetched(rom: Rom, phase: Phase, readCosine: bool): (r: RomStage) {
    var k := phase / 0x100 + if readCosine then 0x4000 else 0;
    var at := if k / 0x4000 % 2 == 1 then 0x3fff - k % 0x4000 else k % 0x4000;
    var e := rom[at / 16];
    RomStage(k / 0x8000 % 2 == 1, at % 16, e.base, e.delta, e.errorBits)
  }

  function Selected(r: RomStage): (c: CalcStage) {
    CalcStage(r.negate, r.fine, r.base, r.delta, BitValue(Bit(r.errorBits, 15 - r.fine)))
  }

  function Calculated(c: CalcStage): (d: DataOut) {
    var sum := DeltaSum(c.delta, c.fine, 4, 4);
    DataOut(2 * c.base + c.errorBit + sum / 2 + sum % 2, c.negate)
  }

  /** The cosine or sine of a phase as the three stages deliver it. */
  function Angle(rom: Rom, phase: Phase, cosine: bool): (d: DataOut) {
    Calculated(Selected(Fetched(rom, phase, cosine)))
  }

  type Phase = n: int | 0 <= n < 0x100_0000

  lemma Quadrant(phase: Phase)
    ensures var k, q := phase / 0x100, phase / 0x40_0000;
            && k / 0x4000 == q && k / 0x8000 == q / 2
            && (k + 0x4000) / 0x4000 == q + 1 && (k + 0x4000) % 0x4000 == k % 0x4000
            && (k + 0x4000) / 0x8000 % 2 == (q + 1) % 4 / 2 % 2 && (q + 1) % 4 % 2 == (q + 1) % 2
  {
  }

  lemma Complement(p: nat)
    ensures (-1 - p) % 0x4000 == 0x3fff - p % 0x4000
  {
    QuotientUnique(-1 - p, 0x4000, -1 - p / 0x4000, 0x3fff - p % 0x4000);
  }

  /** ROM address, fine phase and sign for the sine or the cosine of a 24-bit phase. */
  method ReadRom(rom: Rom, phase: Phase, readCosine: bool) returns (r: RomStage)
    ensures r == Fetched(rom, phase, readCosine)
  {
    var readQuad := phase / 0x40_0000;
    if readCosine {
      readQuad := (readQuad + 1) % 4;
    }
    var readPhase := phase / 0x100;
    Quadrant(phase);
    if readQuad % 2 == 1 {
      Complement(readPhase);
      readPhase := -1 - readPhase;
    }
    readPhase := readPhase % 0x4000;
    var address := readPhase / 16;
    r := RomStage(readQuad / 2 % 2 == 1, readPhase % 16, rom[address].base, rom[address].delta, rom[address].errorBits);
  }

  method SelectErrorBit(r: RomStage) returns (c: CalcStage)
    ensures c == Selected(r)
  {
    c := CalcStage(r.negate, r.fine, r.base, r.delta, r.errorBits / Pow2(15 - r.fine) % 2);
  }

  method Interpolate(c: CalcStage) returns (d: DataOut)
    ensures d == Calculated(c)
  {
    hide DeltaSum;
    FourSubsteps(c.delta, c.fine);
    var deltaSum := 0;
    if c.fine / 8 % 2 == 1 {
      deltaSum := c.delta * 2;
    }
    if c.fine / 4 % 2 == 1 {
      deltaSum := deltaSum + c.delta;
    }
    if c.fine / 2 % 2 == 1 {
      deltaSum := deltaSum + c.delta / 2;
    }
    if c.fine % 2 == 1 {
      deltaSum := deltaSum + c.delta / 4;
    }
    d := DataOut(2 * c.base + c.errorBit + deltaSum / 2 + deltaSum % 2, c.negate);
  }

  lemma FourSubsteps(delta: nat, fine: nat)
    ensures DeltaSum(delta, fine, 4, 4)
            == (if fine / 8 % 2 == 1 then delta * 2 else 0) + (if fine / 4 % 2 == 1 then delta else 0)
               + (if fine / 2 % 2 == 1 then delta / 2 else 0) + (if fine % 2 == 1 then delta / 4 else 0)
  {
    assert Pow2(0) == 1 && Pow2(1) == 2 && Pow2(2) == 4 && Pow2(3) == 8;
    assert DeltaSum(delta, fine, 4, 1) == if fine / 8 % 2 == 1 then delta * 2 else 0;
    assert DeltaSum(delta, fine, 4, 2) == DeltaSum(delta, fine, 4, 1) + if fine / 4 % 2 == 1 then delta else 0;
    assert DeltaSum(delta, fine, 4, 3) == DeltaSum(delta, fine, 4, 2) + if fine / 2 % 2 == 1 then delta / 2 else 0;
    assert DeltaSum(delta, fine, 4, 4) == DeltaSum(delta, fine, 4, 3) + if fine % 2 == 1 then delta / 4 else 0;
  }

  /** The front end's three stages give the sine of the top sixteen phase bits, or, a quarter
      turn on, the cosine, for every phase. */
  lemma AngleIsSine(rom: Rom, phase: Phase, cosine: bool)
    ensures SignedValue(Angle(rom, phase, cosine)) == SineFromRom(rom, phase / 0x100 + if cosine then 0x4000 else 0)
  {
    hide Decode, SineFromRom, Calculated, Selected, Pow2;
    var k := phase / 0x100 + if cosine then 0x4000 else 0;
    var at := if k / 0x4000 % 2 == 1 then 0x3fff - k % 0x4000 else k % 0x4000;
    FourBits();
    SineOfQuarter(rom, k, at);
    StagesDecode(rom[at / 16], Fetched(rom, phase, cosine));
  }

  /** The phase within a quarter, counted backwards in every other one, and its sign. */
  lemma SineOfQuarter(rom: Rom, k: nat, at: nat)
    requires at == (if k / 0x4000 % 2 == 1 then 0x3fff - k % 0x4000 else k % 0x4000) && at % 16 < Pow2(4)
    ensures var value := Decode(rom[at / 16], at % 16, 4);
            SineFromRom(rom, k) == if k / 0x8000 % 2 == 1 then -value else value
  {
    hide Decode, Pow2;
    SixteenBits(k);
  }

  lemma StagesDecode(e: Entry, r: RomStage)
    requires r.base == e.base && r.delta == e.delta && r.errorBits == e.errorBits && r.fine < Pow2(4)
    ensures Calculated(Selected(r)) == DataOut(Decode(e, r.fine, 4), r.negate)
  {
    hide DeltaSum, Bit, Pow2;
    FourBits();
  }

  lemma FourBits()
    ensures Pow2(4) == 16
  {
  }

  lemma EvenShift(u: int, a: int)
    ensures (u + 2 * a) % 2 == u % 2
  {
    RemainderShift(u, 2, a);
  }

  lemma HalfQuadrant(r: nat)
    ensures r / 0x4000 / 2 == r / 0x8000
  {
    var q := r / 0x4000;
    QuotientUnique(r, 0x8000, q / 2, q % 2 * 0x4000 + r % 0x4000);
  }

  lemma SixteenBits(k: nat)
    ensures var phase16 := k % 0x1_0000;
            && phase16 / 0x4000 % 2 == k / 0x4000 % 2 && phase16 % 0x4000 == k % 0x4000
            && phase16 / 0x4000 / 2 % 2 == k / 0x8000 % 2
  {
    var a, r := k / 0x1_0000, k % 0x1_0000;
    assert k == r + (4 * a) * 0x4000 && k == r + (2 * a) * 0x8000;
    RemainderShift(r, 0x4000, 4 * a);
    RemainderShift(r, 0x8000, 2 * a);
    EvenShift(r / 0x4000, 2 * a);
    EvenShift(r / 0x8000, a);
    HalfQuadrant(r);
  }
}
