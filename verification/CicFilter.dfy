/** The mixer and the CIC filter of the ADC front end. Five integrators and five combs
    each serve two channels with one adder: a stage takes the I value when its input is
    valid and the Q value in the next cycle. */
module CicFilter {
  import opened CicMath
  import opened Words

  const STAGES: nat := 5
  const MODULUS: nat := 0x100_0000_0000

  /** A 40-bit register. */
  type Register = n: int | 0 <= n < 0x100_0000_0000

  function Masked(v: int): (r: Register) {
    v % 0x100_0000_0000
  }

  datatype MixerFsm = Idle | CosineDone | SineDone

  datatype Mixer = Mixer(fsm: MixerFsm, multA: nat, multB: nat, iOut: nat, qOut: nat, validOut: bool)

  datatype IntStage = IntStage(acc: Register, out: Register, validOut: bool)

  datatype CombStage = CombStage(pipe0: Register, pipe1: Register, value: Register, validOut: bool)

  datatype Decimator = Decimator(validOut: bool, count: nat)

  datatype State = State(mixer: Mixer, qStore: nat, ints: seq<IntStage>, combs: seq<CombStage>, decimate: Decimator)

  /** The macro that widens an 18-bit mixer value: any of bits 16 and up set makes it negative. */
  function SignExtend(v: nat): (s: int)
    requires v < 0x4_0000
  {
    if v < 0x1_0000 then v else v % 0x2_0000 - 0x2_0000
  }

  /** The widening keeps a mixer sum exactly if it is below 65536; sums can reach twice that. */
  lemma SignExtendExactly(v: int)
    requires -0x2_0000 <= v < 0x2_0000
    ensures SignExtend(v % 0x4_0000) == v <==> v < 0x1_0000
  {
  }

  // ----- the stages -----

  function NextInt(s: IntStage, validIn: bool, value: int): (t: IntStage) {
    if validIn || s.validOut then IntStage(s.out, Masked(s.acc + value), validIn) else s.(validOut := validIn)
  }

  function NextComb(s: CombStage, validIn: bool, value: Register): (t: CombStage) {
    if validIn || s.validOut then CombStage(value, s.pipe0, Masked(value - s.pipe1), validIn)
    else s.(validOut := validIn)
  }

  // ----- what the registers hold -----

  function B(b: bool): (n: nat) {
    if b then 1 else 0
  }

  /** Samples of the two channels, in the order the mixer made them. */
  datatype Samples = Samples(i: seq<int>, q: seq<int>)

  /** Exactly the values that an integrator which has taken ni samples of I, and the
      matching samples of Q, must hold. */
  ghost predicate IntHolds(s: IntStage, k: nat, x: Samples, ni: nat) {
    var nq := ni - B(s.validOut);
    && 0 <= nq && ni <= |x.i| && ni <= |x.q|
    && s.out == Masked(if s.validOut then Sum(k, x.i, ni) else Sum(k, x.q, nq))
    && s.acc == Masked(if s.validOut then Sum(k, x.q, nq) else Sum(k, x.i, ni))
  }

  ghost predicate CombHolds(s: CombStage, j: nat, x: Samples, r: nat, mi: nat)
    requires j > 0
  {
    var mq := mi - B(s.validOut);
    && 0 <= mq && mi * r <= |x.i| && mi * r <= |x.q| && mq * r <= mi * r
    && s.value == Masked(if s.validOut then Comb(j, x.i, r, mi) else Comb(j, x.q, r, mq))
    && s.pipe0 == Masked(if s.validOut then Comb(j - 1, x.i, r, mi) else Comb(j - 1, x.q, r, mq))
    && s.pipe1 == Masked(if s.validOut then Comb(j - 1, x.q, r, mq) else Comb(j - 1, x.i, r, mi))
  }

  lemma MaskedSum(a: int, b: int, v: int)
    requires Masked(v) == Masked(b)
    ensures Masked(Masked(a) + v) == Masked(a + b)
  {
    var k := a / MODULUS + b / MODULUS - v / MODULUS;
    assert a + b == Masked(a) + v + k * MODULUS;
    RemainderShift(Masked(a) + v, MODULUS, k);
  }

  lemma MaskedDifference(a: int, b: int)
    ensures Masked(Masked(a) - Masked(b)) == Masked(a - b)
  {
    var k := a / MODULUS - b / MODULUS;
    assert a - b == Masked(a) - Masked(b) + k * MODULUS;
    RemainderShift(Masked(a) - Masked(b), MODULUS, k);
  }

  lemma SumStep(k: nat, x: seq<int>, n: nat)
    requires k > 0 && n < |x|
    ensures Sum(k, x, n + 1) == Sum(k, x, n) + Sum(k - 1, x, n + 1)
  {
  }

  lemma CombStep(j: nat, x: seq<int>, r: nat, m: nat)
    requires j > 0 && (m + 1) * r <= |x|
    ensures m * r <= |x| && Comb(j, x, r, m + 1) == Comb(j - 1, x, r, m + 1) - Comb(j - 1, x, r, m)
  {
    assert m * r <= (m + 1) * r;
  }

  lemma IntStageStep(s: IntStage, k: nat, x: Samples, ni: nat, validIn: bool, value: int)
    requires k > 0 && IntHolds(s, k, x, ni) && !(validIn && s.validOut)
    requires ni + B(validIn) <= |x.i| && ni + B(validIn) <= |x.q|
    requires validIn ==> Masked(value) == Masked(Sum(k - 1, x.i, ni + 1))
    requires s.validOut ==> Masked(value) == Masked(Sum(k - 1, x.q, ni))
    ensures IntHolds(NextInt(s, validIn, value), k, x, ni + B(validIn))
  {
    hide Masked, Sum;
    if validIn {
      SumStep(k, x.i, ni);
      MaskedSum(Sum(k, x.i, ni), Sum(k - 1, x.i, ni + 1), value);
    } else if s.validOut {
      SumStep(k, x.q, ni - 1);
      MaskedSum(Sum(k, x.q, ni - 1), Sum(k - 1, x.q, ni), value);
    }
  }

  lemma CombStageStep(s: CombStage, j: nat, x: Samples, r: nat, mi: nat, validIn: bool, value: Register)
    requires j > 0 && CombHolds(s, j, x, r, mi) && !(validIn && s.validOut)
    requires (mi + B(validIn)) * r <= |x.i| && (mi + B(validIn)) * r <= |x.q|
    requires validIn ==> value == Masked(Comb(j - 1, x.i, r, mi + 1))
    requires s.validOut ==> value == Masked(Comb(j - 1, x.q, r, mi))
    ensures CombHolds(NextComb(s, validIn, value), j, x, r, mi + B(validIn))
  {
    hide Masked, Comb;
    if validIn {
      CombStep(j, x.i, r, mi);
      MaskedDifference(Comb(j - 1, x.i, r, mi + 1), Comb(j - 1, x.i, r, mi));
    } else if s.validOut {
      CombStep(j, x.q, r, mi - 1);
      MaskedDifference(Comb(j - 1, x.q, r, mi), Comb(j - 1, x.q, r, mi - 1));
    }
  }

  // ----- one clock -----

  predicate Shape(st: State) {
    && |st.ints| == STAGES && |st.combs| == STAGES
    && st.mixer.iOut < 0x4_0000 && st.mixer.qOut < 0x4_0000 && st.qStore < 0x4_0000
    && st.mixer.multA < 0x4_0000 && st.mixer.multB < 0x4_0000
  }

  /** Level 0 is the mixer, level k the k-th integrator. */
  predicate Offers(st: State, k: nat)
    requires Shape(st) && k <= STAGES
  {
    if k == 0 then st.mixer.validOut else st.ints[k - 1].validOut
  }

  function Offered(st: State, k: nat): (v: int)
    requires Shape(st) && k <= STAGES
  {
    if k > 0 then st.ints[k - 1].out else if st.mixer.validOut then SignExtend(st.mixer.iOut) else SignExtend(st.qStore)
  }

  /** Level 0 is the decimator, level j the j-th comb; the source counts the combs down. */
  predicate CombOffers(st: State, j: nat)
    requires Shape(st) && j <= STAGES
  {
    if j == 0 then st.decimate.validOut else st.combs[STAGES - j].validOut
  }

  function CombOffered(st: State, j: nat): (v: Register)
    requires Shape(st) && j <= STAGES
  {
    if j == 0 then st.ints[STAGES - 1].out else st.combs[STAGES - j].value
  }

  function NextMixer(m: Mixer, start: bool, productA: nat, productB: nat): (n: Mixer) {
    var fsm := match m.fsm
      case Idle => if start then CosineDone else Idle
      case CosineDone => SineDone
      case SineDone => Idle;
    match m.fsm
    case Idle => Mixer(fsm, productA, productB, m.iOut, m.qOut, false)
    case CosineDone => Mixer(fsm, productA, productB, m.multA, m.multB, false)
    case SineDone =>
      Mixer(fsm, productA, productB, (m.iOut - m.multB) % 0x4_0000, (m.qOut + m.multA) % 0x4_0000, true)
  }

  function NextDecimator(d: Decimator, factor: nat, validIn: bool): (n: Decimator) {
    if !validIn then Decimator(false, d.count)
    else if d.count == 0 then Decimator(true, factor)
    else Decimator(false, d.count - 1)
  }

  type Product = n: int | 0 <= n < 0x4_0000

  function NextInts(st: State): (n: seq<IntStage>)
    requires Shape(st)
    ensures |n| == STAGES
  {
    seq(STAGES, k requires 0 <= k < STAGES => NextInt(st.ints[k], Offers(st, k), Offered(st, k)))
  }

  function NextCombs(st: State): (n: seq<CombStage>)
    requires Shape(st)
    ensures |n| == STAGES
  {
    seq(STAGES, k requires 0 <= k < STAGES =>
      NextComb(st.combs[k], CombOffers(st, STAGES - 1 - k), CombOffered(st, STAGES - 1 - k)))
  }

  function Next(st: State, factor: nat, start: bool, productA: Product, productB: Product): (n: State)
    requires Shape(st)
    ensures Shape(n)
  {
    State(NextMixer(st.mixer, start, productA, productB),
          if st.mixer.validOut then st.mixer.qOut else st.qStore,
          NextInts(st), NextCombs(st),
          NextDecimator(st.decimate, factor, Offers(st, STAGES - 1)))
  }

  /** A sample is made when the mixer has added the sine products. */
  ghost function Sampled(st: State, x: Samples): (y: Samples)
    requires Shape(st)
  {
    if !st.mixer.fsm.SineDone? then x
    else Samples(x.i + [SignExtend((st.mixer.iOut - st.mixer.multB) % 0x4_0000)],
                 x.q + [SignExtend((st.mixer.qOut + st.mixer.multA) % 0x4_0000)])
  }

  // ----- the invariant -----

  /** How many samples level k has taken: all but those still on offer before it. */
  ghost function Taken(st: State, n: nat, k: nat): (t: int)
    requires Shape(st) && k <= STAGES
  {
    if k == 0 then n else Taken(st, n, k - 1) - B(Offers(st, k - 1))
  }

  ghost function CombTaken(st: State, n: nat, r: nat, j: nat): (t: int)
    requires Shape(st) && j <= STAGES && r > 0
  {
    if j == 0 then Taken(st, n, STAGES) / r else CombTaken(st, n, r, j - 1) - B(CombOffers(st, j - 1))
  }

  ghost predicate MixerHolds(st: State, x: Samples)
    requires Shape(st)
  {
    && |x.i| == |x.q|
    && (st.mixer.validOut ==>
          && st.mixer.fsm == Idle && |x.i| > 0
          && SignExtend(st.mixer.iOut) == x.i[|x.i| - 1] && SignExtend(st.mixer.qOut) == x.q[|x.q| - 1])
    && (!st.mixer.validOut && |x.q| > 0 ==> SignExtend(st.qStore) == x.q[|x.q| - 1])
  }

  /** No level is offered a new value while it still takes the Q half of the last. */
  ghost predicate Spaced(st: State)
    requires Shape(st)
  {
    && (forall k: nat | k < STAGES :: !(Offers(st, k) && Offers(st, k + 1)))
    && (forall j: nat | j < STAGES :: !(CombOffers(st, j) && CombOffers(st, j + 1)))
    && !(CombOffers(st, 1) && Offers(st, STAGES))
  }

  ghost predicate Decimates(st: State, x: Samples, factor: nat)
    requires Shape(st)
  {
    var taken := Taken(st, |x.i|, STAGES);
    && taken >= 0 && st.decimate.count == factor - taken % (factor + 1)
    && (CombOffers(st, 0) ==> Offers(st, STAGES) && taken % (factor + 1) == 0)
    && (CombOffers(st, 1) ==> taken % (factor + 1) == 0)
  }

  ghost predicate IntsHold(st: State, x: Samples)
    requires Shape(st)
  {
    forall k: nat | 0 < k <= STAGES ::
      Taken(st, |x.i|, k) >= 0 && IntHolds(st.ints[k - 1], k, x, Taken(st, |x.i|, k))
  }

  ghost predicate CombsHold(st: State, x: Samples, r: nat)
    requires Shape(st) && r > 0
  {
    forall j: nat | 0 < j <= STAGES :: CombHoldsAt(st, x, r, j)
  }

  ghost predicate CombHoldsAt(st: State, x: Samples, r: nat, j: nat)
    requires Shape(st) && r > 0 && 0 < j <= STAGES
  {
    CombTaken(st, |x.i|, r, j) >= 0 && CombHolds(st.combs[STAGES - j], j, x, r, CombTaken(st, |x.i|, r, j))
  }

  ghost predicate Inv(st: State, x: Samples, factor: nat) {
    && Shape(st) && MixerHolds(st, x) && Spaced(st) && Decimates(st, x, factor)
    && IntsHold(st, x) && CombsHold(st, x, factor + 1)
  }

  // ----- the invariant is kept -----

  lemma IntHoldsLater(s: IntStage, k: nat, x: Samples, y: Samples, ni: nat)
    requires IntHolds(s, k, x, ni) && x.i <= y.i && x.q <= y.q
    ensures IntHolds(s, k, y, ni)
  {
    hide Masked;
    assert y.i == x.i + y.i[|x.i|..] && y.q == x.q + y.q[|x.q|..];
    SumOfPrefix(k, x.i, y.i[|x.i|..], ni);
    SumOfPrefix(k, x.q, y.q[|x.q|..], ni - B(s.validOut));
  }

  lemma CombHoldsLater(s: CombStage, j: nat, x: Samples, y: Samples, r: nat, mi: nat)
    requires j > 0 && CombHolds(s, j, x, r, mi) && x.i <= y.i && x.q <= y.q
    ensures CombHolds(s, j, y, r, mi)
  {
    hide Masked;
    var mq := mi - B(s.validOut);
    var i, q := y.i[|x.i|..], y.q[|x.q|..];
    assert y.i == x.i + i && y.q == x.q + q;
    CombOfPrefix(j, x.i, i, r, mi);
    CombOfPrefix(j, x.q, q, r, mq);
    CombOfPrefix(j - 1, x.i, i, r, mi);
    CombOfPrefix(j - 1, x.q, q, r, mq);
  }

  /** What level k offers: the I half, or the Q half when the next level is waiting for it. */
  lemma OfferMeans(st: State, x: Samples, k: nat)
    requires Shape(st) && MixerHolds(st, x) && Spaced(st) && IntsHold(st, x) && k < STAGES
    ensures var taken := Taken(st, |x.i|, k + 1);
            && !(Offers(st, k) && st.ints[k].validOut) && |x.i| == |x.q|
            && 0 <= taken && IntHolds(st.ints[k], k + 1, x, taken)
            && taken + B(Offers(st, k)) == Taken(st, |x.i|, k) <= |x.i|
            && (Offers(st, k) ==> Masked(Offered(st, k)) == Masked(Sum(k, x.i, taken + 1)))
            && (st.ints[k].validOut ==> Masked(Offered(st, k)) == Masked(Sum(k, x.q, taken)))
  {
    hide SignExtend;
    assert IntHolds(st.ints[k], k + 1, x, Taken(st, |x.i|, k + 1));
    assert !(Offers(st, k) && Offers(st, k + 1));
    if k > 0 {
      assert IntHolds(st.ints[k - 1], k, x, Taken(st, |x.i|, k));
    }
  }

  lemma {:induction false} TakenNext(st: State, n: nat, st': State, k: nat)
    requires Shape(st) && Shape(st') && k < STAGES
    requires forall i: nat | i < STAGES :: Offers(st', i + 1) == Offers(st, i)
    ensures Taken(st', n + B(Offers(st', 0)), k + 1) == Taken(st, n, k)
  {
    if k > 0 {
      TakenNext(st, n, st', k - 1);
    }
  }

  lemma IntsStep(st: State, x: Samples, st': State, x': Samples)
    requires Shape(st) && MixerHolds(st, x) && Spaced(st) && IntsHold(st, x)
    requires Shape(st') && |x'.i| == |x.i| + B(Offers(st', 0)) && |x'.q| == |x'.i|
    requires x.i <= x'.i && x.q <= x'.q
    requires forall k: nat | k < STAGES :: st'.ints[k] == NextInt(st.ints[k], Offers(st, k), Offered(st, k))
    ensures IntsHold(st', x')
  {
    hide NextInt, IntHolds, MixerHolds, Spaced, Offered;
    forall k: nat | 0 < k <= STAGES
      ensures Taken(st', |x'.i|, k) >= 0 && IntHolds(st'.ints[k - 1], k, x', Taken(st', |x'.i|, k))
    {
      IntStep(st, x, st', x', k - 1);
    }
  }

  lemma IntStep(st: State, x: Samples, st': State, x': Samples, k: nat)
    requires Shape(st) && MixerHolds(st, x) && Spaced(st) && IntsHold(st, x) && k < STAGES
    requires Shape(st') && |x'.i| == |x.i| + B(Offers(st', 0)) && |x'.q| == |x'.i|
    requires x.i <= x'.i && x.q <= x'.q
    requires forall i: nat | i < STAGES :: st'.ints[i] == NextInt(st.ints[i], Offers(st, i), Offered(st, i))
    ensures Taken(st', |x'.i|, k + 1) >= 0
    ensures IntHolds(st'.ints[k], k + 1, x', Taken(st', |x'.i|, k + 1))
  {
    hide IntHolds, Offered, Masked, Sum, Spaced, MixerHolds, IntsHold, Offers, Taken, NextInt;
    OfferMeans(st, x, k);
    OffersMove(st, st');
    TakenNext(st, |x.i|, st', k);
    var taken := Taken(st, |x.i|, k + 1);
    IntStageStep(st.ints[k], k + 1, x, taken, Offers(st, k), Offered(st, k));
    IntHoldsLater(st'.ints[k], k + 1, x, x', taken + B(Offers(st, k)));
  }

  lemma OffersMove(st: State, st': State)
    requires Shape(st) && Shape(st')
    requires forall k: nat | k < STAGES :: st'.ints[k] == NextInt(st.ints[k], Offers(st, k), Offered(st, k))
    ensures forall k: nat | k < STAGES :: Offers(st', k + 1) == Offers(st, k)
  {
    hide Offered;
    forall k: nat | k < STAGES ensures Offers(st', k + 1) == Offers(st, k) {
      assert st'.ints[k] == NextInt(st.ints[k], Offers(st, k), Offered(st, k));
    }
  }

  lemma CombOfferMeans(st: State, x: Samples, factor: nat, j: nat)
    requires Inv(st, x, factor) && j < STAGES
    ensures var r := factor + 1;
            var taken := CombTaken(st, |x.i|, r, j + 1);
            && !(CombOffers(st, j) && CombOffers(st, j + 1))
            && 0 <= taken && taken + B(CombOffers(st, j)) == CombTaken(st, |x.i|, r, j)
            && (taken + B(CombOffers(st, j))) * r <= |x.i|
            && (CombOffers(st, j) ==> CombOffered(st, j) == Masked(Comb(j, x.i, r, taken + 1)))
            && (CombOffers(st, j + 1) ==> taken * r <= |x.q| && CombOffered(st, j) == Masked(Comb(j, x.q, r, taken)))
  {
    hide Masked, IntsHold, MixerHolds, SignExtend;
    var r := factor + 1;
    var taken := CombTaken(st, |x.i|, r, j + 1);
    assert CombHoldsAt(st, x, r, j + 1);
    assert !(CombOffers(st, j) && CombOffers(st, j + 1));
    if j > 0 {
      assert CombHoldsAt(st, x, r, j);
    } else {
      LastSum(st, x, factor);
    }
  }

  /** What the last integrator holds when the decimator or the first comb looks at it. */
  lemma LastSum(st: State, x: Samples, factor: nat)
    requires Inv(st, x, factor)
    ensures var r := factor + 1;
            var m := CombTaken(st, |x.i|, r, 0);
            && 0 <= m && m * r <= |x.i| && m * r <= |x.q|
            && (CombOffers(st, 0) ==> st.ints[STAGES - 1].out == Masked(Comb(0, x.i, r, m)))
            && (CombOffers(st, 1) ==> st.ints[STAGES - 1].out == Masked(Comb(0, x.q, r, m)))
  {
    hide Masked, CombsHold, SignExtend;
    var r := factor + 1;
    var taken := Taken(st, |x.i|, STAGES);
    assert IntHolds(st.ints[STAGES - 1], STAGES, x, taken);
    assert taken / r * r + taken % r == taken;
    TimesMonotone(0, taken / r, r);
  }

  lemma DecimatorStep(st: State, x: Samples, factor: nat, st': State, x': Samples)
    requires Inv(st, x, factor) && Shape(st') && |x'.i| == |x.i| + B(Offers(st', 0))
    requires forall k: nat | k < STAGES :: st'.ints[k] == NextInt(st.ints[k], Offers(st, k), Offered(st, k))
    requires st'.decimate == NextDecimator(st.decimate, factor, Offers(st, STAGES - 1))
    requires CombOffers(st', 1) == CombOffers(st, 0)
    ensures Decimates(st', x', factor)
    ensures CombTaken(st', |x'.i|, factor + 1, 1) == CombTaken(st, |x.i|, factor + 1, 0)
  {
    hide MixerHolds, IntsHold, CombsHold, Offered;
    var r := factor + 1;
    OffersMove(st, st');
    TakenNext(st, |x.i|, st', STAGES - 1);
    var taken := Taken(st, |x.i|, STAGES);
    assert Taken(st', |x'.i|, STAGES) == taken + B(Offers(st, STAGES - 1));
    assert Offers(st', STAGES) == Offers(st, STAGES - 1);
    assert !(Offers(st, STAGES - 1) && Offers(st, STAGES));
    OneMore(taken, r);
  }

  lemma OneMore(n: nat, r: nat)
    requires r > 0
    ensures (n + 1) % r == (if n % r == r - 1 then 0 else n % r + 1)
    ensures (n + 1) / r == n / r + (if n % r == r - 1 then 1 else 0)
  {
    if n % r == r - 1 {
      assert n + 1 == (n / r + 1) * r + 0;
      QuotientUnique(n + 1, r, n / r + 1, 0);
    } else {
      QuotientUnique(n + 1, r, n / r, n % r + 1);
    }
  }

  lemma {:induction false} CombTakenNext(st: State, x: Samples, factor: nat, st': State, x': Samples, j: nat)
    requires Shape(st) && Shape(st') && j < STAGES
    requires CombTaken(st', |x'.i|, factor + 1, 1) == CombTaken(st, |x.i|, factor + 1, 0)
    requires forall i: nat | i < STAGES :: CombOffers(st', i + 1) == CombOffers(st, i)
    ensures CombTaken(st', |x'.i|, factor + 1, j + 1) == CombTaken(st, |x.i|, factor + 1, j)
  {
    if j > 0 {
      CombTakenNext(st, x, factor, st', x', j - 1);
    }
  }

  lemma CombsStep(st: State, x: Samples, factor: nat, st': State, x': Samples)
    requires Inv(st, x, factor) && Shape(st') && x.i <= x'.i && x.q <= x'.q
    requires CombTaken(st', |x'.i|, factor + 1, 1) == CombTaken(st, |x.i|, factor + 1, 0)
    requires forall j: nat | j < STAGES ::
               st'.combs[STAGES - 1 - j] == NextComb(st.combs[STAGES - 1 - j], CombOffers(st, j), CombOffered(st, j))
    requires forall j: nat | j < STAGES :: CombOffers(st', j + 1) == CombOffers(st, j)
    ensures CombsHold(st', x', factor + 1)
  {
    hide Inv, CombHoldsAt;
    var r := factor + 1;
    forall j: nat | 0 < j <= STAGES ensures CombHoldsAt(st', x', r, j) {
      OneCombStep(st, x, factor, st', x', j - 1);
    }
  }

  lemma OneCombStep(st: State, x: Samples, factor: nat, st': State, x': Samples, j: nat)
    requires Inv(st, x, factor) && Shape(st') && x.i <= x'.i && x.q <= x'.q && j < STAGES
    requires CombTaken(st', |x'.i|, factor + 1, 1) == CombTaken(st, |x.i|, factor + 1, 0)
    requires st'.combs[STAGES - 1 - j] == NextComb(st.combs[STAGES - 1 - j], CombOffers(st, j), CombOffered(st, j))
    requires forall i: nat | i < STAGES :: CombOffers(st', i + 1) == CombOffers(st, i)
    ensures CombHoldsAt(st', x', factor + 1, j + 1)
  {
    hide CombHolds, CombOffered, Masked, Comb, IntsHold, NextComb, Decimates, Spaced;
    var r := factor + 1;
    var taken := CombTaken(st, |x.i|, r, j + 1);
    CombOfferMeans(st, x, factor, j);
    CombTakenNext(st, x, factor, st', x', j);
    assert CombHoldsAt(st, x, r, j + 1);
    CombStageStep(st.combs[STAGES - 1 - j], j + 1, x, r, taken, CombOffers(st, j), CombOffered(st, j));
    CombHoldsLater(st'.combs[STAGES - 1 - j], j + 1, x, x', r, taken + B(CombOffers(st, j)));
  }

  lemma SpacedStep(st: State, x: Samples, factor: nat, st': State)
    requires Inv(st, x, factor) && Shape(st')
    requires forall k: nat | k < STAGES :: Offers(st', k + 1) == Offers(st, k)
    requires forall j: nat | j < STAGES :: CombOffers(st', j + 1) == CombOffers(st, j)
    requires CombOffers(st', 0) ==> Offers(st, STAGES - 1)
    requires Offers(st', 0) ==> !Offers(st, 0)
    ensures Spaced(st')
  {
    hide MixerHolds, IntsHold, CombsHold, Offers, CombOffers;
    forall k: nat | k < STAGES ensures !(Offers(st', k) && Offers(st', k + 1)) {
      assert Offers(st', k + 1) == Offers(st, k);
      if k > 0 {
        assert Offers(st', k - 1 + 1) == Offers(st, k - 1);
        assert !(Offers(st, k - 1) && Offers(st, k - 1 + 1));
      }
    }
    forall j: nat | j < STAGES ensures !(CombOffers(st', j) && CombOffers(st', j + 1)) {
      assert CombOffers(st', j + 1) == CombOffers(st, j);
      if j > 0 {
        assert CombOffers(st', j - 1 + 1) == CombOffers(st, j - 1);
        assert !(CombOffers(st, j - 1) && CombOffers(st, j - 1 + 1));
      } else {
        assert !(Offers(st, STAGES - 1) && Offers(st, STAGES - 1 + 1));
      }
    }
    assert Offers(st', STAGES - 1 + 1) == Offers(st, STAGES - 1);
    assert CombOffers(st', 0 + 1) == CombOffers(st, 0);
  }

  lemma MixerStep(st: State, x: Samples, factor: nat, start: bool, productA: Product, productB: Product)
    requires Shape(st) && MixerHolds(st, x)
    ensures var st' := Next(st, factor, start, productA, productB);
            && MixerHolds(st', Sampled(st, x)) && (Offers(st', 0) ==> !Offers(st, 0))
            && |Sampled(st, x).i| == |x.i| + B(Offers(st', 0)) && |Sampled(st, x).q| == |Sampled(st, x).i|
            && x.i <= Sampled(st, x).i && x.q <= Sampled(st, x).q
  {
    hide SignExtend, NextInt, NextComb;
  }

  /** Every clock keeps every register equal to the running sums and differences it stands for. */
  lemma Keeps(st: State, x: Samples, factor: nat, start: bool, productA: Product, productB: Product)
    requires Inv(st, x, factor)
    ensures Inv(Next(st, factor, start, productA, productB), Sampled(st, x), factor)
    ensures CombTaken(Next(st, factor, start, productA, productB), |Sampled(st, x).i|, factor + 1, STAGES)
            == CombTaken(st, |x.i|, factor + 1, STAGES - 1)
    ensures forall j: nat | j < STAGES ::
              CombOffers(Next(st, factor, start, productA, productB), j + 1) == CombOffers(st, j)
  {
    var st', x' := Next(st, factor, start, productA, productB), Sampled(st, x);
    MixerStep(st, x, factor, start, productA, productB);
    Wiring(st, factor, start, productA, productB);
    hide Next, Sampled, MixerHolds, IntsHold, CombsHold, Decimates, Spaced, Offered, CombOffered;
    OffersMove(st, st');
    IntsStep(st, x, st', x');
    DecimatorStep(st, x, factor, st', x');
    CombsStep(st, x, factor, st', x');
    SpacedStep(st, x, factor, st');
    CombTakenNext(st, x, factor, st', x', STAGES - 1);
  }

  lemma Wiring(st: State, factor: nat, start: bool, productA: Product, productB: Product)
    requires Shape(st)
    ensures var st' := Next(st, factor, start, productA, productB);
            && Shape(st')
            && (forall k: nat | k < STAGES :: st'.ints[k] == NextInt(st.ints[k], Offers(st, k), Offered(st, k)))
            && (forall j: nat | j < STAGES ::
                  st'.combs[STAGES - 1 - j]
                      == NextComb(st.combs[STAGES - 1 - j], CombOffers(st, j), CombOffered(st, j)))
            && st'.decimate == NextDecimator(st.decimate, factor, Offers(st, STAGES - 1))
            && (CombOffers(st', 0) ==> Offers(st, STAGES - 1))
            && (forall j: nat | j < STAGES :: CombOffers(st', j + 1) == CombOffers(st, j))
  {
    hide Offers, Offered, CombOffered;
    var st' := Next(st, factor, start, productA, productB);
    forall j: nat | j < STAGES
      ensures CombOffers(st', j + 1) == CombOffers(st, j)
    {
      assert st'.combs[STAGES - 1 - j] == NextComb(st.combs[STAGES - 1 - j], CombOffers(st, j), CombOffered(st, j));
    }
  }

  // ----- the outputs -----

  /** The m-th decimated output of a channel: its five-fold moving sum of length factor + 1. */
  function Output(x: seq<int>, factor: nat, m: nat): (v: Register)
    requires (m + 1) * (factor + 1) <= |x|
  {
    Masked(Moving(STAGES, x, factor + 1, (m + 1) * (factor + 1)))
  }

  ghost predicate AreOutputs(v: seq<Register>, x: seq<int>, factor: nat) {
    && |v| * (factor + 1) <= |x|
    && forall m: nat | m < |v| :: (m + 1) * (factor + 1) <= |x| && v[m] == Output(x, factor, m)
  }

  lemma OutputsGrow(v: seq<Register>, x: seq<int>, factor: nat, w: Register)
    requires AreOutputs(v, x, factor) && (|v| + 1) * (factor + 1) <= |x|
    requires w == Masked(Comb(STAGES, x, factor + 1, |v| + 1))
    ensures AreOutputs(v + [w], x, factor)
  {
    CombsLeaveMovingSum(x, factor + 1, |v| + 1);
  }

  lemma OutputsStay(v: seq<Register>, x: seq<int>, y: seq<int>, factor: nat)
    requires AreOutputs(v, x, factor) && x <= y
    ensures AreOutputs(v, y, factor)
  {
    hide Masked;
    forall m: nat | m < |v| ensures (m + 1) * (factor + 1) <= |y| && v[m] == Output(y, factor, m) {
      CombsLeaveMovingSum(x, factor + 1, m + 1);
      CombsLeaveMovingSum(y, factor + 1, m + 1);
      assert y == x + y[|x|..];
      CombOfPrefix(STAGES, x, y[|x|..], factor + 1, m + 1);
    }
  }

  /** Every flag down and every register clear. */
  function Reset(factor: nat): (st: State)
    ensures Shape(st)
  {
    State(Mixer(Idle, 0, 0, 0, 0, false), 0, seq(STAGES, _ => IntStage(0, 0, false)),
          seq(STAGES, _ => CombStage(0, 0, 0, false)), Decimator(false, factor))
  }

  lemma ResetHolds(factor: nat)
    ensures Inv(Reset(factor), Samples([], []), factor)
    ensures CombTaken(Reset(factor), 0, factor + 1, STAGES) == 0 && !CombOffers(Reset(factor), STAGES)
  {
    hide IntHolds, CombHoldsAt;
    var st, x := Reset(factor), Samples([], []);
    TakenAtReset(factor, STAGES);
    CombTakenAtReset(factor, STAGES);
    assert 0 % (factor + 1) == 0;
    forall k: nat | 0 < k <= STAGES ensures Taken(st, 0, k) >= 0 && IntHolds(st.ints[k - 1], k, x, Taken(st, 0, k)) {
      IntAtReset(factor, k);
    }
    var r := factor + 1;
    forall j: nat | 0 < j <= STAGES ensures CombHoldsAt(st, x, r, j) {
      CombAtReset(factor, j);
    }
  }

  lemma IntAtReset(factor: nat, k: nat)
    requires 0 < k <= STAGES
    ensures Taken(Reset(factor), 0, k) >= 0
    ensures IntHolds(Reset(factor).ints[k - 1], k, Samples([], []), Taken(Reset(factor), 0, k))
  {
    TakenAtReset(factor, k);
    assert Sum(k, [], 0) == 0;
  }

  lemma CombAtReset(factor: nat, j: nat)
    requires 0 < j <= STAGES
    ensures CombHoldsAt(Reset(factor), Samples([], []), factor + 1, j)
  {
    CombTakenAtReset(factor, j);
    assert 0 * (factor + 1) == 0;
    assert Comb(j, [], factor + 1, 0) == 0 && Comb(j - 1, [], factor + 1, 0) == 0;
  }

  lemma {:induction false} TakenAtReset(factor: nat, k: nat)
    requires k <= STAGES
    ensures Taken(Reset(factor), 0, k) == 0
  {
    if k > 0 {
      TakenAtReset(factor, k - 1);
    }
  }

  lemma {:induction false} CombTakenAtReset(factor: nat, j: nat)
    requires j <= STAGES
    ensures CombTaken(Reset(factor), 0, factor + 1, j) == 0
  {
    if j > 0 {
      CombTakenAtReset(factor, j - 1);
    } else {
      TakenAtReset(factor, STAGES);
    }
  }

  /** The value on the last comb is the next output of its channel. */
  lemma TakeOutput(st: State, x: Samples, x': Samples, factor: nat, i: seq<Register>, q: seq<Register>, taking: bool)
    requires Inv(st, x, factor) && x.i <= x'.i && x.q <= x'.q
    requires AreOutputs(i, x.i, factor) && AreOutputs(q, x.q, factor)
    requires |i| + B(CombOffers(st, STAGES)) == CombTaken(st, |x.i|, factor + 1, STAGES)
    requires |i| == |q| + B(taking) && (taking ==> !CombOffers(st, STAGES))
    ensures AreOutputs(if CombOffers(st, STAGES) then i + [CombOffered(st, STAGES)] else i, x'.i, factor)
    ensures AreOutputs(if taking then q + [CombOffered(st, STAGES)] else q, x'.q, factor)
  {
    hide Masked, AreOutputs, Decimates, Spaced, IntsHold, MixerHolds, Comb;
    var r := factor + 1;
    assert CombHoldsAt(st, x, r, STAGES);
    var i', q' := i, q;
    if CombOffers(st, STAGES) {
      OutputsGrow(i, x.i, factor, CombOffered(st, STAGES));
      i' := i + [CombOffered(st, STAGES)];
    }
    if taking {
      OutputsGrow(q, x.q, factor, CombOffered(st, STAGES));
      q' := q + [CombOffered(st, STAGES)];
    }
    OutputsStay(i', x.i, x'.i, factor);
    OutputsStay(q', x.q, x'.q, factor);
  }

  /** The mixer turns the sample by the phase: with the cosine products a0, b0 of i and q
      and the sine products a1, b1 one cycle later, it offers (a0 - b1, b0 + a1) and is idle. */
  lemma MixerRotates(m: Mixer, a0: Product, b0: Product, a1: Product, b1: Product, a2: Product, b2: Product)
    requires m.fsm == Idle
    ensures NextMixer(NextMixer(NextMixer(m, true, a0, b0), false, a1, b1), false, a2, b2)
            == Mixer(Idle, a2, b2, (a0 - b1) % 0x4_0000, (b0 + a1) % 0x4_0000, true)
    ensures NextMixer(m, false, a0, b0) == Mixer(Idle, a0, b0, m.iOut, m.qOut, false)
  {
  }

  /** Nothing is lost: once no level has anything on offer, every full group of factor + 1
      samples has become an output. */
  lemma DrainedFilter(st: State, x: Samples, factor: nat)
    requires Inv(st, x, factor)
    requires forall k: nat | k <= STAGES :: !Offers(st, k) && !CombOffers(st, k)
    ensures CombTaken(st, |x.i|, factor + 1, STAGES) == |x.i| / (factor + 1)
  {
    AllTaken(st, |x.i|, factor + 1, STAGES);
  }

  lemma {:induction false} AllTaken(st: State, n: nat, r: nat, k: nat)
    requires Shape(st) && r > 0 && k <= STAGES
    requires forall i: nat | i <= STAGES :: !Offers(st, i) && !CombOffers(st, i)
    ensures Taken(st, n, k) == n && CombTaken(st, n, r, k) == n / r
  {
    if k > 0 {
      AllTaken(st, n, r, k - 1);
    } else {
      AllTakenInts(st, n, STAGES);
    }
  }

  lemma {:induction false} AllTakenInts(st: State, n: nat, k: nat)
    requires Shape(st) && k <= STAGES
    requires forall i: nat | i <= STAGES :: !Offers(st, i) && !CombOffers(st, i)
    ensures Taken(st, n, k) == n
  {
    if k > 0 {
      AllTakenInts(st, n, k - 1);
    }
  }

  lemma InvMixer(st: State, x: Samples, factor: nat)
    requires Inv(st, x, factor)
    ensures Shape(st) && x.i <= Sampled(st, x).i && x.q <= Sampled(st, x).q
    ensures !(CombOffers(st, STAGES - 1) && CombOffers(st, STAGES))
  {
    assert !(CombOffers(st, STAGES - 1) && CombOffers(st, STAGES - 1 + 1));
  }

  class Filter {
    const factor: nat
    var state: State
    var nextState: State
    /** The I output was taken in the last cycle; the Q output is taken now. */
    var taking: bool

    // the samples so far and the outputs that were taken
    ghost var x: Samples
    ghost var iOutputs: seq<Register>
    ghost var qOutputs: seq<Register>

    /** Every output so far is the moving sum of its own channel, none is missing and none
        is out of order. */
    ghost predicate Valid()
      reads this
    {
      && Inv(state, x, factor)
      && AreOutputs(iOutputs, x.i, factor) && AreOutputs(qOutputs, x.q, factor)
      && |iOutputs| + B(CombOffers(state, STAGES)) == CombTaken(state, |x.i|, factor + 1, STAGES)
      && |iOutputs| == |qOutputs| + B(taking)
      && (taking ==> !CombOffers(state, STAGES))
    }

    constructor (factor: nat)
      ensures Valid() && this.factor == factor && x == Samples([], []) && state.mixer.fsm.Idle?
    {
      this.factor := factor;
      state := Reset(factor);
      nextState := Reset(factor);
      taking, x, iOutputs, qOutputs := false, Samples([], []), [], [];
      new;
      ResetHolds(factor);
    }

    method IntStagePreclock(stage: nat, validIn: bool, value: int)
      requires 0 < stage <= STAGES && Shape(state) && Shape(nextState)
      modifies `nextState
      ensures var next := NextInt(state.ints[stage - 1], validIn, value);
              nextState == old(nextState).(ints := old(nextState).ints[stage - 1 := next])
    {
      var next := state.ints[stage - 1];
      if validIn || state.ints[stage - 1].validOut {
        next := next.(out := Masked(state.ints[stage - 1].acc + value));
        next := next.(acc := state.ints[stage - 1].out);
      }
      next := next.(validOut := validIn);
      nextState := nextState.(ints := nextState.ints[stage - 1 := next]);
    }

    method CombStagePreclock(stage: nat, validIn: bool, value: Register)
      requires 0 < stage <= STAGES && Shape(state) && Shape(nextState)
      modifies `nextState
      ensures var next := NextComb(state.combs[stage - 1], validIn, value);
              nextState == old(nextState).(combs := old(nextState).combs[stage - 1 := next])
    {
      var next := state.combs[stage - 1];
      if validIn || state.combs[stage - 1].validOut {
        next := next.(pipe0 := value);
        next := next.(pipe1 := state.combs[stage - 1].pipe0);
        next := next.(value := Masked(value - state.combs[stage - 1].pipe1));
      }
      next := next.(validOut := validIn);
      nextState := nextState.(combs := nextState.combs[stage - 1 := next]);
    }

    method Preclock(start: bool, productA: Product, productB: Product)
      requires Shape(state)
      modifies `nextState
      ensures nextState == Next(state, factor, start, productA, productB)
    {
      hide NextCombs, NextComb, SignExtend;
      nextState := state;
      nextState := nextState.(mixer := NextMixer(state.mixer, start, productA, productB));
      var cicIn := SignExtend(state.qStore);
      if state.mixer.validOut {
        nextState := nextState.(qStore := state.mixer.qOut);
        cicIn := SignExtend(state.mixer.iOut);
      }
      IntsPreclock(cicIn);
      CombsPreclock();
      nextState := nextState.(decimate := state.decimate.(validOut := false));
      if nextState.ints[4].validOut {
        if state.decimate.count == 0 {
          nextState := nextState.(decimate := Decimator(true, factor));
        } else {
          nextState := nextState.(decimate := nextState.decimate.(count := state.decimate.count - 1));
        }
      }
    }

    method IntsPreclock(cicIn: int)
      requires Shape(state) && Shape(nextState) && cicIn == Offered(state, 0)
      modifies `nextState
      ensures nextState == old(nextState).(ints := NextInts(state))
    {
      hide NextInt, SignExtend, NextComb;
      IntStagePreclock(1, state.mixer.validOut, cicIn);
      IntStagePreclock(2, state.ints[0].validOut, state.ints[0].out);
      IntStagePreclock(3, state.ints[1].validOut, state.ints[1].out);
      IntStagePreclock(4, state.ints[2].validOut, state.ints[2].out);
      IntStagePreclock(5, state.ints[3].validOut, state.ints[3].out);
      assert nextState.ints == NextInts(state);
    }

    method CombsPreclock()
      requires Shape(state) && Shape(nextState)
      modifies `nextState
      ensures nextState == old(nextState).(combs := NextCombs(state))
    {
      hide NextInt, SignExtend, NextComb;
      CombStagePreclock(5, state.decimate.validOut, state.ints[4].out);
      CombStagePreclock(4, state.combs[4].validOut, state.combs[4].value);
      CombStagePreclock(3, state.combs[3].validOut, state.combs[3].value);
      CombStagePreclock(2, state.combs[2].validOut, state.combs[2].value);
      CombStagePreclock(1, state.combs[1].validOut, state.combs[1].value);
      assert nextState.combs == NextCombs(state);
    }

    /** One clock: the output that is on the last comb is taken, I first and Q after it. */
    method Cycle(start: bool, productA: Product, productB: Product)
      requires Valid()
      modifies this
      ensures Valid() && state == Next(old(state), factor, start, productA, productB)
      ensures x == Sampled(old(state), old(x))
      ensures iOutputs == if CombOffers(old(state), STAGES) then old(iOutputs) + [CombOffered(old(state), STAGES)]
                          else old(iOutputs)
      ensures qOutputs == if old(taking) then old(qOutputs) + [CombOffered(old(state), STAGES)] else old(qOutputs)
    {
      hide Next, Inv, AreOutputs;
      InvMixer(state, x, factor);
      Preclock(start, productA, productB);
      ghost var x' := Sampled(state, x);
      TakeOutput(state, x, x', factor, iOutputs, qOutputs, taking);
      Keeps(state, x, factor, start, productA, productB);
      if CombOffers(state, STAGES) {
        iOutputs := iOutputs + [CombOffered(state, STAGES)];
      }
      if taking {
        qOutputs := qOutputs + [CombOffered(state, STAGES)];
      }
      taking := state.combs[0].validOut;
      x := x';
      state := nextState;
    }
  }
}
