/** What a cascade of five integrators, a decimator and five combs computes: the five-fold
    moving sum. Signals are zero before their first sample. */
module CicMath {

  /** The k-fold running sum of the first n samples. */
  function Sum(k: nat, x: seq<int>, n: int): (s: int)
    requires n <= |x|
    decreases k, if n > 0 then n else 0
  {
    if n <= 0 then 0 else if k == 0 then x[n - 1] else Sum(k, x, n - 1) + Sum(k - 1, x, n)
  }

  /** The sum of the last r values of the (j-1)-fold moving sum, j times over. */
  function Moving(j: nat, x: seq<int>, r: nat, n: int): (s: int)
    requires n <= |x|
    decreases j, 0, 0
  {
    if j == 0 then Sum(0, x, n) else Window(j - 1, x, r, n, r)
  }

  function Window(j: nat, x: seq<int>, r: nat, n: int, w: nat): (s: int)
    requires n <= |x|
    decreases j, 1, w
  {
    if w == 0 then 0 else Window(j, x, r, n, w - 1) + Moving(j, x, r, n - (w - 1))
  }

  /** The m-th output of the j-th comb on the decimated five-fold sum. */
  function Comb(j: nat, x: seq<int>, r: nat, m: int): (s: int)
    requires m * r <= |x|
  {
    if m <= 0 then 0
    else if j == 0 then Sum(5, x, m * r)
    else
      assert (m - 1) * r <= m * r;
      Comb(j - 1, x, r, m) - Comb(j - 1, x, r, m - 1)
  }

  /** The k-fold sum, differenced j times at a distance of r samples. */
  ghost function Delayed(j: nat, k: nat, x: seq<int>, r: nat, n: int): (s: int)
    requires n <= |x|
  {
    if j == 0 then Sum(k, x, n) else Delayed(j - 1, k, x, r, n) - Delayed(j - 1, k, x, r, n - r)
  }

  /** Differencing at a distance commutes with differencing neighbours, which undoes a sum. */
  lemma {:induction false} NeighbourDifference(j: nat, k: nat, x: seq<int>, r: nat, n: int)
    requires n <= |x|
    ensures Delayed(j, k + 1, x, r, n) - Delayed(j, k + 1, x, r, n - 1) == Delayed(j, k, x, r, n)
  {
    if j > 0 {
      NeighbourDifference(j - 1, k, x, r, n);
      NeighbourDifference(j - 1, k, x, r, n - r);
    }
  }

  lemma {:induction false} WindowTelescopes(j: nat, x: seq<int>, r: nat, n: int, w: nat)
    requires n <= |x|
    ensures Window(j, x, r, n, w) == Delayed(j, j + 1, x, r, n) - Delayed(j, j + 1, x, r, n - w)
    decreases j, 1, w
  {
    if w > 0 {
      WindowTelescopes(j, x, r, n, w - 1);
      MovingIsDelayed(j, x, r, n - (w - 1));
      NeighbourDifference(j, j, x, r, n - (w - 1));
    }
  }

  lemma {:induction false} MovingIsDelayed(j: nat, x: seq<int>, r: nat, n: int)
    requires n <= |x|
    ensures Moving(j, x, r, n) == Delayed(j, j, x, r, n)
    decreases j, 0, 0
  {
    if j > 0 {
      WindowTelescopes(j - 1, x, r, n, r);
    }
  }

  lemma {:induction false} DelayedBeforeStart(j: nat, k: nat, x: seq<int>, r: nat, n: int)
    requires n <= 0
    ensures Delayed(j, k, x, r, n) == 0
  {
    if j > 0 {
      DelayedBeforeStart(j - 1, k, x, r, n);
      DelayedBeforeStart(j - 1, k, x, r, n - r);
    }
  }

  lemma {:induction false} CombIsDelayed(j: nat, x: seq<int>, r: nat, m: int)
    requires m * r <= |x|
    ensures Comb(j, x, r, m) == Delayed(j, 5, x, r, m * r)
  {
    if m <= 0 {
      DelayedBeforeStart(j, 5, x, r, m * r);
    } else if j > 0 {
      assert (m - 1) * r == m * r - r;
      CombIsDelayed(j - 1, x, r, m);
      CombIsDelayed(j - 1, x, r, m - 1);
    }
  }

  /** Five combs after five integrators and a decimator leave the five-fold moving sum. */
  lemma CombsLeaveMovingSum(x: seq<int>, r: nat, m: int)
    requires m * r <= |x|
    ensures Comb(5, x, r, m) == Moving(5, x, r, m * r)
  {
    CombIsDelayed(5, x, r, m);
    MovingIsDelayed(5, x, r, m * r);
  }

  /** Later samples do not change a sum. */
  lemma {:induction false} SumOfPrefix(k: nat, x: seq<int>, y: seq<int>, n: int)
    requires n <= |x|
    ensures Sum(k, x + y, n) == Sum(k, x, n)
    decreases k, if n > 0 then n else 0
  {
    if n > 0 && k > 0 {
      SumOfPrefix(k, x, y, n - 1);
      SumOfPrefix(k - 1, x, y, n);
    }
  }

  lemma {:induction false} CombOfPrefix(j: nat, x: seq<int>, y: seq<int>, r: nat, m: int)
    requires m * r <= |x|
    ensures Comb(j, x + y, r, m) == Comb(j, x, r, m)
  {
    if m > 0 {
      assert (m - 1) * r <= m * r;
      if j == 0 {
        SumOfPrefix(5, x, y, m * r);
      } else {
        CombOfPrefix(j - 1, x, y, r, m);
        CombOfPrefix(j - 1, x, y, r, m - 1);
      }
    }
  }
}
