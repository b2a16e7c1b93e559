/**
 * Exact decimal arithmetic used by the projection engine, over `real`.
 * Python's `Decimal ** int` becomes `Pow` (non-negative exponent) or
 * `IntPow` (any integer exponent); the sums that the calculators build
 * month by month are stated here once.
 */
module Numeric {

  function Max(a: real, b: real): (m: real)
    ensures m >= a && m >= b && (m == a || m == b)
  {
    if a >= b then a else b
  }

  function Min(a: real, b: real): (m: real)
    ensures m <= a && m <= b && (m == a || m == b)
  {
    if a <= b then a else b
  }

  /** The absolute value of a decimal. */
  function Magnitude(v: real): (m: real)
    ensures m >= 0.0 && (m == v || m == -v)
  {
    if v < 0.0 then -v else v
  }

  /** The growth a balance earns in one period at a periodic rate. */
  function GainOn(balance: real, rate: real): real
  {
    balance * rate
  }

  /** A return of -100% or better never takes a non-negative balance below zero. */
  lemma GrownStaysNonNegative(balance: real, rate: real)
    requires balance >= 0.0 && rate >= -1.0
    ensures balance + GainOn(balance, rate) >= 0.0
  {
    assert balance * (rate + 1.0) >= 0.0;
  }

  /** A yearly amount after one year of inflation. */
  function Inflated(amount: real, inflationRate: real): real
  {
    amount * (1.0 + inflationRate)
  }

  /** x raised to a natural power. */
  function Pow(x: real, n: nat): real
  {
    if n == 0 then 1.0 else x * Pow(x, n - 1)
  }

  /**
   * `Decimal ** int`: a negative exponent divides. `0 ** 0` raises, and
   * `0 ** -n` is Infinity, which is not modelled; hence the precondition.
   */
  function IntPow(x: real, n: int): (r: real)
    requires n > 0 || x != 0.0
    ensures n >= 0 ==> r == Pow(x, n)
    ensures n < 0 ==> r * Pow(x, -n) == 1.0
  {
    if n >= 0 then Pow(x, n)
    else
      PowNonZero(x, -n);
      1.0 / Pow(x, -n)
  }

  /** Sum of x^k for k < n: the growth of n equal deposits. */
  function GeoSum(x: real, n: nat): real
  {
    if n == 0 then 0.0 else GeoSum(x, n - 1) + Pow(x, n - 1)
  }

  /**
   * Unit deposits made at periods 0 .. m-1 and valued at period n: the
   * deposit of period k has grown for n - k periods.
   */
  function GrownDeposits(x: real, n: nat, m: nat): real
    requires m <= n
  {
    if m == 0 then 0.0 else GrownDeposits(x, n, m - 1) + Pow(x, n - (m - 1))
  }

  lemma {:induction false} PowNonZero(x: real, n: nat)
    requires x != 0.0
    ensures Pow(x, n) != 0.0
  {
    if n > 0 {
      PowNonZero(x, n - 1);
    }
  }

  lemma {:induction false} PowOne(n: nat)
    ensures Pow(1.0, n) == 1.0
  {
    if n > 0 {
      PowOne(n - 1);
    }
  }

  lemma {:induction false} PowPositive(x: real, n: nat)
    requires x > 0.0
    ensures Pow(x, n) > 0.0
  {
    if n > 0 {
      PowPositive(x, n - 1);
    }
  }

  lemma {:induction false} PowAtLeastOne(x: real, n: nat)
    requires x >= 1.0
    ensures Pow(x, n) >= 1.0
  {
    if n > 0 {
      PowAtLeastOne(x, n - 1);
      assert x * Pow(x, n - 1) >= Pow(x, n - 1);
    }
  }

  lemma {:induction false} PowAdd(x: real, m: nat, n: nat)
    ensures Pow(x, m + n) == Pow(x, m) * Pow(x, n)
  {
    if n > 0 {
      PowAdd(x, m, n - 1);
      MulLeftComm(x, Pow(x, m), Pow(x, n - 1));
    }
  }

  /** Reassociating a product of three factors. */
  lemma ScaleEqual(x: real, a: real, b: real)
    requires a == b
    ensures x * a == x * b
  {
  }

  lemma MulLeftComm(a: real, b: real, c: real)
    ensures a * (b * c) == b * (a * c)
  {
  }

  /** GeoSum(1, n) counts the deposits. */
  lemma {:induction false} GeoSumOfOne(n: nat)
    ensures GeoSum(1.0, n) == n as real
  {
    if n > 0 {
      GeoSumOfOne(n - 1);
      PowOne(n - 1);
    }
  }

  /** Horner form: one more period of growth on n deposits plus a fresh deposit. */
  lemma {:induction false} GeoSumShift(x: real, n: nat)
    ensures GeoSum(x, n + 1) == 1.0 + x * GeoSum(x, n)
  {
    if n > 0 {
      GeoSumShift(x, n - 1);
      calc {
        GeoSum(x, n + 1);
        GeoSum(x, n) + Pow(x, n);
        (1.0 + x * GeoSum(x, n - 1)) + x * Pow(x, n - 1);
        1.0 + x * (GeoSum(x, n - 1) + Pow(x, n - 1));
        1.0 + x * GeoSum(x, n);
      }
    }
  }

  /** The closed form of the geometric sum: (x - 1) * sum x^k == x^n - 1. */
  lemma {:induction false} GeoSumClosedForm(x: real, n: nat)
    ensures GeoSum(x, n) * (x - 1.0) == Pow(x, n) - 1.0
  {
    if n > 0 {
      GeoSumClosedForm(x, n - 1);
      calc {
        GeoSum(x, n) * (x - 1.0);
        (GeoSum(x, n - 1) + Pow(x, n - 1)) * (x - 1.0);
        GeoSum(x, n - 1) * (x - 1.0) + Pow(x, n - 1) * (x - 1.0);
        (Pow(x, n - 1) - 1.0) + Pow(x, n - 1) * (x - 1.0);
        x * Pow(x, n - 1) - 1.0;
      }
    }
  }

  /** m deposits valued at period n: the latest has grown n - m + 1 periods, each earlier one x times more. */
  lemma {:induction false} GrownDepositsClosedForm(x: real, n: nat, m: nat)
    requires m <= n
    ensures GrownDeposits(x, n, m) == Pow(x, n - m + 1) * GeoSum(x, m)
  {
    if m > 0 {
      var p := Pow(x, n - m + 1);
      calc {
        GrownDeposits(x, n, m);
        GrownDeposits(x, n, m - 1) + p;
        { GrownDepositsClosedForm(x, n, m - 1); }
        Pow(x, n - m + 2) * GeoSum(x, m - 1) + p;
        (x * p) * GeoSum(x, m - 1) + p;
        { HornerStep(p, x, GeoSum(x, m - 1)); }
        p * (1.0 + x * GeoSum(x, m - 1));
        { GeoSumShift(x, m - 1); }
        p * GeoSum(x, m);
      }
    }
  }

  /** n deposits of d valued at period n, each paid at the start of its period: one period's growth on the annuity. */
  lemma DepositsAreAnnuityDue(d: real, x: real, n: nat)
    ensures d * GrownDeposits(x, n, n) == x * (d * GeoSum(x, n))
  {
    GrownDepositsClosedForm(x, n, n);
    assert Pow(x, 1) == x;
    MulLeftComm(d, x, GeoSum(x, n));
  }

  lemma HornerStep(p: real, x: real, g: real)
    ensures (x * p) * g + p == p * (1.0 + x * g)
  {
  }

  /** One more period of growth on a start value and a geometric sum of equal flows. */
  lemma GrowAndAdd(b: real, start: real, flow: real, x: real, p: real, g: real)
    requires b == start * p + flow * g
    ensures b * x + flow == start * (x * p) + flow * (1.0 + x * g)
  {
  }

  /** Growth at rate r then an inflow and an outflow: the balance times 1 + r plus the net flow. */
  lemma GainThenFlows(b: real, r: real, c: real, w: real)
    ensures b + GainOn(b, r) + c - w == b * (1.0 + r) + (c - w)
  {
  }

  /** A start value compounded n periods plus n equal end-of-period flows. */
  function ClosedBalance(start: real, flow: real, x: real, n: nat): real
  {
    start * Pow(x, n) + flow * GeoSum(x, n)
  }

  /**
   * A balance in closed form stays in closed form after one more period of
   * growth at rate r, one more inflow c and one more outflow w.
   */
  lemma CompoundOnePeriod(b: real, start: real, r: real, c: real, w: real, n: nat)
    requires b == ClosedBalance(start, c - w, 1.0 + r, n)
    ensures b + GainOn(b, r) + c - w == ClosedBalance(start, c - w, 1.0 + r, n + 1)
  {
    GainThenFlows(b, r, c, w);
    GrowAndAdd(b, start, c - w, 1.0 + r, Pow(1.0 + r, n), GeoSum(1.0 + r, n));
    GeoSumShift(1.0 + r, n);
  }
}
