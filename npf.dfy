/**
 * The two numpy_financial functions the projection engine calls with a closed
 * form: `pmt` (the level payment of an amortising loan) and `npv` (net present
 * value, first flow undiscounted). Both use numpy_financial's sign convention:
 * money received is positive, money paid out is negative.
 */
module Npf {
  import opened Series

  /** Real division by a positive number, characterised by its defining product. */
  function Quotient(a: real, b: real): (q: real)
    requires b > 0.0
    ensures q * b == a
    ensures a == 0.0 ==> q == 0.0
    ensures a >= 0.0 ==> q >= 0.0
    ensures a > 0.0 ==> q > 0.0
  {
    a / b
  }

  /**
   * The time-value-of-money recursion behind `pmt` (payments at period end):
   * the value of present value `pv` after k periods at `rate`, with `pmt` added
   * at the end of each period. It is numpy_financial's `-fv(rate, k, pmt, pv)`;
   * for a loan granted (pv < 0: the lender pays the principal out) it is minus
   * the debt still outstanding.
   */
  function Value(rate: real, pv: real, pmt: real, k: nat): real
  {
    if k == 0 then pv else Value(rate, pv, pmt, k - 1) * (1.0 + rate) + pmt
  }

  /**
   * `npf.pmt(rate, nper, pv)` with fv = 0 and payments at period end:
   * the constant payment that brings `pv` to zero in `nper` periods
   * (French, constant-instalment amortisation); `-pv / nper` at rate 0.
   * At a positive rate the closed form of the value after `nper` payments is 0.
   */
  function Pmt(rate: real, nper: nat, pv: real): (p: real)
    requires rate >= 0.0 && nper >= 1
    ensures pv == 0.0 ==> p == 0.0
    ensures pv < 0.0 ==> p > 0.0
    ensures rate == 0.0 ==> p * nper as real == -pv
    ensures rate > 0.0 ==> ClosedForm(rate, pv, p, 0.0, Pow(1.0 + rate, nper))
  {
    if rate == 0.0 then Quotient(-pv, nper as real)
    else
      var growth := Pow(1.0 + rate, nper);
      Quotient(-pv * growth * rate, growth - 1.0)
  }

  /**
   * The closed form of the value, multiplied through by the rate so that it
   * also holds at rate 0: `v * rate == pv * g * rate + pmt * (g - 1)` where
   * `g` is the growth factor `(1 + rate) ** k`.
   */
  predicate ClosedForm(rate: real, pv: real, pmt: real, v: real, g: real)
  {
    v * rate == pv * g * rate + pmt * (g - 1.0)
  }

  /** The value after k periods satisfies the closed form. */
  lemma {:induction false} ValueTimesRate(rate: real, pv: real, pmt: real, k: nat)
    ensures ClosedForm(rate, pv, pmt, Value(rate, pv, pmt, k), Pow(1.0 + rate, k))
  {
    if k > 0 {
      ValueTimesRate(rate, pv, pmt, k - 1);
      ValueStep(rate, pv, pmt, Value(rate, pv, pmt, k - 1), Pow(1.0 + rate, k - 1), Value(rate, pv, pmt, k), Pow(1.0 + rate, k));
    }
  }

  lemma ValueStep(rate: real, pv: real, pmt: real, v: real, g: real, v': real, g': real)
    requires ClosedForm(rate, pv, pmt, v, g)
    requires v' == v * (1.0 + rate) + pmt && g' == (1.0 + rate) * g
    ensures ClosedForm(rate, pv, pmt, v', g')
  {
    var q := 1.0 + rate;
    assert (v * rate) * q == (pv * g * rate + pmt * (g - 1.0)) * q;
    assert (v * q + pmt) * rate == (v * rate) * q + pmt * rate;
  }

  /** At rate 0 the value grows linearly by one payment per period. */
  lemma {:induction false} ValueAtZeroRate(pv: real, pmt: real, k: nat)
    ensures Value(0.0, pv, pmt, k) == pv + k as real * pmt
  {
    if k > 0 {
      ValueAtZeroRate(pv, pmt, k - 1);
    }
  }

  /**
   * `pmt` settles the loan: after `nper` level payments the value is exactly 0
   * (the fv = 0 condition), and it is the only constant payment that does so.
   */
  lemma {:induction false} PmtSettles(rate: real, nper: nat, pv: real, p: real)
    requires rate >= 0.0 && nper >= 1
    ensures Value(rate, pv, p, nper) == 0.0 <==> p == Pmt(rate, nper, pv)
  {
    var m, v := Pmt(rate, nper, pv), Value(rate, pv, p, nper);
    if rate == 0.0 {
      ValueAtZeroRate(pv, p, nper);
      LinearSettleIdentity(pv, p, m, nper as real, v);
    } else {
      var g := Pow(1.0 + rate, nper);
      ValueTimesRate(rate, pv, p, nper);
      SettleIdentity(rate, pv, p, m, g, v);
    }
  }

  lemma LinearSettleIdentity(pv: real, p: real, m: real, n: real, v: real)
    requires n > 0.0
    requires m * n == -pv
    requires v == pv + n * p
    ensures v == 0.0 <==> p == m
  {
    assert v == (p - m) * n;
    ZeroProduct(p - m, n);
  }

  lemma SettleIdentity(rate: real, pv: real, p: real, m: real, g: real, v: real)
    requires rate > 0.0 && g > 1.0
    requires ClosedForm(rate, pv, m, 0.0, g)
    requires ClosedForm(rate, pv, p, v, g)
    ensures v == 0.0 <==> p == m
  {
    assert v * rate == (p - m) * (g - 1.0);
    ZeroProduct(v, rate);
    ZeroProduct(p - m, g - 1.0);
  }

  lemma ZeroProduct(x: real, y: real)
    requires y != 0.0
    ensures x * y == 0.0 <==> x == 0.0
  {
  }

  /** Each flow divided by `(1 + rate) ** t`, t its index: the first stays, and no flow changes sign. */
  function Discounted(rate: real, values: seq<real>): (d: seq<real>)
    requires rate > -1.0
    ensures |d| == |values|
    ensures |values| > 0 ==> d[0] == values[0]
    ensures forall t :: 0 <= t < |values| ==> (values[t] >= 0.0 <==> d[t] >= 0.0)
  {
    seq(|values|, t requires 0 <= t < |values| => values[t] / Pow(1.0 + rate, t))
  }

  /** `npf.npv(rate, values)`: the first flow undiscounted, flow t divided by `(1 + rate) ** t`. */
  function Npv(rate: real, values: seq<real>): (r: real)
    requires rate > -1.0
    ensures |values| == 1 ==> r == values[0]
    ensures (forall t :: 0 <= t < |values| ==> values[t] >= 0.0) ==> r >= 0.0
  {
    var d := Discounted(rate, values);
    SumSingleton(d);
    SumNonNegative(d);
    Sum(d)
  }

  lemma {:induction false} SumDividedBy(s: seq<real>, c: real)
    requires c != 0.0
    ensures Sum(seq(|s|, i requires 0 <= i < |s| => s[i] / c)) == Sum(s) / c
  {
    var d := seq(|s|, i requires 0 <= i < |s| => s[i] / c);
    if |s| > 0 {
      assert d[1..] == seq(|s[1..]|, i requires 0 <= i < |s[1..]| => s[1..][i] / c);
      SumDividedBy(s[1..], c);
    }
  }

  /** NPV satisfies Horner's recurrence: a leading flow stays, the rest is discounted one more period. */
  lemma NpvCons(rate: real, x: real, values: seq<real>)
    requires rate > -1.0
    ensures Npv(rate, [x] + values) == x + Npv(rate, values) / (1.0 + rate)
  {
    var q := 1.0 + rate;
    var d, dv := Discounted(rate, [x] + values), Discounted(rate, values);
    var shifted := seq(|dv|, i requires 0 <= i < |dv| => dv[i] / q);
    assert d[0] == x;
    forall t | 0 <= t < |values|
      ensures d[1..][t] == shifted[t]
    {
      var g := Pow(q, t);
      assert Pow(q, t + 1) == q * g;
      DivideTwice(values[t], g, q);
    }
    assert d[1..] == shifted;
    assert Sum(d) == x + Sum(shifted);
    SumDividedBy(dv, q);
  }

  lemma DivideTwice(a: real, g: real, q: real)
    requires g > 0.0 && q > 0.0
    ensures a / (q * g) == a / g / q
  {
    var lhs, rhs := a / (q * g), a / g / q;
    assert lhs * (q * g) == a;
    assert rhs * q == a / g;
    assert (rhs * q) * g == a;
    assert (lhs - rhs) * (q * g) == 0.0;
  }

  /** At rate 0 nothing is discounted: the NPV is the plain sum of the flows. */
  lemma NpvAtZeroRate(values: seq<real>)
    ensures Npv(0.0, values) == Sum(values)
  {
    forall t | 0 <= t < |values| ensures Discounted(0.0, values)[t] == values[t] {
      PowOne(t);
    }
    assert Discounted(0.0, values) == values;
  }
}
