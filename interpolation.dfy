/**
 * Discount-curve lookup (`interpolar_factor_descuento`): a query date that is a
 * pillar date gets that pillar's factor, a date outside the curve gets the
 * factor of the nearest end, and a date between pillars gets the log-linear
 * interpolant of the pillar strictly before and the pillar strictly after it.
 *
 * Dates are day numbers; the Actual/365 year fraction is `days / 365` as a real.
 */
module Interpolation {
  import opened Wrappers

  /**
   * The elementary real functions the valuation takes from its numeric
   * library: natural logarithm, exponential and power (`base ** exponent`).
   * They are parameters of the model; nothing is assumed about them.
   */
  datatype Elementary = Elementary(log: real -> real, exp: real -> real, pow: (real, real) -> real)

  /**
   * What lemmas about discount factors need of the elementary functions, all
   * true of the real ones: `exp` undoes `log` on positive numbers, `exp` is
   * positive and increasing with `exp(0) = 1`, and any base to the power 0 is 1.
   */
  ghost predicate Coherent(m: Elementary)
  {
    && (forall x :: 0.0 < x ==> m.exp(m.log(x)) == x)
    && (forall x, y :: x < y ==> m.exp(x) < m.exp(y))
    && (forall x :: 0.0 < m.exp(x))
    && m.exp(0.0) == 1.0
    && (forall b :: m.pow(b, 0.0) == 1.0)
  }

  /** One curve row: a date (day number) and its discount factor. */
  datatype Pillar = Pillar(date: int, factor: real)

  /** A curve is the table of rows in the order they are stored. */
  type Curve = seq<Pillar>

  /** Actual/365 year fraction from `origin` to `day`. */
  function YearFraction(day: int, origin: int): (t: real)
    ensures t * 365.0 == (day - origin) as real
  {
    (day - origin) as real / 365.0
  }

  /** Dates strictly increase along the curve (no duplicate dates). */
  predicate Ascending(c: Curve)
  {
    forall i, j :: 0 <= i < j < |c| ==> c[i].date < c[j].date
  }

  predicate HasDate(c: Curve, q: int)
  {
    exists k :: 0 <= k < |c| && c[k].date == q
  }

  predicate AnyBefore(c: Curve, q: int)
  {
    exists k :: 0 <= k < |c| && c[k].date < q
  }

  predicate AnyAfter(c: Curve, q: int)
  {
    exists k :: 0 <= k < |c| && c[k].date > q
  }

  /** Row `k` is the first row dated `q`. */
  predicate IsFirstMatch(c: Curve, q: int, k: int)
  {
    0 <= k < |c| && c[k].date == q && forall j :: 0 <= j < k ==> c[j].date != q
  }

  /** Row `k` is the last row dated strictly before `q`. */
  predicate IsLastBefore(c: Curve, q: int, k: int)
  {
    0 <= k < |c| && c[k].date < q && forall j :: k < j < |c| ==> c[j].date >= q
  }

  /** Row `k` is the first row dated strictly after `q`. */
  predicate IsFirstAfter(c: Curve, q: int, k: int)
  {
    0 <= k < |c| && c[k].date > q && forall j :: 0 <= j < k ==> c[j].date <= q
  }

  /** The row that the exact-match filter selects (`iloc[0]` of the rows dated `q`). */
  function FirstMatch(c: Curve, q: int): (k: Option<nat>)
    ensures k.Some? ==> IsFirstMatch(c, q, k.value)
    ensures k.None? ==> !HasDate(c, q)
    decreases |c|
  {
    if c == [] then None
    else if c[0].date == q then Some(0)
    else
      match FirstMatch(c[1..], q)
      case None =>
        assert forall k :: 0 < k < |c| ==> c[k] == c[1..][k - 1];
        None
      case Some(k) => Some(k + 1)
  }

  /** The row `puntos_anteriores.iloc[-1]` selects: the last row dated before `q`. */
  function LastBefore(c: Curve, q: int): (k: Option<nat>)
    ensures k.Some? ==> IsLastBefore(c, q, k.value)
    ensures k.None? ==> !AnyBefore(c, q)
    decreases |c|
  {
    if c == [] then None
    else if c[|c| - 1].date < q then Some(|c| - 1)
    else LastBefore(c[..|c| - 1], q)
  }

  /** The row `puntos_posteriores.iloc[0]` selects: the first row dated after `q`. */
  function FirstAfter(c: Curve, q: int): (k: Option<nat>)
    ensures k.Some? ==> IsFirstAfter(c, q, k.value)
    ensures k.None? ==> !AnyAfter(c, q)
    decreases |c|
  {
    if c == [] then None
    else if c[0].date > q then Some(0)
    else
      match FirstAfter(c[1..], q)
      case None =>
        assert forall k :: 0 < k < |c| ==> c[k] == c[1..][k - 1];
        None
      case Some(k) => Some(k + 1)
  }

  /**
   * Linear interpolation of log discount factors in time:
   * ln DF(T) = ln DF(T1) + (ln DF(T2) - ln DF(T1)) * (T - T1) / (T2 - T1).
   */
  function LogLinear(l1: real, l2: real, t1: real, t2: real, t: real): (l: real)
    requires t1 < t2
    ensures t == t1 ==> l == l1
    ensures t == t2 ==> l == l2
  {
    l1 + (l2 - l1) * (t - t1) / (t2 - t1)
  }

  /** The discount factor the curve gives for day `q`, with year fractions measured from `origin`. */
  function DiscountFactor(m: Elementary, c: Curve, q: int, origin: int): real
    requires c != []
  {
    match FirstMatch(c, q)
    case Some(k) => c[k].factor
    case None =>
      if LastBefore(c, q).None? then c[0].factor
      else if FirstAfter(c, q).None? then c[|c| - 1].factor
      else
        var i, j := LastBefore(c, q).value, FirstAfter(c, q).value;
        var t1, t2 := YearFraction(c[i].date, origin), YearFraction(c[j].date, origin);
        m.exp(LogLinear(m.log(c[i].factor), m.log(c[j].factor), t1, t2, YearFraction(q, origin)))
  }

  /**
   * The four lookup rules, checked one after the other: the first row dated `q`;
   * else the first row when no row is dated before `q`; else the last row when
   * no row is dated after `q`; else the log-linear interpolant of the last row
   * before and the first row after `q`.
   */
  lemma LookupRules(m: Elementary, c: Curve, q: int, origin: int)
    requires c != []
    ensures forall k :: IsFirstMatch(c, q, k) ==> DiscountFactor(m, c, q, origin) == c[k].factor
    ensures !HasDate(c, q) && !AnyBefore(c, q) ==> DiscountFactor(m, c, q, origin) == c[0].factor
    ensures !HasDate(c, q) && AnyBefore(c, q) && !AnyAfter(c, q) ==> DiscountFactor(m, c, q, origin) == c[|c| - 1].factor
    ensures forall i, j :: !HasDate(c, q) && IsLastBefore(c, q, i) && IsFirstAfter(c, q, j) ==>
              DiscountFactor(m, c, q, origin)
              == m.exp(LogLinear(m.log(c[i].factor), m.log(c[j].factor),
                                 YearFraction(c[i].date, origin), YearFraction(c[j].date, origin),
                                 YearFraction(q, origin)))
  {
    match FirstMatch(c, q)
    case Some(k) =>
    case None =>
      if LastBefore(c, q).Some? && FirstAfter(c, q).Some? {
        var i, j := LastBefore(c, q).value, FirstAfter(c, q).value;
        forall i', j' | IsLastBefore(c, q, i') && IsFirstAfter(c, q, j')
          ensures i' == i && j' == j
        {
        }
      }
  }

  // ---------------------------------------------------------------------------
  // The interpolation formula

  /** A proper fraction of a positive number is below one (a step of LogLinearBetween). */
  lemma QuotientBelowOne(a: real, d: real)
    requires 0.0 < a < d
    ensures a / d < 1.0
  {
    assert 0.0 < (d - a) / d;
    assert d / d == 1.0;
    assert (d - a) / d == d / d - a / d;
  }

  /** Strictly inside the interval, the interpolant lies strictly between the two end values. */
  lemma LogLinearBetween(l1: real, l2: real, t1: real, t2: real, t: real)
    requires t1 < t < t2
    ensures l1 < l2 ==> l1 < LogLinear(l1, l2, t1, t2, t) < l2
    ensures l2 < l1 ==> l2 < LogLinear(l1, l2, t1, t2, t) < l1
    ensures l1 == l2 ==> LogLinear(l1, l2, t1, t2, t) == l1
  {
    var a, d := t - t1, t2 - t1;
    var w := a / d;
    assert w * d == a;
    assert 0.0 < w;
    QuotientBelowOne(a, d);
    assert (l2 - l1) * a / d == (l2 - l1) * w;
    assert LogLinear(l1, l2, t1, t2, t) == l1 + (l2 - l1) * w;
    if l1 < l2 {
      assert (l2 - l1) * w < l2 - l1;
    } else if l2 < l1 {
      assert (l1 - l2) * w < l1 - l2;
    }
  }

  /** Dividing a difference by a positive number keeps it negative (a step of LogLinearDecreasing). */
  lemma QuotientDifference(a: real, b: real, d: real)
    requires a < b && 0.0 < d
    ensures a / d - b / d < 0.0
  {
    assert a / d - b / d == (a - b) / d;
    assert (a - b) / d * d == a - b;
  }

  /** With a falling end value, the interpolant falls strictly as time moves forward. */
  lemma LogLinearDecreasing(l1: real, l2: real, t1: real, t2: real, s: real, t: real)
    requires t1 < t2 && s < t && l2 < l1
    ensures LogLinear(l1, l2, t1, t2, t) < LogLinear(l1, l2, t1, t2, s)
  {
    var d := t2 - t1;
    var a, b := (l2 - l1) * (t - t1), (l2 - l1) * (s - t1);
    assert a - b == (l2 - l1) * (t - s);
    assert (l2 - l1) * (t - s) < 0.0;
    QuotientDifference(a, b, d);
    assert LogLinear(l1, l2, t1, t2, t) - LogLinear(l1, l2, t1, t2, s) == a / d - b / d;
  }

  /** Moving the time origin moves every year fraction by the same amount, and leaves the interpolant unchanged. */
  lemma LogLinearShift(l1: real, l2: real, t1: real, t2: real, t: real, d: real)
    requires t1 < t2
    ensures LogLinear(l1, l2, t1 + d, t2 + d, t + d) == LogLinear(l1, l2, t1, t2, t)
  {
    assert (t + d) - (t1 + d) == t - t1;
    assert (t2 + d) - (t1 + d) == t2 - t1;
  }

  // ---------------------------------------------------------------------------
  // The lookup rules

  /** A pillar date of an ascending curve gets exactly that pillar's factor. */
  lemma ExactPivot(m: Elementary, c: Curve, k: int, origin: int)
    requires Ascending(c) && 0 <= k < |c|
    ensures DiscountFactor(m, c, c[k].date, origin) == c[k].factor
  {
    LookupRules(m, c, c[k].date, origin);
    assert IsFirstMatch(c, c[k].date, k);
  }

  /** Before the first pillar of an ascending curve the factor is the first pillar's. */
  lemma FlatBeforeFirst(m: Elementary, c: Curve, q: int, origin: int)
    requires Ascending(c) && c != [] && q < c[0].date
    ensures DiscountFactor(m, c, q, origin) == c[0].factor
  {
    LookupRules(m, c, q, origin);
    assert forall k :: 0 <= k < |c| ==> c[0].date <= c[k].date;
  }

  /** After the last pillar of an ascending curve the factor is the last pillar's. */
  lemma FlatAfterLast(m: Elementary, c: Curve, q: int, origin: int)
    requires Ascending(c) && c != [] && q > c[|c| - 1].date
    ensures DiscountFactor(m, c, q, origin) == c[|c| - 1].factor
  {
    LookupRules(m, c, q, origin);
    assert forall k :: 0 <= k < |c| ==> c[k].date <= c[|c| - 1].date;
    assert AnyBefore(c, q) by { assert c[|c| - 1].date < q; }
  }

  /** A one-row curve gives its single factor for every query, on both sides of its date. */
  lemma SinglePillarIsFlat(m: Elementary, p: Pillar, q: int, origin: int)
    ensures DiscountFactor(m, [p], q, origin) == p.factor
  {
    var c := [p];
    LookupRules(m, c, q, origin);
    if q != p.date {
      assert !HasDate(c, q);
      if p.date < q {
        assert c[0].date < q;
      } else {
        assert !AnyBefore(c, q);
      }
    } else {
      assert IsFirstMatch(c, q, 0);
    }
  }

  /** On an ascending curve the rows picked for interpolation are neighbours. */
  lemma BracketIsAdjacent(c: Curve, q: int, i: int, j: int)
    requires Ascending(c) && !HasDate(c, q)
    requires IsLastBefore(c, q, i) && IsFirstAfter(c, q, j)
    ensures j == i + 1 && c[i].date < q < c[j].date
  {
    assert i < j;
    assert c[i + 1].date != q;
  }

  /** Strictly between two neighbouring pillars of an ascending curve, the factor interpolates those two. */
  lemma InteriorUsesNeighbours(m: Elementary, c: Curve, q: int, origin: int, i: int)
    requires Ascending(c) && 0 <= i < |c| - 1 && c[i].date < q < c[i + 1].date
    ensures DiscountFactor(m, c, q, origin)
         == m.exp(LogLinear(m.log(c[i].factor), m.log(c[i + 1].factor),
                            YearFraction(c[i].date, origin), YearFraction(c[i + 1].date, origin),
                            YearFraction(q, origin)))
  {
    LookupRules(m, c, q, origin);
    assert forall k :: 0 <= k <= i ==> c[k].date <= c[i].date;
    assert forall k :: i + 1 <= k < |c| ==> c[i + 1].date <= c[k].date;
    assert !HasDate(c, q);
    assert IsLastBefore(c, q, i);
    assert IsFirstAfter(c, q, i + 1);
  }

  /** The factor does not depend on the valuation date used as origin of the year fractions. */
  lemma OriginFree(m: Elementary, c: Curve, q: int, o1: int, o2: int)
    requires c != []
    ensures DiscountFactor(m, c, q, o1) == DiscountFactor(m, c, q, o2)
  {
    if FirstMatch(c, q).None? && LastBefore(c, q).Some? && FirstAfter(c, q).Some? {
      var i, j := LastBefore(c, q).value, FirstAfter(c, q).value;
      var d := YearFraction(o1, o2);
      assert YearFraction(c[i].date, o2) == YearFraction(c[i].date, o1) + d;
      assert YearFraction(c[j].date, o2) == YearFraction(c[j].date, o1) + d;
      assert YearFraction(q, o2) == YearFraction(q, o1) + d;
      LogLinearShift(m.log(c[i].factor), m.log(c[j].factor),
                     YearFraction(c[i].date, o1), YearFraction(c[j].date, o1), YearFraction(q, o1), d);
    }
  }

  /** With exact `log`/`exp`, the logarithm keeps the order of positive numbers. */
  lemma LogOrder(m: Elementary, x: real, y: real)
    requires Coherent(m) && 0.0 < x < y
    ensures m.log(x) < m.log(y)
  {
    assert m.exp(m.log(x)) == x && m.exp(m.log(y)) == y;
  }

  /**
   * With exact `log`/`exp` and a falling pair of positive pillar factors, the
   * interpolated factor lies strictly between them.
   */
  lemma InterpolatedFactorBetween(m: Elementary, c: Curve, q: int, origin: int, i: int)
    requires Coherent(m) && Ascending(c) && 0 <= i < |c| - 1 && c[i].date < q < c[i + 1].date
    requires 0.0 < c[i + 1].factor < c[i].factor
    ensures c[i + 1].factor < DiscountFactor(m, c, q, origin) < c[i].factor
  {
    InteriorUsesNeighbours(m, c, q, origin, i);
    var l1, l2 := m.log(c[i].factor), m.log(c[i + 1].factor);
    var t1, t2 := YearFraction(c[i].date, origin), YearFraction(c[i + 1].date, origin);
    var t := YearFraction(q, origin);
    LogOrder(m, c[i + 1].factor, c[i].factor);
    LogLinearBetween(l1, l2, t1, t2, t);
    var l := LogLinear(l1, l2, t1, t2, t);
    assert m.exp(l2) < m.exp(l) < m.exp(l1);
  }

  /**
   * With exact `log`/`exp` and a falling pair of positive pillar factors, the
   * interpolated factor falls strictly as the query date moves through the interval.
   */
  lemma InterpolatedFactorDecreasing(m: Elementary, c: Curve, q1: int, q2: int, origin: int, i: int)
    requires Coherent(m) && Ascending(c) && 0 <= i < |c| - 1
    requires c[i].date < q1 < q2 < c[i + 1].date
    requires 0.0 < c[i + 1].factor < c[i].factor
    ensures DiscountFactor(m, c, q2, origin) < DiscountFactor(m, c, q1, origin)
  {
    InteriorUsesNeighbours(m, c, q1, origin, i);
    InteriorUsesNeighbours(m, c, q2, origin, i);
    var l1, l2 := m.log(c[i].factor), m.log(c[i + 1].factor);
    var t1, t2 := YearFraction(c[i].date, origin), YearFraction(c[i + 1].date, origin);
    LogOrder(m, c[i + 1].factor, c[i].factor);
    LogLinearDecreasing(l1, l2, t1, t2, YearFraction(q1, origin), YearFraction(q2, origin));
  }
}
