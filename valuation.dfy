/**
 * Present value of a cash-flow schedule (`calcular_valor_presente`) under the
 * CURVA method (curve factor times a continuously compounded credit spread) or
 * the YIELD method (one periodically compounded yield), with flows given by
 * date or by a time in years.
 *
 * The pure function `Valuation` says what the engine computes; the method
 * `PresentValue` computes it with the source's accumulator loops.
 */
module Valuation {
  import opened Wrappers
  import opened Interpolation

  /** The two discounting methods (`MetodoDescuento`). */
  datatype DiscountMethod = CurveMethod | YieldMethod

  /** A flow paid on a day (day number). */
  datatype DatedFlow = DatedFlow(day: int, amount: real)

  /** A flow paid a number of years after the valuation date. */
  datatype TimedFlow = TimedFlow(years: real, amount: real)

  /** A schedule is given either by dates or by times (the `flujos_como_fechas` flag is the constructor). */
  datatype Schedule = Dated(dated: seq<DatedFlow>) | Timed(timed: seq<TimedFlow>)

  /** The remaining arguments of one valuation call; `None` is a parameter left unset. */
  datatype Request = Request(
    kind: DiscountMethod,
    valuationDate: Option<int>,
    curve: Option<Curve>,
    creditSpread: real,
    annualYield: Option<real>,
    frequency: int)

  /** The errors a valuation call raises. */
  datatype Error =
    | MissingCurve                // CURVA without a curve
    | CurveNeedsDatedFlows        // CURVA with flows given by time
    | CurveNeedsValuationDate     // CURVA without a valuation date
    | MissingYield                // YIELD without a yield
    | DatedFlowsNeedValuationDate // YIELD on dated flows without a valuation date
    | EmptyCurve                  // a curve with no rows is looked up
    | DivisionByZero              // a zero frequency, zero to a negative power, or a zero compounding factor

  /** The parameters a call has once validation has passed, one bundle per method and flow shape. */
  datatype Pricing =
    | CurvePricing(curve: Curve, spread: real, origin: int)
    | YieldOnDates(rate: real, frequency: int, origin: int)
    | YieldOnTimes(rate: real, frequency: int)

  /** What one flow adds to the present value: nothing, an amount, or an error that ends the call. */
  datatype Share = Skip | Add(value: real) | Fail(error: Error)

  /** A pricing bundle matches the shape of the schedule it is used on. */
  predicate Fits(p: Pricing, flows: Schedule)
  {
    p.YieldOnTimes? <==> flows.Timed?
  }

  // ---------------------------------------------------------------------------
  // Validation

  /** The parameter checks made before any flow is looked at, in the order the source makes them. */
  function Validate(req: Request, flows: Schedule): (r: Result<Pricing, Error>)
    ensures r == Err(MissingCurve) <==> req.kind == CurveMethod && req.curve.None?
    ensures r == Err(CurveNeedsDatedFlows) <==>
              req.kind == CurveMethod && req.curve.Some? && flows.Timed?
    ensures r == Err(CurveNeedsValuationDate) <==>
              req.kind == CurveMethod && req.curve.Some? && flows.Dated? && req.valuationDate.None?
    ensures r == Err(MissingYield) <==> req.kind == YieldMethod && req.annualYield.None?
    ensures r == Err(DatedFlowsNeedValuationDate) <==>
              req.kind == YieldMethod && req.annualYield.Some? && flows.Dated? && req.valuationDate.None?
    ensures r.Err? ==> r.error != EmptyCurve && r.error != DivisionByZero
    ensures r.Ok? ==> Fits(r.value, flows)
    ensures r.Ok? ==> (r.value.CurvePricing? <==> req.kind == CurveMethod)
    ensures r.Ok? && r.value.CurvePricing? ==>
              req.curve == Some(r.value.curve) && req.valuationDate == Some(r.value.origin) &&
              r.value.spread == req.creditSpread
    ensures r.Ok? && !r.value.CurvePricing? ==>
              req.kind == YieldMethod && req.annualYield == Some(r.value.rate) && r.value.frequency == req.frequency
    ensures r.Ok? && r.value.YieldOnDates? ==> req.valuationDate == Some(r.value.origin)
  {
    match req.kind
    case CurveMethod =>
      if req.curve.None? then Err(MissingCurve)
      else if !flows.Dated? then Err(CurveNeedsDatedFlows)
      else if req.valuationDate.None? then Err(CurveNeedsValuationDate)
      else Ok(CurvePricing(req.curve.value, req.creditSpread, req.valuationDate.value))
    case YieldMethod =>
      if req.annualYield.None? then Err(MissingYield)
      else if flows.Dated? then
        if req.valuationDate.None? then Err(DatedFlowsNeedValuationDate)
        else Ok(YieldOnDates(req.annualYield.value, req.frequency, req.valuationDate.value))
      else Ok(YieldOnTimes(req.annualYield.value, req.frequency))
  }

  // ---------------------------------------------------------------------------
  // One flow

  /** A dated flow under the CURVA method: past flows are skipped, the others discounted by curve and spread. */
  function CurveShare(m: Elementary, c: Curve, spread: real, origin: int, f: DatedFlow): (s: Share)
    ensures s.Skip? <==> f.day < origin
    ensures s.Fail? <==> origin <= f.day && c == []
    ensures s.Fail? ==> s.error == EmptyCurve
  {
    if f.day < origin then Skip
    else if c == [] then Fail(EmptyCurve)
    else
      Add(f.amount * AdjustedFactor(m, c, spread, origin, f.day))
  }

  /**
   * What a non-past flow on a non-empty curve adds: its amount times the curve
   * factor at its date times the credit-spread factor over its Actual/365 time.
   */
  method CurveContribution(m: Elementary, c: Curve, spread: real, origin: int, f: DatedFlow) returns (x: real)
    requires origin <= f.day && c != []
    ensures CurveShare(m, c, spread, origin, f) == Add(x)
  {
    var discount := DiscountFactor(m, c, f.day, origin);
    var years := YearFraction(f.day, origin);
    var adjusted := discount * SpreadFactor(m, spread, years);
    x := f.amount * adjusted;
  }

  /** The curve factor at `day` times the credit-spread factor over the Actual/365 time to `day`. */
  function AdjustedFactor(m: Elementary, c: Curve, spread: real, origin: int, day: int): real
    requires c != []
  {
    DiscountFactor(m, c, day, origin) * SpreadFactor(m, spread, YearFraction(day, origin))
  }

  /** The continuously compounded credit-spread factor `exp(-spread * t)` over `t` years. */
  function SpreadFactor(m: Elementary, spread: real, t: real): (r: real)
    ensures t == 0.0 ==> r == m.exp(0.0)
  {
    assert t == 0.0 ==> -spread * t == 0.0;
    m.exp(-spread * t)
  }

  /** The base `1 + rate / frequency` of the periodic compounding factor. */
  function PeriodBase(rate: real, frequency: int): real
    requires frequency != 0
  {
    1.0 + rate / (frequency as real)
  }

  /** Python's `**` raises a division-by-zero error when it raises 0 to a negative power. */
  predicate ZeroToNegativePower(rate: real, frequency: int, t: real)
    requires frequency != 0
  {
    PeriodBase(rate, frequency) == 0.0 && t * (frequency as real) < 0.0
  }

  /** The periodic compounding factor `(1 + rate / frequency) ** (t * frequency)` over `t` years. */
  function Compounding(m: Elementary, rate: real, frequency: int, t: real): real
    requires frequency != 0
  {
    m.pow(PeriodBase(rate, frequency), t * (frequency as real))
  }

  /** A flow due in `t` years, discounted at `rate` compounded `frequency` times a year. */
  function PeriodicShare(m: Elementary, rate: real, frequency: int, t: real, amount: real): (s: Share)
    ensures !s.Skip?
    ensures s.Fail? <==> frequency == 0 || ZeroToNegativePower(rate, frequency, t) || Compounding(m, rate, frequency, t) == 0.0
    ensures s.Fail? ==> s.error == DivisionByZero
    ensures s.Add? ==> s.value * Compounding(m, rate, frequency, t) == amount
  {
    if frequency == 0 || ZeroToNegativePower(rate, frequency, t) then Fail(DivisionByZero)
    else
      var factor := Compounding(m, rate, frequency, t);
      if factor == 0.0 then Fail(DivisionByZero) else Add(amount / factor)
  }

  /** A dated flow under the YIELD method: past flows are skipped, a flow on the valuation date is not. */
  function YieldDatedShare(m: Elementary, rate: real, frequency: int, origin: int, f: DatedFlow): (s: Share)
    ensures s.Skip? <==> f.day < origin
    ensures !s.Skip? ==> s == PeriodicShare(m, rate, frequency, YearFraction(f.day, origin), f.amount)
  {
    if f.day < origin then Skip
    else PeriodicShare(m, rate, frequency, YearFraction(f.day, origin), f.amount)
  }

  /** A timed flow under the YIELD method: flows at time zero or before are skipped. */
  function YieldTimedShare(m: Elementary, rate: real, frequency: int, f: TimedFlow): (s: Share)
    ensures s.Skip? <==> f.years <= 0.0
    ensures !s.Skip? ==> s == PeriodicShare(m, rate, frequency, f.years, f.amount)
  {
    if f.years <= 0.0 then Skip
    else PeriodicShare(m, rate, frequency, f.years, f.amount)
  }

  /** The number of flows in a schedule. */
  function FlowCount(flows: Schedule): nat
  {
    if flows.Dated? then |flows.dated| else |flows.timed|
  }

  /** The share of flow `i` of the schedule. */
  function ShareAt(m: Elementary, p: Pricing, flows: Schedule, i: nat): Share
    requires Fits(p, flows) && i < FlowCount(flows)
  {
    match p
    case CurvePricing(c, spread, origin) => CurveShare(m, c, spread, origin, flows.dated[i])
    case YieldOnDates(rate, frequency, origin) => YieldDatedShare(m, rate, frequency, origin, flows.dated[i])
    case YieldOnTimes(rate, frequency) => YieldTimedShare(m, rate, frequency, flows.timed[i])
  }

  /** The share of every flow of the schedule, in schedule order. */
  function Shares(m: Elementary, p: Pricing, flows: Schedule): (s: seq<Share>)
    requires Fits(p, flows)
    ensures |s| == FlowCount(flows)
    ensures forall i :: 0 <= i < |s| ==> s[i] == ShareAt(m, p, flows, i)
  {
    seq(FlowCount(flows), i requires 0 <= i < FlowCount(flows) => ShareAt(m, p, flows, i))
  }

  // ---------------------------------------------------------------------------
  // Accumulation

  /** Share `i` is the first one that fails. */
  predicate IsFirstFailure(shares: seq<Share>, i: int)
  {
    0 <= i < |shares| && shares[i].Fail? && forall j :: 0 <= j < i ==> !shares[j].Fail?
  }

  /**
   * The running sum of the shares, taken left to right from 0 as the
   * accumulator does; the first failing share ends it with its error.
   */
  function Total(shares: seq<Share>): Result<real, Error>
    decreases |shares|
  {
    if shares == [] then Ok(0.0)
    else Step(Total(shares[..|shares| - 1]), shares[|shares| - 1])
  }

  /** One turn of the accumulator loop: an earlier error stands, otherwise the share is skipped, added, or raised. */
  function Step(acc: Result<real, Error>, s: Share): Result<real, Error>
  {
    match acc
    case Err(e) => acc
    case Ok(sum) =>
      match s
      case Skip => acc
      case Add(x) => Ok(sum + x)
      case Fail(e) => Err(e)
  }

  lemma TotalOfPrefix(s: seq<Share>, i: int)
    requires 0 <= i < |s|
    ensures Total(s[..i + 1]) == Step(Total(s[..i]), s[i])
  {
    assert s[..i + 1][..i] == s[..i];
  }

  /** The sum is defined exactly when no share fails; otherwise the error is that of the first failing share. */
  lemma {:induction false} TotalFailsAtFirstFailure(shares: seq<Share>)
    ensures Total(shares).Ok? <==> forall i :: 0 <= i < |shares| ==> !shares[i].Fail?
    ensures Total(shares).Err? ==> exists i :: IsFirstFailure(shares, i) && shares[i].error == Total(shares).error
    decreases |shares|
  {
    if shares != [] {
      var n := |shares| - 1;
      TotalFailsAtFirstFailure(shares[..n]);
      assert forall i :: 0 <= i < n ==> shares[..n][i] == shares[i];
      if Total(shares[..n]).Err? {
        var i :| IsFirstFailure(shares[..n], i) && shares[..n][i].error == Total(shares[..n]).error;
        assert IsFirstFailure(shares, i);
      } else if shares[n].Fail? {
        assert IsFirstFailure(shares, n);
      }
    }
  }

  /** Results of two consecutive parts of a schedule: the first error wins, otherwise the sums add. */
  function Combine(a: Result<real, Error>, b: Result<real, Error>): (r: Result<real, Error>)
    ensures r.Ok? <==> a.Ok? && b.Ok?
    ensures r.Ok? ==> r.value == a.value + b.value
    ensures r.Err? ==> r.error == if a.Err? then a.error else b.error
  {
    if a.Err? then a else if b.Err? then b else Ok(a.value + b.value)
  }

  /** What a valuation call returns: the validation error, or the running sum of the flows' shares. */
  function Valuation(m: Elementary, flows: Schedule, req: Request): (r: Result<real, Error>)
    ensures Validate(req, flows).Err? ==> r == Err(Validate(req, flows).error)
    ensures r.Err? && Validate(req, flows).Ok? ==>
              (r.error == EmptyCurve && req.kind == CurveMethod) ||
              (r.error == DivisionByZero && req.kind == YieldMethod)
  {
    match Validate(req, flows)
    case Err(e) => Err(e)
    case Ok(p) =>
      var s := Shares(m, p, flows);
      TotalFailsAtFirstFailure(s);
      Total(s)
  }

  // ---------------------------------------------------------------------------
  // The engine

  /** The valuation call of the source: validate the parameters, then add up the discounted future flows. */
  method PresentValue(m: Elementary, flows: Schedule, req: Request) returns (res: Result<real, Error>)
    ensures res == Valuation(m, flows, req)
  {
    if req.kind == CurveMethod {
      if req.curve.None? {
        return Err(MissingCurve);
      }
      if !flows.Dated? {
        return Err(CurveNeedsDatedFlows);
      }
      if req.valuationDate.None? {
        return Err(CurveNeedsValuationDate);
      }
      res := CurveSum(m, req.curve.value, req.creditSpread, req.valuationDate.value, flows.dated);
    } else {
      if req.annualYield.None? {
        return Err(MissingYield);
      }
      if flows.Dated? {
        if req.valuationDate.None? {
          return Err(DatedFlowsNeedValuationDate);
        }
        res := YieldDatedSum(m, req.annualYield.value, req.frequency, req.valuationDate.value, flows.dated);
      } else {
        res := YieldTimedSum(m, req.annualYield.value, req.frequency, flows.timed);
      }
    }
  }

  /** The CURVA loop: skip past flows, discount the others by curve factor and credit spread, accumulate. */
  method CurveSum(m: Elementary, curve: Curve, spread: real, origin: int, items: seq<DatedFlow>)
    returns (res: Result<real, Error>)
    ensures res == Total(Shares(m, CurvePricing(curve, spread, origin), Dated(items)))
  {
    ghost var shares := Shares(m, CurvePricing(curve, spread, origin), Dated(items));
    var pv := 0.0;
    for i := 0 to |items|
      invariant Total(shares[..i]) == Ok(pv)
    {
      TotalOfPrefix(shares, i);
      var f := items[i];
      assert shares[i] == CurveShare(m, curve, spread, origin, f);
      if f.day < origin {
        continue;
      }
      if curve == [] {
        TotalStopsAtError(shares, i + 1);
        return Err(EmptyCurve);
      }
      var x := CurveContribution(m, curve, spread, origin, f);
      assert shares[i] == Add(x);
      pv := pv + x;
    }
    assert shares[..|items|] == shares;
    return Ok(pv);
  }

  /** The YIELD loop over dated flows: skip past flows, discount the others at the compounded yield, accumulate. */
  method YieldDatedSum(m: Elementary, rate: real, frequency: int, origin: int, items: seq<DatedFlow>)
    returns (res: Result<real, Error>)
    ensures res == Total(Shares(m, YieldOnDates(rate, frequency, origin), Dated(items)))
  {
    ghost var shares := Shares(m, YieldOnDates(rate, frequency, origin), Dated(items));
    var pv := 0.0;
    for i := 0 to |items|
      invariant Total(shares[..i]) == Ok(pv)
    {
      TotalOfPrefix(shares, i);
      var f := items[i];
      assert shares[i] == YieldDatedShare(m, rate, frequency, origin, f);
      if f.day < origin {
        continue;
      }
      var t := YearFraction(f.day, origin);
      if frequency == 0 || ZeroToNegativePower(rate, frequency, t) {
        TotalStopsAtError(shares, i + 1);
        return Err(DivisionByZero);
      }
      var factor := Compounding(m, rate, frequency, t);
      if factor == 0.0 {
        TotalStopsAtError(shares, i + 1);
        return Err(DivisionByZero);
      }
      pv := pv + f.amount / factor;
    }
    assert shares[..|items|] == shares;
    return Ok(pv);
  }

  /** The YIELD loop over timed flows: skip flows at time zero or before, discount the others, accumulate. */
  method YieldTimedSum(m: Elementary, rate: real, frequency: int, items: seq<TimedFlow>)
    returns (res: Result<real, Error>)
    ensures res == Total(Shares(m, YieldOnTimes(rate, frequency), Timed(items)))
  {
    ghost var shares := Shares(m, YieldOnTimes(rate, frequency), Timed(items));
    var pv := 0.0;
    for i := 0 to |items|
      invariant Total(shares[..i]) == Ok(pv)
    {
      TotalOfPrefix(shares, i);
      var f := items[i];
      assert shares[i] == YieldTimedShare(m, rate, frequency, f);
      if f.years <= 0.0 {
        continue;
      }
      if frequency == 0 || ZeroToNegativePower(rate, frequency, f.years) {
        TotalStopsAtError(shares, i + 1);
        return Err(DivisionByZero);
      }
      var factor := Compounding(m, rate, frequency, f.years);
      if factor == 0.0 {
        TotalStopsAtError(shares, i + 1);
        return Err(DivisionByZero);
      }
      pv := pv + f.amount / factor;
    }
    assert shares[..|items|] == shares;
    return Ok(pv);
  }

  // ---------------------------------------------------------------------------
  // Properties of the accumulation

  /** Adding up a concatenation is combining the two totals. */
  lemma {:induction false} TotalAppend(a: seq<Share>, b: seq<Share>)
    ensures Total(a + b) == Combine(Total(a), Total(b))
    decreases |b|
  {
    if b == [] {
      assert a + b == a;
    } else {
      var n := |b| - 1;
      assert (a + b)[..|a| + n] == a + b[..n];
      assert (a + b)[|a| + n] == b[n];
      TotalAppend(a, b[..n]);
    }
  }

  /** Once a prefix has failed, the whole sequence fails with the same error. */
  lemma TotalStopsAtError(s: seq<Share>, k: int)
    requires 0 <= k <= |s| && Total(s[..k]).Err?
    ensures Total(s) == Total(s[..k])
  {
    assert s == s[..k] + s[k..];
    TotalAppend(s[..k], s[k..]);
  }

  /** A skipped share changes nothing, wherever it stands. */
  lemma TotalIgnoresSkip(a: seq<Share>, b: seq<Share>)
    ensures Total(a + [Skip] + b) == Total(a + b)
  {
    TotalAppend(a + [Skip], b);
    TotalAppend(a, b);
    assert (a + [Skip])[..|a|] == a;
  }

  /** Shares that are all skipped add up to 0. */
  lemma {:induction false} AllSkippedIsZero(s: seq<Share>)
    requires forall i :: 0 <= i < |s| ==> s[i] == Skip
    ensures Total(s) == Ok(0.0)
    decreases |s|
  {
    if s != [] {
      var n := |s| - 1;
      AllSkippedIsZero(s[..n]);
    }
  }

  // ---------------------------------------------------------------------------
  // Properties of a valuation call

  /** Joins two schedules of the same shape. */
  function Concat(a: Schedule, b: Schedule): (r: Schedule)
    requires a.Dated? == b.Dated?
    ensures r.Dated? == a.Dated?
    ensures r.Dated? ==> r.dated == a.dated + b.dated
    ensures r.Timed? ==> r.timed == a.timed + b.timed
  {
    if a.Dated? then Dated(a.dated + b.dated) else Timed(a.timed + b.timed)
  }

  lemma ShareAtConcat(m: Elementary, p: Pricing, a: Schedule, b: Schedule, k: nat)
    requires a.Dated? == b.Dated? && Fits(p, a) && k < FlowCount(a) + FlowCount(b)
    ensures Fits(p, b) && Fits(p, Concat(a, b))
    ensures k < FlowCount(a) ==> ShareAt(m, p, Concat(a, b), k) == ShareAt(m, p, a, k)
    ensures FlowCount(a) <= k ==> ShareAt(m, p, Concat(a, b), k) == ShareAt(m, p, b, k - FlowCount(a))
  {
  }

  lemma SharesOfConcat(m: Elementary, p: Pricing, a: Schedule, b: Schedule)
    requires a.Dated? == b.Dated? && Fits(p, a)
    ensures Fits(p, b) && Fits(p, Concat(a, b))
    ensures Shares(m, p, Concat(a, b)) == Shares(m, p, a) + Shares(m, p, b)
  {
    var ab := Concat(a, b);
    var s, sa, sb := Shares(m, p, ab), Shares(m, p, a), Shares(m, p, b);
    forall k | 0 <= k < |s|
      ensures s[k] == (sa + sb)[k]
    {
      ShareAtConcat(m, p, a, b, k);
    }
  }

  /** The value of two schedules joined is the sum of their values (or the first error raised). */
  lemma ConcatenatedSchedulesAdd(m: Elementary, req: Request, a: Schedule, b: Schedule)
    requires a.Dated? == b.Dated?
    ensures Valuation(m, Concat(a, b), req) == Combine(Valuation(m, a, req), Valuation(m, b, req))
  {
    var v := Validate(req, a);
    assert Validate(req, b) == v && Validate(req, Concat(a, b)) == v;
    if v.Ok? {
      SharesOfConcat(m, v.value, a, b);
      TotalAppend(Shares(m, v.value, a), Shares(m, v.value, b));
    }
  }

  /** YIELD on timed flows never looks at the valuation date: any date, or none, gives the same result. */
  lemma TimedYieldIgnoresValuationDate(m: Elementary, req: Request, xs: seq<TimedFlow>, d: Option<int>)
    requires req.kind == YieldMethod
    ensures Valuation(m, Timed(xs), req) == Valuation(m, Timed(xs), req.(valuationDate := d))
    ensures req.annualYield.Some? ==> Validate(req, Timed(xs)) == Ok(YieldOnTimes(req.annualYield.value, req.frequency))
  {
  }

  /** A schedule with no flows is worth 0 once the parameters pass validation. */
  lemma EmptyScheduleIsZero(m: Elementary, req: Request, flows: Schedule)
    requires flows == Dated([]) || flows == Timed([])
    requires Validate(req, flows).Ok?
    ensures Valuation(m, flows, req) == Ok(0.0)
  {
  }

  /** A dated flow before the valuation date adds nothing, under either method. */
  lemma PastDatedFlowIgnored(m: Elementary, req: Request, xs: seq<DatedFlow>, f: DatedFlow, ys: seq<DatedFlow>)
    requires req.valuationDate.Some? && f.day < req.valuationDate.value
    ensures Valuation(m, Dated(xs + [f] + ys), req) == Valuation(m, Dated(xs + ys), req)
  {
    var v := Validate(req, Dated(xs + ys));
    assert Validate(req, Dated(xs + [f] + ys)) == v;
    if v.Ok? {
      var p := v.value;
      var a, b := Shares(m, p, Dated(xs)), Shares(m, p, Dated(ys));
      assert Shares(m, p, Dated([f])) == [Skip];
      SharesOfConcat(m, p, Dated(xs), Dated([f]));
      SharesOfConcat(m, p, Dated(xs + [f]), Dated(ys));
      SharesOfConcat(m, p, Dated(xs), Dated(ys));
      TotalIgnoresSkip(a, b);
    }
  }

  /** A timed flow at time zero or before adds nothing. */
  lemma NonPositiveTimedFlowIgnored(m: Elementary, req: Request, xs: seq<TimedFlow>, f: TimedFlow, ys: seq<TimedFlow>)
    requires f.years <= 0.0
    ensures Valuation(m, Timed(xs + [f] + ys), req) == Valuation(m, Timed(xs + ys), req)
  {
    var v := Validate(req, Timed(xs + ys));
    assert Validate(req, Timed(xs + [f] + ys)) == v;
    if v.Ok? {
      var p := v.value;
      var a, b := Shares(m, p, Timed(xs)), Shares(m, p, Timed(ys));
      assert Shares(m, p, Timed([f])) == [Skip];
      SharesOfConcat(m, p, Timed(xs), Timed([f]));
      SharesOfConcat(m, p, Timed(xs + [f]), Timed(ys));
      SharesOfConcat(m, p, Timed(xs), Timed(ys));
      TotalIgnoresSkip(a, b);
    }
  }

  /** A schedule whose dated flows are all in the past is worth 0 once the parameters pass validation. */
  lemma PastFlowsOnlyIsZero(m: Elementary, req: Request, xs: seq<DatedFlow>)
    requires Validate(req, Dated(xs)).Ok? && req.valuationDate.Some?
    requires forall i :: 0 <= i < |xs| ==> xs[i].day < req.valuationDate.value
    ensures Valuation(m, Dated(xs), req) == Ok(0.0)
  {
    AllSkippedIsZero(Shares(m, Validate(req, Dated(xs)).value, Dated(xs)));
  }

  /**
   * The two cut-offs differ: a dated flow on the valuation date is discounted
   * with a year fraction of 0, while a timed flow at time 0 is skipped.
   */
  lemma ValuationDayAsymmetry(m: Elementary, rate: real, frequency: int, origin: int, amount: real)
    ensures YieldDatedShare(m, rate, frequency, origin, DatedFlow(origin, amount))
         == PeriodicShare(m, rate, frequency, 0.0, amount)
    ensures YieldTimedShare(m, rate, frequency, TimedFlow(0.0, amount)) == Skip
  {
  }

  /**
   * Under CURVA a flow on the valuation date is included, with year fraction 0:
   * its spread factor is exp(0), whatever the spread, so with exact `exp` it
   * adds its amount times the curve factor at that date.
   */
  lemma ValuationDayCurveFlow(m: Elementary, c: Curve, spread: real, origin: int, amount: real)
    requires c != []
    ensures CurveShare(m, c, spread, origin, DatedFlow(origin, amount))
         == Add(amount * AdjustedFactor(m, c, spread, origin, origin))
    ensures AdjustedFactor(m, c, spread, origin, origin) == DiscountFactor(m, c, origin, origin) * SpreadFactor(m, spread, 0.0)
    ensures SpreadFactor(m, spread, 0.0) == m.exp(0.0)
    ensures Coherent(m) ==>
              CurveShare(m, c, spread, origin, DatedFlow(origin, amount)) == Add(amount * DiscountFactor(m, c, origin, origin))
  {
    assert YearFraction(origin, origin) == 0.0;
    if Coherent(m) {
      SpreadFactorUnit(m, spread, 0.0);
    }
  }

  /** A schedule whose timed flows are all at time zero or before is worth 0 once the parameters pass validation. */
  lemma NonPositiveTimesOnlyIsZero(m: Elementary, req: Request, xs: seq<TimedFlow>)
    requires Validate(req, Timed(xs)).Ok?
    requires forall i :: 0 <= i < |xs| ==> xs[i].years <= 0.0
    ensures Valuation(m, Timed(xs), req) == Ok(0.0)
  {
    AllSkippedIsZero(Shares(m, Validate(req, Timed(xs)).value, Timed(xs)));
  }

  // ---------------------------------------------------------------------------
  // The discount of one flow

  /** With exact `exp`, the spread factor is 1 at year fraction 0 and under a zero spread, and always positive. */
  lemma SpreadFactorUnit(m: Elementary, spread: real, t: real)
    requires Coherent(m)
    ensures t == 0.0 || spread == 0.0 ==> SpreadFactor(m, spread, t) == 1.0
    ensures 0.0 < SpreadFactor(m, spread, t)
  {
    assert t == 0.0 || spread == 0.0 ==> -spread * t == 0.0;
  }

  /** With exact `exp` and a positive spread, the spread factor falls strictly as time grows. */
  lemma SpreadFactorDecreasing(m: Elementary, spread: real, t1: real, t2: real)
    requires Coherent(m) && 0.0 < spread && t1 < t2
    ensures SpreadFactor(m, spread, t2) < SpreadFactor(m, spread, t1)
  {
    assert spread * (t2 - t1) > 0.0;
    assert -spread * t2 < -spread * t1;
  }

  /** Under a zero credit spread, a non-past CURVA flow adds its amount times the curve factor at its date. */
  lemma ZeroSpreadCurveShare(m: Elementary, c: Curve, origin: int, f: DatedFlow)
    requires Coherent(m) && origin <= f.day && c != []
    ensures CurveShare(m, c, 0.0, origin, f) == Add(f.amount * DiscountFactor(m, c, f.day, origin))
  {
    SpreadFactorUnit(m, 0.0, YearFraction(f.day, origin));
  }

  /** On an ascending curve, a non-past CURVA flow paid on pillar `k`'s date adds its amount times that pillar's factor, adjusted by the spread. */
  lemma CurveShareOnPillar(m: Elementary, c: Curve, spread: real, origin: int, k: int, amount: real)
    requires Ascending(c) && 0 <= k < |c| && origin <= c[k].date
    ensures CurveShare(m, c, spread, origin, DatedFlow(c[k].date, amount))
         == Add(amount * (c[k].factor * SpreadFactor(m, spread, YearFraction(c[k].date, origin))))
  {
    ExactPivot(m, c, k, origin);
  }

  /** With exact `**`, a dated YIELD flow on the valuation date is worth its full amount (its compounding factor is 1). */
  lemma ValuationDayYieldFlow(m: Elementary, rate: real, frequency: int, origin: int, amount: real)
    requires Coherent(m) && frequency != 0
    ensures YieldDatedShare(m, rate, frequency, origin, DatedFlow(origin, amount)) == Add(amount)
  {
    assert YearFraction(origin, origin) == 0.0;
    assert 0.0 * (frequency as real) == 0.0;
    assert Compounding(m, rate, frequency, 0.0) == 1.0;
  }

  /** A yield of 1 compounded with frequency -1 has base 0; a timed flow at 1 year then raises 0 to the power -1, which fails. */
  lemma ZeroBaseNegativePowerFails(m: Elementary, amount: real)
    ensures YieldTimedShare(m, 1.0, -1, TimedFlow(1.0, amount)) == Fail(DivisionByZero)
  {
    assert PeriodBase(1.0, -1) == 0.0;
    assert ZeroToNegativePower(1.0, -1, 1.0);
  }
}
