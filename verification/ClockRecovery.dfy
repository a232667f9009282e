/** Clock recovery by exponentially weighted linear regression of device samples against host time,
    over exact reals: the running sums against the moments of the whole observation history. */
module ClockRecovery {

  const SHIFT_S: real := 8.0
  const MAXADJ: real := 0.05
  const SMOOTH: real := 0.002

  /** Host time in seconds and the device's sample index. */
  datatype Obs = Obs(host: real, dev: real)

  datatype Sums = Sums(w: real, x: real, y: real, xx: real, xy: real, yy: real)

  const NO_SUMS: Sums := Sums(0.0, 0.0, 0.0, 0.0, 0.0, 0.0)

  /** Decay by the forgetting factor and add. */
  function Decay(s: real, v: real): real
  {
    0.999 * s + v
  }

  function Times(u: real, v: real): real
  {
    u * v
  }

  function Add(m: Sums, x: real, y: real): Sums
  {
    Sums(Decay(m.w, 1.0), Decay(m.x, x), Decay(m.y, y),
         Decay(m.xx, Times(x, x)), Decay(m.xy, Times(x, y)), Decay(m.yy, Times(y, y)))
  }

  /** A first moment about an origin moved by `d`. */
  function Linear(s: real, w: real, d: real): real
  {
    s - w * d
  }

  /** A second moment about an origin moved by (du, dv). */
  function Cross(s: real, su: real, sv: real, w: real, du: real, dv: real): real
  {
    s + (-du * sv - dv * su + w * du * dv)
  }

  /** Re-express the sums about an origin moved by (dx, dy). */
  function Shift(m: Sums, dx: real, dy: real): Sums
  {
    Sums(m.w, Linear(m.x, m.w, dx), Linear(m.y, m.w, dy),
         Cross(m.xx, m.x, m.x, m.w, dx, dx), Cross(m.xy, m.x, m.y, m.w, dx, dy), Cross(m.yy, m.y, m.y, m.w, dy, dy))
  }

  /** The exponentially weighted moments of a history about an origin. */
  function Moments(obs: seq<Obs>, o: Obs): Sums
  {
    if obs == [] then NO_SUMS
    else
      var last := obs[|obs| - 1];
      Add(Moments(obs[..|obs| - 1], o), last.host - o.host, last.dev - o.dev)
  }

  // ---------------- the estimator ----------------

  datatype Fit = Fit(primed: bool, origin: Obs, sums: Sums, target: real)

  function Denom(m: Sums): real
  {
    Reduced(m.w, m.xx, m.x, m.x)
  }

  function Numer(m: Sums): real
  {
    Reduced(m.w, m.xy, m.x, m.y)
  }

  function Clamp(t: real, nominal: real): real
  {
    var lo, hi := nominal * (1.0 - MAXADJ), nominal * (1.0 + MAXADJ);
    if t < lo then lo else if t > hi then hi else t
  }

  /** The ratio to publish, or the previous one while the fit is degenerate. */
  function Target(m: Sums, before: real, hostRate: real, nominal: real): real
  {
    if Denom(m) <= 0.0 || Numer(m) / Denom(m) <= 0.0 then before
    else Clamp(hostRate / (Numer(m) / Denom(m)), nominal)
  }

  function Observe(f: Fit, p: Obs, hostRate: real, nominal: real): Fit
  {
    if !f.primed then f.(primed := true, origin := p)
    else
      var x, y := p.host - f.origin.host, p.dev - f.origin.dev;
      if x > SHIFT_S then
        var m := Add(Shift(f.sums, x, y), 0.0, 0.0);
        Fit(true, p, m, Target(m, f.target, hostRate, nominal))
      else
        var m := Add(f.sums, x, y);
        Fit(true, f.origin, m, Target(m, f.target, hostRate, nominal))
  }

  function Cold(nominal: real): Fit
  {
    Fit(false, Obs(0.0, 0.0), NO_SUMS, nominal)
  }

  /** The estimator after a history; the first observation only sets the origin. */
  function Observed(obs: seq<Obs>, hostRate: real, nominal: real): Fit
  {
    if obs == [] then Cold(nominal)
    else Observe(Observed(obs[..|obs| - 1], hostRate, nominal), obs[|obs| - 1], hostRate, nominal)
  }

  // ---------------- moving the origin ----------------

  lemma LinearDecay(s: real, w: real, x: real, d: real)
    ensures Linear(Decay(s, x), Decay(w, 1.0), d) == Decay(Linear(s, w, d), x - d)
  {
  }

  lemma CrossDecay(s: real, su: real, sv: real, w: real, u: real, v: real, du: real, dv: real)
    ensures Cross(Decay(s, Times(u, v)), Decay(su, u), Decay(sv, v), Decay(w, 1.0), du, dv)
         == Decay(Cross(s, su, sv, w, du, dv), Times(u - du, v - dv))
  {
  }

  lemma ShiftAdd(m: Sums, x: real, y: real, dx: real, dy: real)
    ensures Shift(Add(m, x, y), dx, dy) == Add(Shift(m, dx, dy), x - dx, y - dy)
  {
    LinearDecay(m.x, m.w, x, dx);
    LinearDecay(m.y, m.w, y, dy);
    CrossDecay(m.xx, m.x, m.x, m.w, x, x, dx, dx);
    CrossDecay(m.xy, m.x, m.y, m.w, x, y, dx, dy);
    CrossDecay(m.yy, m.y, m.y, m.w, y, y, dy, dy);
  }

  /** Shifting the sums is taking the moments about the new origin. */
  lemma {:induction false} ShiftIsRecentre(obs: seq<Obs>, o: Obs, p: Obs)
    ensures Shift(Moments(obs, o), p.host - o.host, p.dev - o.dev) == Moments(obs, p)
  {
    var dx, dy := p.host - o.host, p.dev - o.dev;
    if obs != [] {
      var prev, last := obs[..|obs| - 1], obs[|obs| - 1];
      ShiftIsRecentre(prev, o, p);
      ShiftAdd(Moments(prev, o), last.host - o.host, last.dev - o.dev, dx, dy);
      assert last.host - o.host - dx == last.host - p.host && last.dev - o.dev - dy == last.dev - p.dev;
    }
  }

  /** The second moment reduced by the first moments. */
  function Reduced(w: real, uv: real, u: real, v: real): real
  {
    w * uv - u * v
  }

  lemma ReducedShift(w: real, uv: real, u: real, v: real, du: real, dv: real)
    ensures Reduced(w, Cross(uv, u, v, w, du, dv), Linear(u, w, du), Linear(v, w, dv)) == Reduced(w, uv, u, v)
  {
    calc {
      w * (uv + (-du * v - dv * u + w * du * dv)) - (u - w * du) * (v - w * dv);
      w * uv - w * du * v - w * dv * u + w * w * du * dv - (u * v - w * dv * u - w * du * v + w * w * du * dv);
      w * uv - u * v;
    }
  }

  lemma SlopeShift(m: Sums, dx: real, dy: real)
    ensures Denom(Shift(m, dx, dy)) == Denom(m) && Numer(Shift(m, dx, dy)) == Numer(m)
  {
    ReducedShift(m.w, m.xx, m.x, m.x, dx, dx);
    ReducedShift(m.w, m.xy, m.x, m.y, dx, dy);
  }

  // ---------------- every history ----------------

  /** After the priming observation, the sums are exactly the weighted moments of the history about
      the current origin. */
  lemma {:induction false} SumsAreMoments(obs: seq<Obs>, hostRate: real, nominal: real)
    requires obs != []
    ensures var f := Observed(obs, hostRate, nominal); f.primed && f.sums == Moments(obs[1..], f.origin)
  {
    var prev, p := obs[..|obs| - 1], obs[|obs| - 1];
    if prev == [] {
      assert obs[1..] == [];
    } else {
      SumsAreMoments(prev, hostRate, nominal);
      var f := Observed(prev, hostRate, nominal);
      assert obs[1..][..|obs| - 2] == prev[1..];
      if p.host - f.origin.host > SHIFT_S {
        ShiftIsRecentre(prev[1..], f.origin, p);
      }
    }
  }

  /** The fitted slope does not depend on the origin: it is the one of the moments about any point. */
  lemma SlopeIsOriginFree(obs: seq<Obs>, hostRate: real, nominal: real, o: Obs)
    requires obs != []
    ensures var m := Observed(obs, hostRate, nominal).sums;
            Denom(m) == Denom(Moments(obs[1..], o)) && Numer(m) == Numer(Moments(obs[1..], o))
  {
    var f := Observed(obs, hostRate, nominal);
    SumsAreMoments(obs, hostRate, nominal);
    ShiftIsRecentre(obs[1..], f.origin, o);
    SlopeShift(f.sums, o.host - f.origin.host, o.dev - f.origin.dev);
  }

  ghost predicate Within(t: real, nominal: real)
  {
    nominal * (1.0 - MAXADJ) <= t <= nominal * (1.0 + MAXADJ)
  }

  lemma ClampWithin(t: real, nominal: real)
    requires nominal > 0.0
    ensures Within(Clamp(t, nominal), nominal)
  {
  }

  ghost function Distance(a: real, b: real): real
  {
    if a < b then b - a else a - b
  }

  /** Clamping picks the admissible ratio nearest to the one asked for. */
  lemma ClampIsNearest(t: real, nominal: real, u: real)
    requires nominal > 0.0 && Within(u, nominal)
    ensures Within(Clamp(t, nominal), nominal) && Distance(Clamp(t, nominal), t) <= Distance(u, t)
  {
    ClampWithin(t, nominal);
  }

  /** The published ratio never leaves five percent of nominal. */
  lemma {:induction false} RatioWithin(obs: seq<Obs>, hostRate: real, nominal: real)
    requires nominal > 0.0
    ensures Within(Observed(obs, hostRate, nominal).target, nominal)
  {
    if obs != [] {
      RatioWithin(obs[..|obs| - 1], hostRate, nominal);
      TargetWithin(Observed(obs[..|obs| - 1], hostRate, nominal), obs[|obs| - 1], hostRate, nominal);
    }
  }

  lemma TargetClamped(m: Sums, before: real, hostRate: real, nominal: real)
    requires nominal > 0.0 && Within(before, nominal)
    ensures Within(Target(m, before, hostRate, nominal), nominal)
  {
    if Denom(m) > 0.0 && Numer(m) / Denom(m) > 0.0 {
      ClampWithin(hostRate / (Numer(m) / Denom(m)), nominal);
    }
  }

  lemma TargetWithin(f: Fit, p: Obs, hostRate: real, nominal: real)
    requires nominal > 0.0 && Within(f.target, nominal)
    ensures Within(Observe(f, p, hostRate, nominal).target, nominal)
  {
    var x, y := p.host - f.origin.host, p.dev - f.origin.dev;
    TargetClamped(Add(Shift(f.sums, x, y), 0.0, 0.0), f.target, hostRate, nominal);
    TargetClamped(Add(f.sums, x, y), f.target, hostRate, nominal);
  }

  /** So does the smoothed ratio that is applied. */
  lemma SmoothedWithin(ratio: real, target: real, nominal: real)
    requires Within(ratio, nominal) && Within(target, nominal)
    ensures Within(ratio + SMOOTH * (target - ratio), nominal)
  {
  }

  /** The applied ratio after `n` smoothing steps towards an unchanged target. */
  ghost function Smoothed(ratio: real, target: real, n: nat): real
  {
    if n == 0 then ratio
    else
      var r := Smoothed(ratio, target, n - 1);
      r + SMOOTH * (target - r)
  }

  ghost function Shrink(n: nat): real
  {
    if n == 0 then 1.0 else (1.0 - SMOOTH) * Shrink(n - 1)
  }

  lemma ShrinkStep(d: real, s: real)
    ensures (1.0 - SMOOTH) * (s * d) == ((1.0 - SMOOTH) * s) * d
  {
  }

  /** It closes in on the target geometrically: every step leaves 0.998 of the distance, on the same side. */
  lemma {:induction false} SmoothingConverges(ratio: real, target: real, n: nat)
    ensures Smoothed(ratio, target, n) - target == Shrink(n) * (ratio - target)
    ensures 0.0 < Shrink(n) <= 1.0
  {
    if n > 0 {
      SmoothingConverges(ratio, target, n - 1);
      ShrinkStep(ratio - target, Shrink(n - 1));
    }
  }

  // ---------------- the fit is the weighted least-squares line ----------------

  /** How far the line y = a * x + b misses a point. */
  function Miss(p: Obs, o: Obs, a: real, b: real): real
  {
    (p.dev - o.dev) - a * (p.host - o.host) - b
  }

  /** The exponentially weighted sum of squared residuals of the line. */
  ghost function Residual(obs: seq<Obs>, o: Obs, a: real, b: real): real
  {
    if obs == [] then 0.0
    else
      var miss := Miss(obs[|obs| - 1], o, a, b);
      Decay(Residual(obs[..|obs| - 1], o, a, b), Times(miss, miss))
  }

  /** The residual as a function of the moments. */
  function Quadratic(m: Sums, a: real, b: real): real
  {
    Poly(m.w, m.x, m.y, m.xx, m.xy, m.yy, a, b)
  }

  function Poly(w: real, x: real, y: real, xx: real, xy: real, yy: real, a: real, b: real): real
  {
    yy - 2.0 * a * xy - 2.0 * b * y + a * a * xx + 2.0 * a * b * x + b * b * w
  }

  lemma PolyDecay(w: real, sx: real, sy: real, xx: real, xy: real, yy: real, a: real, b: real, x: real, y: real,
        miss: real)
    requires miss == y - a * x - b
    ensures Poly(Decay(w, 1.0), Decay(sx, x), Decay(sy, y),
                 Decay(xx, Times(x, x)), Decay(xy, Times(x, y)), Decay(yy, Times(y, y)), a, b)
         == Decay(Poly(w, sx, sy, xx, xy, yy, a, b), Times(miss, miss))
  {
    assert miss * miss == y * y - 2.0 * (a * (x * y)) - 2.0 * (b * y) + a * a * (x * x) + 2.0 * (a * b * x) + b * b;
  }

  lemma QuadraticAdd(m: Sums, p: Obs, o: Obs, a: real, b: real, miss: real)
    requires miss == Miss(p, o, a, b)
    ensures Quadratic(Add(m, p.host - o.host, p.dev - o.dev), a, b) == Decay(Quadratic(m, a, b), Times(miss, miss))
  {
    PolyDecay(m.w, m.x, m.y, m.xx, m.xy, m.yy, a, b, p.host - o.host, p.dev - o.dev, miss);
  }

  lemma {:induction false} ResidualIsQuadratic(obs: seq<Obs>, o: Obs, a: real, b: real)
    ensures Residual(obs, o, a, b) == Quadratic(Moments(obs, o), a, b)
  {
    if obs != [] {
      var prev, last := obs[..|obs| - 1], obs[|obs| - 1];
      var m, miss := Moments(prev, o), Miss(last, o, a, b);
      assert Residual(prev, o, a, b) == Quadratic(m, a, b) by { ResidualIsQuadratic(prev, o, a, b); }
      assert Residual(obs, o, a, b) == Decay(Quadratic(m, a, b), Times(miss, miss));
      QuadraticAdd(m, last, o, a, b, miss);
    }
  }

  /** The weighted sum of squares of c * x + d. */
  function Form(w: real, x: real, xx: real, c: real, d: real): real
  {
    c * c * xx + 2.0 * c * d * x + d * d * w
  }

  lemma {:induction false} FormNonNegative(obs: seq<Obs>, o: Obs, c: real, d: real)
    ensures var m := Moments(obs, o); Form(m.w, m.x, m.xx, c, d) >= 0.0
  {
    if obs != [] {
      var prev, last := obs[..|obs| - 1], obs[|obs| - 1];
      FormNonNegative(prev, o, c, d);
      var m := Moments(prev, o);
      FormDecay(m.w, m.x, m.xx, last.host - o.host, c, d);
    }
  }

  lemma FormDecay(w: real, sx: real, xx: real, x: real, c: real, d: real)
    requires Form(w, sx, xx, c, d) >= 0.0
    ensures Form(Decay(w, 1.0), Decay(sx, x), Decay(xx, Times(x, x)), c, d) >= 0.0
  {
    FormStep(w, sx, xx, x, c, d, c * x + d);
    SquareNonNegative(c * x + d);
  }

  lemma FormStep(w: real, sx: real, xx: real, x: real, c: real, d: real, s: real)
    requires s == c * x + d
    ensures Form(Decay(w, 1.0), Decay(sx, x), Decay(xx, Times(x, x)), c, d) == Decay(Form(w, sx, xx, c, d), Times(s, s))
  {
    assert s * s == c * c * (x * x) + 2.0 * c * d * x + d * d;
  }

  lemma SquareNonNegative(s: real)
    ensures Times(s, s) >= 0.0
  {
  }

  /** The slope and intercept computed from the moments. */
  ghost predicate Solves(m: Sums, slope: real, icpt: real)
  {
    m.w != 0.0 && slope * Denom(m) == Numer(m) && icpt * m.w == m.y - slope * m.x
  }

  /** A slope and intercept that solve the normal equations are the best line: no other has a smaller
      residual. */
  lemma FitIsLeastSquares(obs: seq<Obs>, o: Obs, slope: real, icpt: real, a: real, b: real)
    requires Solves(Moments(obs, o), slope, icpt)
    ensures Residual(obs, o, slope, icpt) <= Residual(obs, o, a, b)
  {
    BestQuadratic(obs, o, slope, icpt, a, b);
    ResidualIsQuadratic(obs, o, slope, icpt);
    ResidualIsQuadratic(obs, o, a, b);
  }

  /** Any observation at all gives a total weight of at least one. */
  lemma {:induction false} WeightPositive(obs: seq<Obs>, o: Obs)
    ensures Moments(obs, o).w >= if obs == [] then 0.0 else 1.0
  {
    if obs != [] {
      WeightPositive(obs[..|obs| - 1], o);
    }
  }

  lemma Quotients(m: Sums, slope: real, icpt: real)
    requires m.w > 0.0 && Denom(m) > 0.0 && slope == Numer(m) / Denom(m) && icpt == (m.y - slope * m.x) / m.w
    ensures Solves(m, slope, icpt)
  {
    DivBack(Numer(m), Denom(m), slope);
    DivBack(m.y - slope * m.x, m.w, icpt);
  }

  lemma DivBack(a: real, b: real, q: real)
    requires b != 0.0 && q == a / b
    ensures q * b == a
  {
  }

  /** The line the estimator computes from its sums, when they determine one, is the best line through
      the whole weighted history, and its slope is the one the published ratio is taken from. */
  lemma PublishedIsBest(obs: seq<Obs>, p: Obs, hostRate: real, nominal: real, slope: real, icpt: real, a: real, b: real)
    requires obs != [] && var m := Observed(obs + [p], hostRate, nominal).sums;
               Denom(m) > 0.0 && slope == Numer(m) / Denom(m) && (m.w != 0.0 ==> icpt == (m.y - slope * m.x) / m.w)
    ensures var all, f := obs + [p], Observed(obs + [p], hostRate, nominal);
            && Residual(all[1..], f.origin, slope, icpt) <= Residual(all[1..], f.origin, a, b)
            && (slope > 0.0 ==> f.target == Clamp(hostRate / slope, nominal))
            && (slope <= 0.0 ==> f.target == Observed(obs, hostRate, nominal).target)
  {
    var all := obs + [p];
    var f := Observed(all, hostRate, nominal);
    SumsAreMoments(all, hostRate, nominal);
    WeightPositive(all[1..], f.origin);
    Quotients(f.sums, slope, icpt);
    FitIsLeastSquares(all[1..], f.origin, slope, icpt, a, b);
    assert all[..|all| - 1] == obs;
    SumsAreMoments(obs, hostRate, nominal);
    TargetIs(Observed(obs, hostRate, nominal), p, f, hostRate, nominal, slope);
  }

  lemma TargetIs(g: Fit, p: Obs, f: Fit, hostRate: real, nominal: real, slope: real)
    requires g.primed && f == Observe(g, p, hostRate, nominal) && Denom(f.sums) > 0.0
    requires slope == Numer(f.sums) / Denom(f.sums)
    ensures f.target == if slope > 0.0 then Clamp(hostRate / slope, nominal) else g.target
  {
  }

  /** While the history determines no line, the previous ratio stays. */
  lemma DegenerateHolds(obs: seq<Obs>, p: Obs, hostRate: real, nominal: real)
    requires Denom(Observed(obs + [p], hostRate, nominal).sums) <= 0.0
    ensures Observed(obs + [p], hostRate, nominal).target == Observed(obs, hostRate, nominal).target
  {
    assert (obs + [p])[..|obs|] == obs;
  }

  lemma BestQuadratic(obs: seq<Obs>, o: Obs, slope: real, icpt: real, a: real, b: real)
    requires Solves(Moments(obs, o), slope, icpt)
    ensures Quadratic(Moments(obs, o), slope, icpt) <= Quadratic(Moments(obs, o), a, b)
  {
    FormNonNegative(obs, o, a - slope, b - icpt);
    SumsMinimum(Moments(obs, o), slope, icpt, a, b);
  }

  lemma SumsMinimum(m: Sums, slope: real, icpt: real, a: real, b: real)
    requires Solves(m, slope, icpt) && Form(m.w, m.x, m.xx, a - slope, b - icpt) >= 0.0
    ensures Quadratic(m, slope, icpt) <= Quadratic(m, a, b)
  {
    Minimum(m.w, m.x, m.y, m.xx, m.xy, m.yy, slope, icpt, a, b);
  }

  lemma Minimum(w: real, x: real, y: real, xx: real, xy: real, yy: real, slope: real, icpt: real, a: real, b: real)
    requires w != 0.0 && slope * Reduced(w, xx, x, x) == Reduced(w, xy, x, y) && icpt * w == y - slope * x
    requires Form(w, x, xx, a - slope, b - icpt) >= 0.0
    ensures Poly(w, x, y, xx, xy, yy, slope, icpt) <= Poly(w, x, y, xx, xy, yy, a, b)
  {
    NormalEquation(w, x, y, xx, xy, slope, icpt);
    AroundMinimum(w, x, y, xx, xy, yy, slope, icpt, a - slope, b - icpt, a, b);
  }

  lemma NormalEquation(w: real, x: real, y: real, xx: real, xy: real, slope: real, icpt: real)
    requires w != 0.0 && slope * Reduced(w, xx, x, x) == Reduced(w, xy, x, y) && icpt * w == y - slope * x
    ensures slope * xx + icpt * x == xy
  {
    var e := slope * xx + icpt * x - xy;
    assert w * e == slope * (w * xx) + (icpt * w) * x - w * xy;
    assert (y - slope * x) * x == x * y - slope * (x * x);
    assert slope * Reduced(w, xx, x, x) == slope * (w * xx) - slope * (x * x);
    assert w * e == 0.0;
  }

  lemma AroundMinimum(w: real, x: real, y: real, xx: real, xy: real, yy: real, slope: real, icpt: real, c: real,
        d: real, a: real, b: real)
    requires slope * x + icpt * w == y && slope * xx + icpt * x == xy && a == slope + c && b == icpt + d
    ensures Poly(w, x, y, xx, xy, yy, a, b) == Poly(w, x, y, xx, xy, yy, slope, icpt) + Form(w, x, xx, c, d)
  {
    var p, q := slope * xx + icpt * x - xy, slope * x + icpt * w - y;
    assert Poly(w, x, y, xx, xy, yy, slope + c, icpt + d)
        == Poly(w, x, y, xx, xy, yy, slope, icpt) + Form(w, x, xx, c, d) + 2.0 * c * p + 2.0 * d * q;
  }

  // ---------------- the estimator's fields ----------------

  class Estimator {
    const hostRate: real
    const nominal: real
    var primed: bool
    var origin: Obs
    var sums: Sums
    var target: real
    ghost var history: seq<Obs>

    ghost predicate Valid()
      reads this
    {
      Fit(primed, origin, sums, target) == Observed(history, hostRate, nominal)
    }

    constructor (hostRate: real, devRate: real)
      requires hostRate > 0.0 && devRate > 0.0
      ensures Valid() && history == [] && this.nominal == hostRate / devRate && target == this.nominal
    {
      this.hostRate, this.nominal := hostRate, hostRate / devRate;
      primed, origin, sums, target := false, Obs(0.0, 0.0), NO_SUMS, hostRate / devRate;
      history := [];
    }

    method Update(p: Obs)
      requires Valid()
      modifies this
      ensures Valid() && history == old(history) + [p]
    {
      assert (history + [p])[..|history|] == history;
      history := history + [p];
      if !primed {
        primed, origin := true, p;
        return;
      }
      var x, y := p.host - origin.host, p.dev - origin.dev;
      if x > SHIFT_S {
        sums := Shift(sums, x, y);
        origin := p;
        x, y := 0.0, 0.0;
      }
      sums := Add(sums, x, y);
      var denom := Denom(sums);
      if denom <= 0.0 { return; }
      var slope := Numer(sums) / denom;
      if slope <= 0.0 { return; }
      var t := hostRate / slope;
      var lo, hi := nominal * (1.0 - MAXADJ), nominal * (1.0 + MAXADJ);
      if t < lo { t := lo; } else if t > hi { t := hi; }
      target := t;
    }
  }
}
