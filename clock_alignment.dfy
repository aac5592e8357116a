/**
 * Alignment of the stimulus computer's clock with the neural recording
 * system: the TTL codes of the event file are checked against the DAQ log,
 * a line `event_time = m * daq_post_time + b` is fitted by least squares,
 * and the watchlog's CPU times (frames, pauses) are mapped through it.
 * Skips in movie playback cut the mapped times into segments.
 */
module ClockAlignment {
  import opened Common
  import opened NdArray
  import opened EventLog
  import opened LogParsers

  // ------------------------------------------------------ the code check

  /** Number of positions where two equally long code arrays differ. */
  function MismatchCount(a: seq<int>, b: seq<int>): nat
    requires |a| == |b|
  {
    if a == [] then 0
    else MismatchCount(a[..|a| - 1], b[..|b| - 1]) + (if a[|a| - 1] != b[|b| - 1] then 1 else 0)
  }

  /** No position differs exactly when the arrays are equal. */
  lemma {:induction false} MismatchCountZero(a: seq<int>, b: seq<int>)
    requires |a| == |b|
    ensures MismatchCount(a, b) == 0 <==> a == b
  {
    if a != [] {
      MismatchCountZero(a[..|a| - 1], b[..|b| - 1]);
      assert a == a[..|a| - 1] + [a[|a| - 1]];
      assert b == b[..|b| - 1] + [b[|b| - 1]];
    }
  }

  /**
   * `(a != b).sum()` with NumPy broadcasting: arrays of equal length are
   * compared position by position, a one-element array is compared with
   * every entry of the other, and any other pair of lengths is refused.
   */
  function CodeErrors(a: seq<int>, b: seq<int>): (r: Result<nat>)
    ensures r.Ok? <==> |a| == |b| || |a| == 1 || |b| == 1
    ensures r.Err? ==> r.error == LengthMismatch
    ensures r.Ok? && |a| == |b| ==> r.value == MismatchCount(a, b)
  {
    if |a| == |b| then Ok(MismatchCount(a, b))
    else if |a| == 1 then Ok(MismatchCount(seq(|b|, _ => a[0]), b))
    else if |b| == 1 then Ok(MismatchCount(a, seq(|a|, _ => b[0])))
    else Err(LengthMismatch)
  }

  // ------------------------------------------------------ least squares

  /** The number of points, as a real. */
  function Count(s: seq<real>): (n: real)
    ensures s != [] ==> n >= 1.0
    ensures s == [] ==> n == 0.0
  {
    if s == [] then 0.0 else Count(s[..|s| - 1]) + 1.0
  }

  lemma {:induction false} CountIsLength(s: seq<real>)
    ensures Count(s) == |s| as real
  {
    if s != [] { CountIsLength(s[..|s| - 1]); }
  }

  function Sum(s: seq<real>): real
  {
    if s == [] then 0.0 else Sum(s[..|s| - 1]) + s[|s| - 1]
  }

  function Dot(x: seq<real>, y: seq<real>): real
    requires |x| == |y|
  {
    if x == [] then 0.0 else Dot(x[..|x| - 1], y[..|y| - 1]) + x[|x| - 1] * y[|y| - 1]
  }

  /** Sum of squared distances of the entries from `c`. */
  function SquaredDeviation(x: seq<real>, c: real): real
  {
    if x == [] then 0.0 else SquaredDeviation(x[..|x| - 1], c) + Sq(x[|x| - 1] - c)
  }

  function Sq(d: real): real { d * d }

  lemma {:induction false} Square(d: real)
    ensures Sq(d) >= 0.0
    ensures d != 0.0 ==> Sq(d) > 0.0
  {
    if d < 0.0 {
      calc {
        Sq(d);
        (0.0 - d) * (0.0 - d);
        > { assert 0.0 - d > 0.0; }
        0.0;
      }
    } else if d > 0.0 {
      calc {
        Sq(d);
        d * d;
        > 0.0;
      }
    }
  }

  /** `Σ (x_i - mean)²` written through the raw sums. */
  function Spread(x: seq<real>): real
    requires |x| > 0
  {
    SpreadOf(Dot(x, x), Sum(x), Count(x))
  }

  /** `Σx² - (Σx)²/n` from the raw sums. */
  function SpreadOf(sxx: real, sx: real, n: real): real
    requires n != 0.0
  {
    sxx - sx * sx / n
  }

  datatype Line = Line(slope: real, intercept: real)

  function Eval(l: Line, x: real): real { l.slope * x + l.intercept }

  /**
   * The normal equations of least squares: the residuals `y_i - (m x_i + b)`
   * sum to zero and are uncorrelated with `x`.  A line satisfies them
   * exactly when it minimises the sum of squared residuals.
   */
  predicate NormalEquations(x: seq<real>, y: seq<real>, l: Line)
    requires |x| == |y|
  {
    Solves(Count(x), Sum(x), Sum(y), Dot(x, x), Dot(x, y), l)
  }

  /** The normal equations in terms of `n`, `Σx`, `Σy`, `Σx²` and `Σxy`. */
  predicate Solves(n: real, sx: real, sy: real, sxx: real, sxy: real, l: Line)
  {
    LineSum(sy, sx, n, l) && Affine(sxy, sxx, sx, l)
  }

  /** `Σy = m Σx + n b` for `n` points on the line `y = m x + b`. */
  predicate LineSum(sy: real, sx: real, n: real, l: Line)
  {
    sy == l.slope * sx + n * l.intercept
  }

  /** The closed-form solution of the normal equations. */
  function LeastSquares(n: real, sx: real, sy: real, sxx: real, sxy: real): (l: Line)
    requires n > 0.0 && sxx - sx * sx / n != 0.0
    ensures Solves(n, sx, sy, sxx, sxy, l)
  {
    var vx := sxx - sx * sx / n;
    var cxy := sxy - sx * sy / n;
    var m := cxy / vx;
    var b := (sy - m * sx) / n;
    LeastSquaresSolves(n, sx, sy, sxx, sxy, vx, cxy, m, b);
    Line(m, b)
  }

  lemma {:induction false} LeastSquaresSolves(n: real, sx: real, sy: real, sxx: real, sxy: real, vx: real, cxy: real, m: real, b: real)
    requires n > 0.0 && vx == sxx - sx * sx / n && vx != 0.0 && cxy == sxy - sx * sy / n
    requires m == cxy / vx && b == (sy - m * sx) / n
    ensures sy == m * sx + n * b && sxy == m * sxx + b * sx
  {
    assert m * vx == cxy;
    assert n * b == sy - m * sx;
    var mx := sx / n;
    assert sx == n * mx;
    assert b == sy / n - m * mx;
    assert b * sx == sy * mx - m * mx * sx;
    assert m * sxx == m * vx + m * sx * mx;
  }

  /** A second solution of the normal equations would need all `x` equal. */
  lemma {:induction false} SolvesUnique(n: real, sx: real, sy: real, sxx: real, sxy: real, l: Line, k: Line)
    requires n > 0.0 && sxx - sx * sx / n != 0.0
    requires Solves(n, sx, sy, sxx, sxy, l) && Solves(n, sx, sy, sxx, sxy, k)
    ensures l == k
  {
    var dm := l.slope - k.slope;
    var db := l.intercept - k.intercept;
    assert dm * sx + n * db == 0.0;
    assert dm * sxx + db * sx == 0.0;
    var mx := sx / n;
    assert db == -dm * mx;
    assert dm * sxx - dm * mx * sx == 0.0;
    assert dm * (sxx - sx * sx / n) == 0.0;
  }

  /**
   * `np.polyfit(x, y, 1)` in exact arithmetic.  Arrays of different length
   * or no points are refused; points that all share one `x` admit no unique
   * line.
   */
  function Fit(x: seq<real>, y: seq<real>): (r: Result<Line>)
    ensures r.Ok? <==> |x| == |y| && |x| > 0 && Spread(x) != 0.0
    ensures r.Ok? ==> NormalEquations(x, y, r.value)
  {
    if |x| != |y| then Err(LengthMismatch)
    else if |x| == 0 then Err(EmptyReduction)
    else if Spread(x) == 0.0 then Err(DegenerateFit)
    else Ok(LeastSquares(Count(x), Sum(x), Sum(y), Dot(x, x), Dot(x, y)))
  }

  /** The normal equations have one solution only: the fitted line. */
  lemma {:induction false} FitUnique(x: seq<real>, y: seq<real>, l: Line)
    requires |x| == |y| && |x| > 0 && Spread(x) != 0.0
    requires NormalEquations(x, y, l)
    ensures Fit(x, y) == Ok(l)
  {
    SolvesUnique(Count(x), Sum(x), Sum(y), Dot(x, x), Dot(x, y), l, Fit(x, y).value);
  }

  lemma {:induction false} SumAffine(x: seq<real>, y: seq<real>, l: Line)
    requires |x| == |y|
    requires forall i :: 0 <= i < |x| ==> y[i] == Eval(l, x[i])
    ensures LineSum(Sum(y), Sum(x), Count(x), l)
  {
    if x != [] {
      var x', y' := x[..|x| - 1], y[..|y| - 1];
      SumAffine(x', y', l);
      assert Sum(x) == Sum(x') + x[|x| - 1] && Sum(y) == Sum(y') + y[|y| - 1] && Count(x) == Count(x') + 1.0;
      LineSumStep(Sum(y'), Sum(x'), Count(x'), l, x[|x| - 1], y[|y| - 1], Sum(y), Sum(x), Count(x));
    }
  }

  /** Adding a point `(v, m v + b)` keeps `Σy = m Σx + n b`. */
  lemma {:induction false} LineSumStep(sy: real, sx: real, n: real, l: Line, v: real, w: real, sy': real, sx': real, n': real)
    requires LineSum(sy, sx, n, l) && w == Eval(l, v)
    requires sy' == sy + w && sx' == sx + v && n' == n + 1.0
    ensures LineSum(sy', sx', n', l)
  {
  }

  lemma {:induction false} DotAffine(x: seq<real>, y: seq<real>, l: Line)
    requires |x| == |y|
    requires forall i :: 0 <= i < |x| ==> y[i] == Eval(l, x[i])
    ensures Affine(Dot(x, y), Dot(x, x), Sum(x), l)
  {
    if x != [] {
      var x', y' := x[..|x| - 1], y[..|y| - 1];
      var v := x[|x| - 1];
      DotAffine(x', y', l);
      assert x == x' + [v];
      assert y == y' + [Eval(l, v)];
      DotAffineSnoc(x', y', v, l);
    }
  }

  /** `Σxy = m Σx² + b Σx` for the line `y = m x + b`. */
  predicate Affine(dxy: real, dxx: real, sx: real, l: Line)
  {
    dxy == l.slope * dxx + l.intercept * sx
  }

  /** The relation extends to one more point on the line. */
  lemma {:induction false} DotAffineSnoc(x: seq<real>, y: seq<real>, v: real, l: Line)
    requires |x| == |y| && Affine(Dot(x, y), Dot(x, x), Sum(x), l)
    ensures Affine(Dot(x + [v], y + [Eval(l, v)]), Dot(x + [v], x + [v]), Sum(x + [v]), l)
  {
    var x1, y1 := x + [v], y + [Eval(l, v)];
    assert x1[..|x1| - 1] == x && y1[..|y1| - 1] == y;
    AffineStep(Dot(x, y), Dot(x, x), Sum(x), l, v, Eval(l, v), Dot(x1, y1), Dot(x1, x1), Sum(x1));
  }

  /** Adding a point `(v, m v + b)` keeps `Σxy = m Σx² + b Σx`. */
  lemma {:induction false} AffineStep(dxy: real, dxx: real, sx: real, l: Line, v: real, w: real, dxy': real, dxx': real, sx': real)
    requires Affine(dxy, dxx, sx, l) && w == Eval(l, v)
    requires dxy' == dxy + v * w && dxx' == dxx + v * v && sx' == sx + v
    ensures Affine(dxy', dxx', sx', l)
  {
    assert v * w == l.slope * (v * v) + l.intercept * v;
  }

  /** Points on a line (with two distinct `x`) give back exactly that line. */
  lemma {:induction false} FitRecoversLine(x: seq<real>, l: Line)
    requires |x| > 0 && Spread(x) != 0.0
    ensures Fit(x, seq(|x|, i requires 0 <= i < |x| => Eval(l, x[i]))) == Ok(l)
  {
    var y := seq(|x|, i requires 0 <= i < |x| => Eval(l, x[i]));
    NormalOnLine(x, y, l);
    FitUnique(x, y, l);
  }

  /** Points on a line satisfy the normal equations of that line. */
  lemma {:induction false} NormalOnLine(x: seq<real>, y: seq<real>, l: Line)
    requires |x| == |y|
    requires forall i :: 0 <= i < |x| ==> y[i] == Eval(l, x[i])
    ensures NormalEquations(x, y, l)
  {
    SumAffine(x, y, l);
    DotAffine(x, y, l);
  }

  /** `sd == Σx² - 2cΣx + n c²`, the expansion of a sum of squared deviations. */
  predicate Expanded(sd: real, dot: real, sum: real, n: real, c: real)
  {
    sd == dot - 2.0 * c * sum + n * c * c
  }

  lemma {:induction false} SquaredDeviationExpand(x: seq<real>, c: real)
    ensures Expanded(SquaredDeviation(x, c), Dot(x, x), Sum(x), Count(x), c)
  {
    if x != [] {
      SquaredDeviationExpand(x[..|x| - 1], c);
      ExpandSnoc(x, c);
    }
  }

  /** The expansion over all but the last entry extends to the whole. */
  lemma {:induction false} ExpandSnoc(x: seq<real>, c: real)
    requires x != []
    requires var x' := x[..|x| - 1]; Expanded(SquaredDeviation(x', c), Dot(x', x'), Sum(x'), Count(x'), c)
    ensures Expanded(SquaredDeviation(x, c), Dot(x, x), Sum(x), Count(x), c)
  {
    var x' := x[..|x| - 1];
    SumsSnoc(x, c);
    ExpandStep(SquaredDeviation(x', c), Dot(x', x'), Sum(x'), Count(x'), c, x[|x| - 1],
               SquaredDeviation(x, c), Dot(x, x), Sum(x), Count(x));
  }

  /** Each sum over `x` is the sum over all but the last entry plus the last entry's term. */
  lemma {:induction false} SumsSnoc(x: seq<real>, c: real)
    requires x != []
    ensures var x', v := x[..|x| - 1], x[|x| - 1];
      SquaredDeviation(x, c) == SquaredDeviation(x', c) + Sq(v - c)
      && Dot(x, x) == Dot(x', x') + v * v && Sum(x) == Sum(x') + v && Count(x) == Count(x') + 1.0
  {
  }

  /** Adding one entry `v` keeps the expansion. */
  lemma {:induction false} ExpandStep(sd: real, dot: real, sum: real, n: real, c: real, v: real, sd': real, dot': real, sum': real, n': real)
    requires Expanded(sd, dot, sum, n, c)
    requires sd' == sd + Sq(v - c) && dot' == dot + v * v && sum' == sum + v && n' == n + 1.0
    ensures Expanded(sd', dot', sum', n', c)
  {
  }

  lemma {:induction false} SquaredDeviationNonNegative(x: seq<real>, c: real)
    ensures SquaredDeviation(x, c) >= 0.0
  {
    if x != [] {
      SquaredDeviationNonNegative(x[..|x| - 1], c);
      Square(x[|x| - 1] - c);
    }
  }

  lemma {:induction false} SquaredDeviationZero(x: seq<real>, c: real)
    ensures SquaredDeviation(x, c) == 0.0 <==> forall i :: 0 <= i < |x| ==> x[i] == c
  {
    if x != [] {
      var x' := x[..|x| - 1];
      var d := x[|x| - 1] - c;
      SquaredDeviationZero(x', c);
      SquaredDeviationNonNegative(x', c);
      assert SquaredDeviation(x, c) == SquaredDeviation(x', c) + Sq(d);
      Square(d);
      assert forall i :: 0 <= i < |x| - 1 ==> x'[i] == x[i];
      if SquaredDeviation(x, c) == 0.0 {
        assert Sq(d) == 0.0;
        assert d == 0.0;
      }
    }
  }

  lemma {:induction false} SumConstant(x: seq<real>, c: real)
    requires forall i :: 0 <= i < |x| ==> x[i] == c
    ensures Sum(x) == Count(x) * c
  {
    if x != [] {
      SumConstant(x[..|x| - 1], c);
    }
  }

  /** The fit is refused exactly when every `x` is the same. */
  lemma {:induction false} SpreadZero(x: seq<real>)
    requires |x| > 0
    ensures Spread(x) == 0.0 <==> forall i :: 0 <= i < |x| ==> x[i] == x[0]
  {
    var mean := Sum(x) / Count(x);
    SpreadIsDeviation(x);
    SquaredDeviationZero(x, mean);
    if forall i :: 0 <= i < |x| ==> x[i] == x[0] {
      SumConstant(x, x[0]);
      MeanOf(Sum(x), Count(x), x[0]);
    }
  }

  /** The spread is the squared deviation from the mean. */
  lemma {:induction false} SpreadIsDeviation(x: seq<real>)
    requires |x| > 0
    ensures Spread(x) == SquaredDeviation(x, Sum(x) / Count(x))
  {
    var mean := Sum(x) / Count(x);
    SquaredDeviationExpand(x, mean);
    DeviationFromMean(SquaredDeviation(x, mean), Dot(x, x), Sum(x), Count(x), mean);
  }

  /** A sum of `n` copies of `c` has mean `c`. */
  lemma {:induction false} MeanOf(s: real, n: real, c: real)
    requires n > 0.0 && s == n * c
    ensures s / n == c
  {
  }

  /** Expanded about the mean, the squared deviation is `Σx² - (Σx)²/n`. */
  lemma {:induction false} DeviationFromMean(sd: real, sxx: real, sx: real, n: real, mean: real)
    requires n > 0.0 && mean == sx / n && Expanded(sd, sxx, sx, n, mean)
    ensures sd == SpreadOf(sxx, sx, n)
  {
    assert sx == n * mean;
  }

  // ------------------------------------------------------ get_coeff

  function AsReals(s: seq<int>): (r: seq<real>)
    ensures |r| == |s| && forall i :: 0 <= i < |s| ==> r[i] == s[i] as real
  {
    seq(|s|, i requires 0 <= i < |s| => s[i] as real)
  }

  function Times(rows: seq<Event>): (ts: seq<int>)
    ensures |ts| == |rows| && forall i :: 0 <= i < |rows| ==> ts[i] == rows[i].timestamp
  {
    seq(|rows|, i requires 0 <= i < |rows| => rows[i].timestamp)
  }

  /**
   * `get_coeff`: the event codes must agree with the DAQ log's codes (any
   * difference is fatal and reports how many positions differ); the DAQ
   * latency report needs at least one DAQ row; then the event timestamps are
   * fitted against the DAQ post times.
   */
  function GetCoeff(events: seq<Event>, daq: DaqRows): (r: Result<Line>)
    requires |daq.preTimes| == |daq.values| && |daq.postTimes| == |daq.values|
    ensures r.Ok? ==> Codes(events) == daq.values && |events| > 0
    ensures r.Ok? ==> NormalEquations(AsReals(daq.postTimes), AsReals(Times(events)), r.value)
    ensures CodeErrors(Codes(events), daq.values).Err? ==> r == Err(LengthMismatch)
    ensures CodeErrors(Codes(events), daq.values).Ok? && CodeErrors(Codes(events), daq.values).value > 0
      ==> r == Err(CodeMismatch(CodeErrors(Codes(events), daq.values).value))
  {
    var errors :- CodeErrors(Codes(events), daq.values);
    if errors > 0 then Err(CodeMismatch(errors))
    else if |daq.postTimes| == 0 then Err(EmptyReduction)
    else
      var l :- Fit(AsReals(daq.postTimes), AsReals(Times(events)));
      assert |Codes(events)| == |daq.values|;
      MismatchCountZero(Codes(events), daq.values);
      Ok(l)
  }

  /** Events whose codes match and whose times lie on a line give that line. */
  lemma {:induction false} GetCoeffExact(events: seq<Event>, daq: DaqRows, l: Line)
    requires |daq.preTimes| == |daq.values| && |daq.postTimes| == |daq.values|
    requires Codes(events) == daq.values && |events| > 0
    requires Spread(AsReals(daq.postTimes)) != 0.0
    requires forall i :: 0 <= i < |events| ==> events[i].timestamp as real == Eval(l, daq.postTimes[i] as real)
    ensures GetCoeff(events, daq) == Ok(l)
  {
    MismatchCountZero(Codes(events), daq.values);
    var x := AsReals(daq.postTimes);
    var y := AsReals(Times(events));
    assert y == seq(|x|, i requires 0 <= i < |x| => Eval(l, x[i]));
    FitRecoversLine(x, l);
  }

  // ------------------------------------------------------ conversion

  /** `cpu_time * m + b`, entry by entry. */
  function ApplyLine(l: Line, ts: seq<int>): (r: seq<real>)
    ensures |r| == |ts|
  {
    seq(|ts|, i requires 0 <= i < |ts| => Eval(l, ts[i] as real))
  }

  /** The map loses nothing: with a non-zero slope each CPU time is recovered. */
  lemma {:induction false} ApplyLineInvertible(l: Line, ts: seq<int>, i: nat)
    requires l.slope != 0.0 && i < |ts|
    ensures (ApplyLine(l, ts)[i] - l.intercept) / l.slope == ts[i] as real
  {
  }

  /** With a positive slope the map keeps the order of the frames. */
  lemma {:induction false} ApplyLineIncreasing(l: Line, ts: seq<int>)
    requires l.slope > 0.0 && Ascending(ts)
    ensures StrictlyIncreasing(ApplyLine(l, ts))
  {
    var r := ApplyLine(l, ts);
    forall i, j | 0 <= i < j < |r| ensures r[i] < r[j] {
      assert r[j] - r[i] == l.slope * (ts[j] - ts[i]) as real;
      MulPositive(l.slope, (ts[j] - ts[i]) as real);
    }
  }

  /** `make_msec`: microseconds to milliseconds. */
  function MakeMsec(s: seq<real>): (r: seq<real>)
    ensures |r| == |s| && forall i :: 0 <= i < |s| ==> r[i] * 1000.0 == s[i]
  {
    seq(|s|, i requires 0 <= i < |s| => s[i] / 1000.0)
  }

  /** The line that maps CPU times straight to milliseconds. */
  function MsecLine(l: Line): Line { Line(l.slope / 1000.0, l.intercept / 1000.0) }

  /** Rescaling after the map is the same as mapping with a rescaled line. */
  lemma {:induction false} MakeMsecOfLine(l: Line, ts: seq<int>)
    ensures MakeMsec(ApplyLine(l, ts)) == ApplyLine(MsecLine(l), ts)
  {
    var r := MakeMsec(ApplyLine(l, ts));
    var q := ApplyLine(MsecLine(l), ts);
    forall i | 0 <= i < |ts| ensures r[i] == q[i] {
      ScaleAffine(l.slope, l.intercept, ts[i] as real);
    }
  }

  lemma {:induction false} ScaleAffine(m: real, b: real, t: real)
    ensures (m * t + b) / 1000.0 == (m / 1000.0) * t + b / 1000.0
  {
  }

  /** The files a `TimeConversion` reads, already loaded. */
  datatype Recording = Recording(eventFile: seq<Byte>, daqLines: seq<string>, watchLines: seq<string>)

  /**
   * `event_mat[:,0], event_mat[:,1]`, the first line of `get_coeff`, which
   * runs before the DAQ log is read: a one-dimensional array has no columns.
   */
  function EventColumns(a: EventArray): (r: Result<seq<Event>>)
    ensures r.Ok? <==> a.Columns?
    ensures r.Err? ==> r.error == IndexOutOfRange
    ensures r.Ok? ==> r.value == a.rows
  {
    match a
    case Flat => Err(IndexOutOfRange)
    case Columns(rows) => Ok(rows)
  }

  /** `get_coeff(process_events(nev_read(events)), daqlog)`. */
  function Coefficients(copy: Copy, rec: Recording): Result<Line>
  {
    var rows :- ReadEvents(rec.eventFile);
    var arr :- ProcessEvents(copy, rows);
    var events :- EventColumns(arr);
    var daq :- Daqlog(rec.daqLines);
    GetCoeff(events, daq)
  }

  datatype Converted = Converted(pts: seq<real>, daqTime: seq<real>, cpuTime: seq<int>)

  /**
   * `TimeConversion.convert`: the watchlog's frames with their CPU times
   * mapped to recording time.  The packaged copy reads and filters the
   * events, fits them against the DAQ log and then reads the watchlog; the
   * legacy copy reads the watchlog between filtering the events and reading
   * the DAQ log.  The order decides the error reported when several steps
   * fail.
   */
  function Convert(copy: Copy, rec: Recording, parseFloat: string -> Option<real>): (r: Result<Converted>)
    ensures r.Ok? <==> Coefficients(copy, rec).Ok? && Watchlog(rec.watchLines, parseFloat).Ok?
    ensures r.Ok? ==> r.value.pts == Watchlog(rec.watchLines, parseFloat).value.0
    ensures r.Ok? ==> r.value.cpuTime == Watchlog(rec.watchLines, parseFloat).value.1
    ensures r.Ok? ==> |r.value.pts| == |r.value.daqTime| == |r.value.cpuTime|
    ensures r.Ok? ==> forall i :: 0 <= i < |r.value.cpuTime| ==>
      r.value.daqTime[i] == Eval(Coefficients(copy, rec).value, r.value.cpuTime[i] as real)
  {
    if copy == Packaged then
      var l :- Coefficients(copy, rec);
      var log :- Watchlog(rec.watchLines, parseFloat);
      Ok(Converted(log.0, ApplyLine(l, log.1), log.1))
    else
      var rows :- ReadEvents(rec.eventFile);
      var arr :- ProcessEvents(copy, rows);
      var log :- Watchlog(rec.watchLines, parseFloat);
      var events :- EventColumns(arr);
      var daq :- Daqlog(rec.daqLines);
      var l :- GetCoeff(events, daq);
      Ok(Converted(log.0, ApplyLine(l, log.1), log.1))
  }

  /**
   * Which failure `convert` reports: the event file is read and filtered
   * first in every copy; the packaged copy then fits before it reads the
   * watchlog, while the legacy copy reads the watchlog before the DAQ log.
   */
  lemma {:induction false} ConvertFirstError(copy: Copy, rec: Recording, parseFloat: string -> Option<real>)
    ensures ReadEvents(rec.eventFile).Err? ==>
      Convert(copy, rec, parseFloat) == Err(ReadEvents(rec.eventFile).error)
    ensures ReadEvents(rec.eventFile).Ok? && ProcessEvents(copy, ReadEvents(rec.eventFile).value).Err? ==>
      Convert(copy, rec, parseFloat) == Err(ProcessEvents(copy, ReadEvents(rec.eventFile).value).error)
    ensures copy == Packaged && Coefficients(copy, rec).Err? ==>
      Convert(copy, rec, parseFloat) == Err(Coefficients(copy, rec).error)
    ensures copy != Packaged && ReadEvents(rec.eventFile).Ok? && ProcessEvents(copy, ReadEvents(rec.eventFile).value).Ok? &&
            Watchlog(rec.watchLines, parseFloat).Err? ==>
      Convert(copy, rec, parseFloat) == Err(ParseError)
    ensures copy != Packaged && Watchlog(rec.watchLines, parseFloat).Ok? && Coefficients(copy, rec).Err? ==>
      Convert(copy, rec, parseFloat) == Err(Coefficients(copy, rec).error)
  {
    if copy != Packaged && Watchlog(rec.watchLines, parseFloat).Ok? && Coefficients(copy, rec).Err? {
      LegacyFitErrorAfterWatchlog(copy, rec, parseFloat);
    }
  }

  /** Once the legacy copy has read the watchlog, `convert` reports the fit's failure. */
  lemma {:induction false} LegacyFitErrorAfterWatchlog(copy: Copy, rec: Recording, parseFloat: string -> Option<real>)
    requires copy != Packaged && Watchlog(rec.watchLines, parseFloat).Ok? && Coefficients(copy, rec).Err?
    ensures Convert(copy, rec, parseFloat) == Err(Coefficients(copy, rec).error)
  {
  }

  /**
   * An event array from which the movie filter kept nothing fails at its
   * column read, before the DAQ log is looked at: the fit reports the index
   * error whatever the DAQ log holds, and so does `convert` once the legacy
   * copy has read the watchlog.
   */
  lemma {:induction false} ConvertFlatEvents(copy: Copy, rec: Recording, parseFloat: string -> Option<real>)
    requires ReadEvents(rec.eventFile).Ok? && ProcessEvents(copy, ReadEvents(rec.eventFile).value) == Ok(Flat)
    ensures Coefficients(copy, rec) == Err(IndexOutOfRange)
    ensures copy == Packaged || Watchlog(rec.watchLines, parseFloat).Ok? ==>
      Convert(copy, rec, parseFloat) == Err(IndexOutOfRange)
  {
  }

  /**
   * `TimeConversion.convert_pauses`: pause starts and stops mapped to
   * recording time; the legacy copy also rescales them to milliseconds.
   */
  function ConvertPauses(copy: Copy, rec: Recording): (r: Result<(seq<real>, seq<real>)>)
    ensures r.Ok? <==> Pauses(rec.watchLines, |rec.watchLines|).Ok? && Coefficients(copy, rec).Ok?
    ensures r.Ok? && copy == Packaged ==>
      r.value == (ApplyLine(Coefficients(copy, rec).value, Pauses(rec.watchLines, |rec.watchLines|).value.starts),
                  ApplyLine(Coefficients(copy, rec).value, Pauses(rec.watchLines, |rec.watchLines|).value.stops))
    ensures r.Ok? && copy != Packaged ==>
      r.value == (ApplyLine(MsecLine(Coefficients(copy, rec).value), Pauses(rec.watchLines, |rec.watchLines|).value.starts),
                  ApplyLine(MsecLine(Coefficients(copy, rec).value), Pauses(rec.watchLines, |rec.watchLines|).value.stops))
  {
    var p :- Pauses(rec.watchLines, |rec.watchLines|);
    var l :- Coefficients(copy, rec);
    var starts := ApplyLine(l, p.starts);
    var stops := ApplyLine(l, p.stops);
    if copy == Packaged then Ok((starts, stops))
    else
      MakeMsecOfLine(l, p.starts);
      MakeMsecOfLine(l, p.stops);
      Ok((MakeMsec(starts), MakeMsec(stops)))
  }

  // ------------------------------------------------------ skips

  /** A jump of more than one second of movie time between frames is a skip. */
  const Threshold: real := 1.0

  /** The jump in movie time from frame `i` to frame `i + 1`. */
  function Jump(pts: seq<real>, i: nat): real
    requires i + 1 < |pts|
  {
    Abs(pts[i + 1] - pts[i])
  }

  /** `np.abs(np.diff(pts))`. */
  function Jumps(pts: seq<real>): (r: seq<real>)
    ensures |r| == (if |pts| == 0 then 0 else |pts| - 1)
    ensures forall i :: 0 <= i < |r| ==> r[i] == Jump(pts, i)
  {
    if |pts| == 0 then []
    else seq(|pts| - 1, i requires 0 <= i < |pts| - 1 => Jump(pts, i))
  }

  /**
   * The outcome of `convert_skips`: lists of segment starts, stops and
   * numbers when some jump reaches the threshold, or a single start and
   * stop (scalars) with the number list `[0]` otherwise.
   */
  datatype SkipSegments =
    | SkipLists(starts: seq<real>, stops: seq<real>, values: seq<int>)
    | NoSkip(start: real, stop: real, values: seq<int>)

  function Range(n: nat): (r: seq<int>)
    ensures |r| == n && forall j :: 0 <= j < n ==> r[j] == j
  {
    seq(n, j => j)
  }

  /** First frame of segment `j`, the segments being cut after the frames `idx`. */
  function SegmentFirst(idx: seq<nat>, j: nat): nat
    requires j <= |idx|
  {
    if j == 0 then 0 else idx[j - 1] + 1
  }

  /** Last frame of segment `j` among `n` frames. */
  function SegmentLast(idx: seq<nat>, j: nat, n: nat): int
    requires j <= |idx|
  {
    if j == |idx| then n - 1 else idx[j]
  }

  /** Skip positions that each leave a frame after them among `n` frames. */
  predicate CutsWithin(idx: seq<nat>, n: nat)
  {
    forall k :: 0 <= k < |idx| ==> idx[k] + 1 < n
  }

  /** Recording times of the first frames of the segments. */
  function SegmentStarts(daq: seq<real>, idx: seq<nat>): (r: seq<real>)
    requires |daq| > 0 && CutsWithin(idx, |daq|)
    ensures |r| == |idx| + 1
    ensures forall j :: 0 <= j <= |idx| ==> r[j] == daq[SegmentFirst(idx, j)]
  {
    [daq[0]] + seq(|idx|, j requires 0 <= j < |idx| => daq[idx[j] + 1])
  }

  /** Recording times of the last frames of the segments. */
  function SegmentStops(daq: seq<real>, idx: seq<nat>): (r: seq<real>)
    requires |daq| > 0 && CutsWithin(idx, |daq|)
    ensures |r| == |idx| + 1
    ensures forall j :: 0 <= j <= |idx| ==> r[j] == daq[SegmentLast(idx, j, |daq|)]
  {
    seq(|idx|, j requires 0 <= j < |idx| => daq[idx[j]]) + [daq[|daq| - 1]]
  }

  /** The positions of the jumps beyond the threshold. */
  function Skipped(pts: seq<real>): (idx: seq<nat>)
    ensures Ascending(idx) && CutsWithin(idx, |pts|)
    ensures forall k :: 0 <= k < |idx| ==> Jump(pts, idx[k]) > Threshold
    ensures forall i :: 0 <= i < |pts| - 1 && Jump(pts, i) > Threshold ==> i in idx
  {
    IndicesAbove(Jumps(pts), Threshold)
  }

  /**
   * `convert_skips` on the frames' movie times and recording times: fewer
   * than two frames have no jump to take the maximum of; a largest jump of
   * at least the threshold gives the segments between the skips as lists,
   * and otherwise the whole recording is one segment, as scalars.
   */
  function Skips(pts: seq<real>, daq: seq<real>): (r: Result<SkipSegments>)
    requires |pts| == |daq|
    ensures r.Err? <==> |pts| < 2
    ensures r.Err? ==> r.error == EmptyReduction
  {
    if |pts| < 2 then Err(EmptyReduction)
    else if MaxOf(Jumps(pts)) >= Threshold then
      var idx := Skipped(pts);
      Ok(SkipLists(SegmentStarts(daq, idx), SegmentStops(daq, idx), Range(|idx| + 1)))
    else Ok(NoSkip(daq[0], daq[|daq| - 1], [0]))
  }

  /** Every segment holds at least one frame and the next begins right after it. */
  lemma {:induction false} SegmentsTile(idx: seq<nat>, n: nat)
    requires n > 0 && Ascending(idx) && CutsWithin(idx, n)
    ensures forall j :: 0 <= j <= |idx| ==> SegmentFirst(idx, j) <= SegmentLast(idx, j, n) < n
    ensures forall j :: 0 <= j < |idx| ==> SegmentFirst(idx, j + 1) == SegmentLast(idx, j, n) + 1
  {
    forall j | 0 <= j <= |idx|
      ensures SegmentFirst(idx, j) <= SegmentLast(idx, j, n) < n
    {
      if 0 < j < |idx| {
        assert idx[j - 1] < idx[j];
      }
    }
  }

  /** No jump inside a segment exceeds the threshold. */
  lemma {:induction false} SegmentsAreRuns(pts: seq<real>)
    ensures var idx := Skipped(pts);
      forall j, i :: 0 <= j <= |idx| && SegmentFirst(idx, j) <= i < SegmentLast(idx, j, |pts|) ==>
        Jump(pts, i) <= Threshold
  {
    var idx := Skipped(pts);
    forall j, i | 0 <= j <= |idx| && SegmentFirst(idx, j) <= i < SegmentLast(idx, j, |pts|)
      ensures Jump(pts, i) <= Threshold
    {
      NoSkipInside(idx, j, |pts|, i);
      JumpNotSkipped(pts, idx, i);
    }
  }

  /** The jump after every segment but the last exceeds the threshold. */
  lemma {:induction false} SegmentsEndAtSkips(pts: seq<real>)
    ensures var idx := Skipped(pts);
      forall j :: 0 <= j < |idx| ==> Jump(pts, SegmentLast(idx, j, |pts|)) > Threshold
  {
    var idx := Skipped(pts);
    forall j | 0 <= j < |idx|
      ensures Jump(pts, SegmentLast(idx, j, |pts|)) > Threshold
    {
      assert SegmentLast(idx, j, |pts|) == idx[j];
    }
  }

  /** A jump left out of the skip positions is at most the threshold. */
  lemma {:induction false} JumpNotSkipped(pts: seq<real>, idx: seq<nat>, i: int)
    requires forall i :: 0 <= i < |pts| - 1 && Jump(pts, i) > Threshold ==> i in idx
    requires 0 <= i < |pts| - 1 && i !in idx
    ensures Jump(pts, i) <= Threshold
  {
  }

  /** A frame strictly inside segment `j` is not a skip position. */
  lemma {:induction false} NoSkipInside(idx: seq<nat>, j: nat, n: nat, i: int)
    requires Ascending(idx) && j <= |idx| && SegmentFirst(idx, j) <= i < SegmentLast(idx, j, n)
    ensures i !in idx
  {
    forall m | 0 <= m < |idx|
      ensures idx[m] != i
    {
      if m < j {
        assert idx[m] <= idx[j - 1];
      } else {
        assert idx[j] <= idx[m];
      }
    }
  }

  /**
   * With a skip, the segments partition the frames into maximal runs of
   * playback, numbered 0, 1, …, and each one's start and stop are the
   * recording times of its first and last frame.
   */
  lemma {:induction false} SkipSegmentsAreRuns(pts: seq<real>, daq: seq<real>)
    requires |pts| == |daq| && Skips(pts, daq).Ok? && Skips(pts, daq).value.SkipLists?
    ensures var s, idx := Skips(pts, daq).value, Skipped(pts);
      && |s.starts| == |s.stops| == |s.values| == |idx| + 1
      && (forall j :: 0 <= j < |s.values| ==> s.values[j] == j)
      && (forall j :: 0 <= j <= |idx| ==>
            s.starts[j] == daq[SegmentFirst(idx, j)] && s.stops[j] == daq[SegmentLast(idx, j, |pts|)])
  {
  }

  /**
   * The branch tests `max_jump >= 1` but the segment test is `> 1`: when
   * the largest jump is exactly one second there is one segment, as lists.
   */
  lemma {:induction false} SkipAtThreshold(pts: seq<real>, daq: seq<real>)
    requires |pts| == |daq| && |pts| >= 2 && MaxOf(Jumps(pts)) == Threshold
    ensures Skips(pts, daq) == Ok(SkipLists([daq[0]], [daq[|daq| - 1]], [0]))
  {
    var idx := Skipped(pts);
    if idx != [] {
      JumpAtMostMax(pts, idx[0]);
    }
    assert SegmentStarts(daq, idx) == [daq[0]];
    assert SegmentStops(daq, idx) == [daq[|daq| - 1]];
    assert Range(1) == [0];
  }

  lemma {:induction false} JumpAtMostMax(pts: seq<real>, i: nat)
    requires i + 1 < |pts|
    ensures Jump(pts, i) <= MaxOf(Jumps(pts))
  {
    assert Jumps(pts)[i] == Jump(pts, i);
  }

  /** Below the threshold the whole recording is one segment, as scalars. */
  lemma {:induction false} NoSkipBelowThreshold(pts: seq<real>, daq: seq<real>)
    requires |pts| == |daq| && |pts| >= 2
    requires forall i :: 0 <= i < |pts| - 1 ==> Jump(pts, i) < Threshold
    ensures Skips(pts, daq) == Ok(NoSkip(daq[0], daq[|daq| - 1], [0]))
  {
    var jumps := Jumps(pts);
    assert MaxOf(jumps) in jumps;
  }

  /** `timepoints_of_skips` after the loop over the skips `idx`. */
  function Timepoints(daq: seq<real>, idx: seq<nat>): (tp: seq<real>)
    requires |daq| > 0 && CutsWithin(idx, |daq|)
    ensures |tp| == 2 * |idx| + 1 && tp[0] == daq[0]
  {
    if idx == [] then [daq[0]]
    else
      var i := idx[|idx| - 1];
      Timepoints(daq, idx[..|idx| - 1]) + [daq[i], daq[i + 1]]
  }

  /** After the first recording time come, skip by skip, the times on either side of it. */
  lemma {:induction false} TimepointsAt(daq: seq<real>, idx: seq<nat>)
    requires |daq| > 0 && CutsWithin(idx, |daq|)
    ensures forall k :: 0 <= k < |idx| ==>
              Timepoints(daq, idx)[2 * k + 1] == daq[idx[k]] && Timepoints(daq, idx)[2 * k + 2] == daq[idx[k] + 1]
  {
    if idx != [] {
      var p := idx[..|idx| - 1];
      TimepointsAt(daq, p);
      var tp := Timepoints(daq, idx);
      assert tp == Timepoints(daq, p) + [daq[idx[|idx| - 1]], daq[idx[|idx| - 1] + 1]];
      forall k | 0 <= k < |idx| ensures tp[2 * k + 1] == daq[idx[k]] && tp[2 * k + 2] == daq[idx[k] + 1] {
        if k < |p| {
          assert p[k] == idx[k];
        }
      }
    }
  }

  /** `s[::2]`: the entries at even positions. */
  function EveryOther(s: seq<real>): (r: seq<real>)
    ensures |r| == (|s| + 1) / 2
    ensures forall j :: 0 <= j < |r| ==> r[j] == s[2 * j]
  {
    if |s| <= 1 then s else [s[0]] + EveryOther(s[2..])
  }

  /** `timepoints_of_skips[0:-1:2]` are the segment starts. */
  lemma {:induction false} TimepointsStarts(daq: seq<real>, idx: seq<nat>)
    requires |daq| > 0 && CutsWithin(idx, |daq|)
    ensures EveryOther(Timepoints(daq, idx)) == SegmentStarts(daq, idx)
  {
    TimepointsAt(daq, idx);
    var r, q := EveryOther(Timepoints(daq, idx)), SegmentStarts(daq, idx);
    forall j | 1 <= j <= |idx| ensures r[j] == q[j] {
      assert r[j] == Timepoints(daq, idx)[2 * (j - 1) + 2];
    }
  }

  /** `timepoints_of_skips[1::2]` are the segment stops. */
  lemma {:induction false} TimepointsStops(daq: seq<real>, idx: seq<nat>)
    requires |daq| > 0 && CutsWithin(idx, |daq|)
    ensures EveryOther((Timepoints(daq, idx) + [daq[|daq| - 1]])[1..]) == SegmentStops(daq, idx)
  {
    TimepointsAt(daq, idx);
    var tp := Timepoints(daq, idx) + [daq[|daq| - 1]];
    var r, q := EveryOther(tp[1..]), SegmentStops(daq, idx);
    forall j | 0 <= j < |idx| ensures r[j] == q[j] {
      assert r[j] == tp[2 * j + 1];
    }
    assert r[|idx|] == tp[2 * |idx| + 1];
  }

  /** One more pass of the loop in `convert_skips` appends the two times around skip `i`. */
  lemma {:induction false} TimepointsStep(daq: seq<real>, idx: seq<nat>, i: nat)
    requires |daq| > 0 && CutsWithin(idx, |daq|) && i < |idx|
    ensures CutsWithin(idx[..i], |daq|) && CutsWithin(idx[..i + 1], |daq|)
    ensures Timepoints(daq, idx[..i + 1]) == Timepoints(daq, idx[..i]) + [daq[idx[i]], daq[idx[i] + 1]]
  {
    CutsWithinPrefix(idx, |daq|, i);
    CutsWithinPrefix(idx, |daq|, i + 1);
    var p := idx[..i + 1];
    assert p[..|p| - 1] == idx[..i];
    TimepointsSnoc(daq, p);
  }

  /** A prefix of cuts within the recording stays within it. */
  lemma {:induction false} CutsWithinPrefix(idx: seq<nat>, n: nat, m: nat)
    requires CutsWithin(idx, n) && m <= |idx|
    ensures CutsWithin(idx[..m], n)
  {
    var p := idx[..m];
    forall k | 0 <= k < |p| ensures p[k] + 1 < n {
      assert p[k] == idx[k];
    }
  }

  /** The times of the last skip come last. */
  lemma {:induction false} TimepointsSnoc(daq: seq<real>, p: seq<nat>)
    requires |daq| > 0 && CutsWithin(p, |daq|) && p != []
    ensures CutsWithin(p[..|p| - 1], |daq|)
    ensures Timepoints(daq, p) == Timepoints(daq, p[..|p| - 1]) + [daq[p[|p| - 1]], daq[p[|p| - 1] + 1]]
  {
    CutsWithinPrefix(p, |daq|, |p| - 1);
  }

  /** The first recording time, then the recording times on either side of each skip. */
  method SkipTimepoints(daq: seq<real>, beyond: seq<nat>) returns (tp: seq<real>)
    requires |daq| > 0 && CutsWithin(beyond, |daq|)
    ensures tp == Timepoints(daq, beyond)
  {
    tp := [daq[0]];
    var i := 0;
    while i < |beyond|
      invariant 0 <= i <= |beyond| && CutsWithin(beyond[..i], |daq|)
      invariant tp == Timepoints(daq, beyond[..i])
    {
      TimepointsStep(daq, beyond, i);
      tp := tp + [daq[beyond[i]], daq[beyond[i] + 1]];
      i := i + 1;
    }
    assert beyond[..i] == beyond;
  }

  /** `convert_skips` on the frames' movie times and recording times. */
  method ConvertSkips(pts: seq<real>, daq: seq<real>) returns (r: Result<SkipSegments>)
    requires |pts| == |daq|
    ensures r == Skips(pts, daq)
  {
    if |pts| < 2 {
      return Err(EmptyReduction);
    }
    var maxJump := MaxOf(Jumps(pts));
    if maxJump < Threshold {
      return Ok(NoSkip(daq[0], daq[|daq| - 1], [0]));
    }
    var beyond := Skipped(pts);
    var tp := SkipTimepoints(daq, beyond);
    TimepointsStarts(daq, beyond);
    TimepointsStops(daq, beyond);
    var all := tp + [daq[|daq| - 1]];
    assert all[..|all| - 1] == tp;
    var starts := EveryOther(all[..|all| - 1]);
    var stops := EveryOther(all[1..]);
    r := Ok(SkipLists(starts, stops, Range(|starts|)));
  }
}
