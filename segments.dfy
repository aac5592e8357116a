/**
 * Conversion between label segments `(values, starts, stops)` and vectors
 * aligned to a time axis: nearest-entry search, the matching of a time point
 * to the segment it starts or stops in, and the dominant value of a time
 * frame that several segments share.
 */
module Segments {
  import opened Common
  import opened NdArray

  // ------------------------------------------------------- nearest entries

  /** The value the nearest-index search compares against: the Legacy and Pilot copies truncate it with `int()` first. */
  function Target(copy: Copy, t: real): real
  {
    if copy == Packaged then t else Trunc(t) as real
  }

  /** `get_index_nearest_timestamp_in_vector`: the first position of `v` nearest to the target of `t`. */
  function NearestIndex(copy: Copy, v: seq<real>, t: real): (k: nat)
    requires |v| > 0
    ensures k < |v|
  {
    Argmin(v, Target(copy, t))
  }

  /** `k` is the first position of `v` whose distance to `x` no other position undercuts. */
  predicate FirstNearest(v: seq<real>, x: real, k: nat)
  {
    k < |v|
    && (forall j :: 0 <= j < |v| ==> Abs(v[k] - x) <= Abs(v[j] - x))
    && (forall j :: 0 <= j < k ==> Abs(v[j] - x) > Abs(v[k] - x))
  }

  /** The search result is exactly the first minimiser of the distance to the target. */
  lemma {:induction false} NearestIndexIsFirstNearest(copy: Copy, v: seq<real>, t: real, k: nat)
    requires |v| > 0
    ensures NearestIndex(copy, v, t) == k <==> FirstNearest(v, Target(copy, t), k)
  {
    var x := Target(copy, t);
    ArgminNearest(v, x);
  }

  /** The example of the docstring: 3.0 is nearest to 2.5, at position 1. */
  lemma {:induction false} NearestIndexExample()
    ensures NearestIndex(Packaged, [1.0, 2.5, 3.8, 5.0], 3.0) == 1
  {
    NearestIndexIsFirstNearest(Packaged, [1.0, 2.5, 3.8, 5.0], 3.0, 1);
  }

  /** `get_nearest_value_from_vector`: the entry at the first nearest position; no copy truncates here. */
  function NearestValue(v: seq<real>, t: real): (r: real)
    requires |v| > 0
    ensures r in v
  {
    v[Argmin(v, t)]
  }

  /** The entry returned is at least as near to `t` as every entry of `v`. */
  lemma {:induction false} NearestValueIsNearest(v: seq<real>, t: real)
    requires |v| > 0
    ensures forall j :: 0 <= j < |v| ==> Abs(NearestValue(v, t) - t) <= Abs(v[j] - t)
  {
    ArgminNearest(v, t);
  }

  /** The example of the docstring: 4.0 is nearest to 3.8. */
  lemma {:induction false} NearestValueExample()
    ensures NearestValue([1.0, 2.5, 3.8, 5.0], 4.0) == 3.8
  {
    NearestIndexIsFirstNearest(Packaged, [1.0, 2.5, 3.8, 5.0], 4.0, 2);
  }

  /** On an increasing axis the nearest position is bracketed by the target: before it lies below, after it lies above. */
  lemma {:induction false} NearestBracket(v: seq<real>, x: real)
    requires |v| > 0 && StrictlyIncreasing(v)
    ensures Argmin(v, x) > 0 ==> v[Argmin(v, x) - 1] < x
    ensures Argmin(v, x) + 1 < |v| ==> x < v[Argmin(v, x) + 1]
  {
    ArgminNearest(v, x);
  }

  // ------------------------------------------------- matching a time point

  /** `get_index_matching_start_point`: the nearest start, stepped back when it lies after the time point. */
  function IndexMatchingStart(copy: Copy, starts: seq<real>, tp: real): (i: nat)
    requires |starts| > 0
    ensures i < |starts|
  {
    var k := NearestIndex(copy, starts, tp);
    if tp < starts[k] then (if tp < starts[0] then k else k - 1) else k
  }

  /** `get_index_matching_stop_point`: the nearest stop, stepped forward when it lies at or before the time point. */
  function IndexMatchingStop(copy: Copy, ends: seq<real>, tp: real): (i: nat)
    requires |ends| > 0
    ensures i < |ends|
  {
    var k := NearestIndex(copy, ends, tp);
    if tp >= ends[k] then (if tp >= ends[|ends| - 1] then k else k + 1) else k
  }

  /**
   * On increasing starts, and a time point the target conversion leaves
   * alone, the start index is the last start at or before the time point,
   * and 0 when every start lies after it.
   */
  lemma {:induction false} IndexMatchingStartIsFloor(copy: Copy, starts: seq<real>, tp: real)
    requires |starts| > 0 && StrictlyIncreasing(starts) && Target(copy, tp) == tp
    ensures tp < starts[0] ==> IndexMatchingStart(copy, starts, tp) == 0
    ensures tp >= starts[0] ==> starts[IndexMatchingStart(copy, starts, tp)] <= tp
    ensures tp >= starts[0] && IndexMatchingStart(copy, starts, tp) + 1 < |starts| ==>
              tp < starts[IndexMatchingStart(copy, starts, tp) + 1]
  {
    NearestBracket(starts, tp);
  }

  /**
   * On increasing stops, and a time point the target conversion leaves
   * alone, the stop index is the first stop after the time point, and the
   * last index when no stop lies after it.
   */
  lemma {:induction false} IndexMatchingStopIsCeiling(copy: Copy, ends: seq<real>, tp: real)
    requires |ends| > 0 && StrictlyIncreasing(ends) && Target(copy, tp) == tp
    ensures tp >= ends[|ends| - 1] ==> IndexMatchingStop(copy, ends, tp) == |ends| - 1
    ensures tp < ends[|ends| - 1] ==> tp < ends[IndexMatchingStop(copy, ends, tp)]
    ensures tp < ends[|ends| - 1] && IndexMatchingStop(copy, ends, tp) > 0 ==>
              ends[IndexMatchingStop(copy, ends, tp) - 1] <= tp
  {
    NearestBracket(ends, tp);
  }

  /**
   * In the truncating copies the search looks for `int(tp)` but the step
   * compares against `tp` itself: for 1.7 among starts 0.5 and 1.6 it
   * stays at the start 0.5, although 1.6 also lies before 1.7.
   */
  lemma {:induction false} IndexMatchingStartTruncated()
    ensures IndexMatchingStart(Legacy, [0.5, 1.6], 1.7) == 0
    ensures IndexMatchingStart(Packaged, [0.5, 1.6], 1.7) == 1
  {
    NearestIndexIsFirstNearest(Legacy, [0.5, 1.6], 1.7, 0);
    NearestIndexIsFirstNearest(Packaged, [0.5, 1.6], 1.7, 1);
  }

  /** What the value-matching functions return: a value, or at the outer boundary the bare index. */
  datatype Match = Value(value: real) | Index(index: nat)

  /** `get_value_matching_start_point`: the value of the matching start, or the index itself at or before the first start. */
  function ValueMatchingStart(copy: Copy, values: seq<real>, starts: seq<real>, tp: real): (r: Result<Match>)
    ensures |starts| == 0 ==> r == Err(EmptyReduction)
    ensures r.Err? && |starts| > 0 ==> r.error == IndexOutOfRange
    ensures |values| >= |starts| ==> (r.Ok? <==> |starts| > 0)
  {
    if |starts| == 0 then Err(EmptyReduction)
    else
      var k := NearestIndex(copy, starts, tp);
      if tp < starts[k] && tp <= starts[0] then Ok(Index(k))
      else
        var i := if tp < starts[k] then k - 1 else k;
        if i < |values| then Ok(Value(values[i])) else Err(IndexOutOfRange)
  }

  /** `get_value_matching_stop_point`: the value of the matching stop, or the index itself at or after the last stop. */
  function ValueMatchingStop(copy: Copy, values: seq<real>, ends: seq<real>, tp: real): (r: Result<Match>)
    ensures |ends| == 0 ==> r == Err(EmptyReduction)
    ensures r.Err? && |ends| > 0 ==> r.error == IndexOutOfRange
    ensures |values| >= |ends| ==> (r.Ok? <==> |ends| > 0)
  {
    if |ends| == 0 then Err(EmptyReduction)
    else
      var k := NearestIndex(copy, ends, tp);
      if tp >= ends[k] && tp >= ends[|ends| - 1] then Ok(Index(k))
      else
        var i := if tp >= ends[k] then k + 1 else k;
        if i < |values| then Ok(Value(values[i])) else Err(IndexOutOfRange)
  }

  /**
   * On increasing starts the value-matching function agrees with the index
   * matching, except that before the first start it returns the index 0
   * instead of a value.
   */
  lemma {:induction false} ValueMatchingStartAgrees(copy: Copy, values: seq<real>, starts: seq<real>, tp: real)
    requires |starts| > 0 && StrictlyIncreasing(starts) && Target(copy, tp) == tp && |values| == |starts|
    ensures tp < starts[0] ==> ValueMatchingStart(copy, values, starts, tp) == Ok(Index(0))
    ensures tp >= starts[0] ==> ValueMatchingStart(copy, values, starts, tp) == Ok(Value(values[IndexMatchingStart(copy, starts, tp)]))
  {
    NearestBracket(starts, tp);
    ArgminNearest(starts, tp);
  }

  /**
   * On increasing stops the value-matching function agrees with the index
   * matching, except that at or after the last stop it returns the last
   * index instead of a value.
   */
  lemma {:induction false} ValueMatchingStopAgrees(copy: Copy, values: seq<real>, ends: seq<real>, tp: real)
    requires |ends| > 0 && StrictlyIncreasing(ends) && Target(copy, tp) == tp && |values| == |ends|
    ensures tp >= ends[|ends| - 1] ==> ValueMatchingStop(copy, values, ends, tp) == Ok(Index(|ends| - 1))
    ensures tp < ends[|ends| - 1] ==> ValueMatchingStop(copy, values, ends, tp) == Ok(Value(values[IndexMatchingStop(copy, ends, tp)]))
  {
    NearestBracket(ends, tp);
  }

  /**
   * `get_value_matching_timepoint` (Pilot copy): the nearest start, stepped
   * back when the time point lies at or before it; the step from position 0
   * gives Python's index -1, the last value.
   */
  function ValueMatchingTimepoint(values: seq<real>, starts: seq<real>, tp: real): (r: Result<real>)
    ensures |starts| == 0 ==> r == Err(EmptyReduction)
    ensures r.Err? && |starts| > 0 ==> r.error == IndexOutOfRange
    ensures |values| >= |starts| ==> (r.Ok? <==> |starts| > 0)
  {
    if |starts| == 0 then Err(EmptyReduction)
    else
      var k := NearestIndex(Pilot, starts, tp);
      var i := if tp <= starts[k] then k - 1 else k;
      if InRange(i, |values|) then Ok(values[Normalize(i, |values|)]) else Err(IndexOutOfRange)
  }

  /** At or before the first (non-negative) start the Pilot lookup wraps round to the last value. */
  lemma {:induction false} ValueMatchingTimepointWraps(values: seq<real>, starts: seq<real>, tp: real)
    requires |starts| > 0 && StrictlyIncreasing(starts) && |values| == |starts|
    requires 0.0 <= tp <= starts[0]
    ensures ValueMatchingTimepoint(values, starts, tp) == Ok(values[|values| - 1])
  {
    NearestBracket(starts, Trunc(tp) as real);
  }

  /** After the first start, on an integral time point, the Pilot lookup gives the value of the last start strictly before it. */
  lemma {:induction false} ValueMatchingTimepointIsStrictFloor(values: seq<real>, starts: seq<real>, tp: real) returns (i: nat)
    requires |starts| > 0 && StrictlyIncreasing(starts) && |values| == |starts|
    requires Trunc(tp) as real == tp && starts[0] < tp
    ensures i < |starts| && starts[i] < tp && (i + 1 < |starts| ==> tp <= starts[i + 1])
    ensures ValueMatchingTimepoint(values, starts, tp) == Ok(values[i])
  {
    NearestBracket(starts, tp);
    var k := NearestIndex(Pilot, starts, tp);
    i := if tp <= starts[k] then k - 1 else k;
  }

  // --------------------------------------------- dominant value of a frame

  /** One row of the weight table: a segment value and the time credited to it. */
  datatype Row = Row(value: real, weight: real)

  /**
   * `df.loc[df["value"] == v, "weighing"] += w`: every row holding `v` gains
   * `w`. The guard `v in df.values` also looks at the weight column, but when
   * `v` is only found there the mask selects no row, so the update is the
   * same as an unguarded one.
   */
  function AddWeight(rows: seq<Row>, v: real, w: real): (r: seq<Row>)
    ensures |r| == |rows|
  {
    seq(|rows|, p requires 0 <= p < |rows| => Row(rows[p].value, rows[p].weight + (if rows[p].value == v then w else 0.0)))
  }

  /** The update keeps every value and adds `w` exactly to the rows holding `v`. */
  lemma {:induction false} AddWeightAt(rows: seq<Row>, v: real, w: real, p: nat)
    requires p < |rows|
    ensures AddWeight(rows, v, w)[p] == Row(rows[p].value, rows[p].weight + (if rows[p].value == v then w else 0.0))
  {
  }

  /** The length of segment `j`. */
  function Span(starts: seq<real>, ends: seq<real>, j: nat): real
    requires j < |starts| && j < |ends|
  {
    ends[j] - starts[j]
  }

  /** The rows after the first frame row and `d` middle segments, segment `i1 + d` the last of them. */
  function TableUpTo(values: seq<real>, starts: seq<real>, ends: seq<real>, tp1: real, i1: nat, d: nat): (r: seq<Row>)
    requires i1 + d < |values| && i1 + d < |starts| && i1 + d < |ends|
    ensures |r| == d + 1
    decreases d
  {
    if d == 0 then [Row(values[i1], ends[i1] - tp1)]
    else
      var j := i1 + d;
      AddWeight(TableUpTo(values, starts, ends, tp1, i1, d - 1), values[j], Span(starts, ends, j))
        + [Row(values[j], Span(starts, ends, j))]
  }

  /** The time a row is first entered with: the part of the first segment after `tp1`, or a whole middle segment. */
  function OwnWeight(values: seq<real>, starts: seq<real>, ends: seq<real>, tp1: real, i1: nat, p: nat): real
    requires i1 + p < |values| && i1 + p < |starts| && i1 + p < |ends|
  {
    if p == 0 then ends[i1] - tp1 else Span(starts, ends, i1 + p)
  }

  /** The lengths of the middle segments after row `p`, up to segment `i1 + d`, that carry the value of row `p`. */
  function LaterSame(values: seq<real>, starts: seq<real>, ends: seq<real>, i1: nat, p: nat, d: nat): real
    requires i1 + d < |values| && i1 + d < |starts| && i1 + d < |ends| && p <= d
    decreases d
  {
    if d == p then 0.0
    else
      LaterSame(values, starts, ends, i1, p, d - 1)
        + (if values[i1 + d] == values[i1 + p] then Span(starts, ends, i1 + d) else 0.0)
  }

  /**
   * Row `p` of the table holds the value of segment `i1 + p` and its own
   * time plus that of every later middle segment with the same value: a
   * repeated value is credited to the earlier rows and also gets a row of
   * its own.
   */
  lemma {:induction false} TableRow(values: seq<real>, starts: seq<real>, ends: seq<real>, tp1: real, i1: nat, d: nat, p: nat)
    requires i1 + d < |values| && i1 + d < |starts| && i1 + d < |ends| && p <= d
    ensures TableUpTo(values, starts, ends, tp1, i1, d)[p]
            == Row(values[i1 + p], OwnWeight(values, starts, ends, tp1, i1, p) + LaterSame(values, starts, ends, i1, p, d))
    decreases d
  {
    if d > p {
      TableRow(values, starts, ends, tp1, i1, d - 1, p);
      AddWeightAt(TableUpTo(values, starts, ends, tp1, i1, d - 1), values[i1 + d], Span(starts, ends, i1 + d), p);
    }
  }

  /** The first position of greatest weight among the first `n` rows. */
  function FirstHeaviestUpTo(rows: seq<Row>, n: nat): (k: nat)
    requires 0 < n <= |rows|
    ensures k < n
    decreases n
  {
    if n == 1 then 0
    else
      var k := FirstHeaviestUpTo(rows, n - 1);
      if rows[n - 1].weight > rows[k].weight then n - 1 else k
  }

  /** `df[df['weighing'] == df['weighing'].max()]`, first row: the first position of greatest weight. */
  function FirstHeaviest(rows: seq<Row>): (k: nat)
    requires |rows| > 0
    ensures k < |rows|
  {
    FirstHeaviestUpTo(rows, |rows|)
  }

  /** Among the first `n` rows none outweighs the chosen one, and every earlier row weighs less. */
  lemma {:induction false} FirstHeaviestUpToIsFirstMaximum(rows: seq<Row>, n: nat)
    requires 0 < n <= |rows|
    ensures forall j :: 0 <= j < n ==> rows[j].weight <= rows[FirstHeaviestUpTo(rows, n)].weight
    ensures forall j :: 0 <= j < FirstHeaviestUpTo(rows, n) ==> rows[j].weight < rows[FirstHeaviestUpTo(rows, n)].weight
    decreases n
  {
    if n > 1 {
      FirstHeaviestUpToIsFirstMaximum(rows, n - 1);
    }
  }

  /** No row outweighs the chosen one, and every earlier row weighs less. */
  lemma {:induction false} FirstHeaviestIsFirstMaximum(rows: seq<Row>)
    requires |rows| > 0
    ensures forall j :: 0 <= j < |rows| ==> rows[j].weight <= rows[FirstHeaviest(rows)].weight
    ensures forall j :: 0 <= j < FirstHeaviest(rows) ==> rows[j].weight < rows[FirstHeaviest(rows)].weight
  {
    FirstHeaviestUpToIsFirstMaximum(rows, |rows|);
  }

  /** The number of middle segments strictly between the two matched ones. */
  function Middle(i1: nat, i2: nat): nat
  {
    if i2 > i1 + 1 then i2 - i1 - 1 else 0
  }

  /** The whole table: first row, middle rows, and the part of the last segment before `tp2`. */
  function WeightTable(values: seq<real>, starts: seq<real>, ends: seq<real>, tp1: real, tp2: real, i1: nat, i2: nat): (r: seq<Row>)
    requires i1 != i2 && i1 < |values| && i2 < |values| && i1 < |ends| && i2 < |ends| && i1 < |starts| && i2 < |starts|
    ensures |r| == Middle(i1, i2) + 2
    ensures r[|r| - 1] == Row(values[i2], tp2 - starts[i2])
  {
    TableUpTo(values, starts, ends, tp1, i1, Middle(i1, i2)) + [Row(values[i2], tp2 - starts[i2])]
  }

  /**
   * `get_value_in_time_frame`: the value of the frame `[tp1, tp2]`. When the
   * matched start and stop segments coincide it is that segment's value;
   * otherwise it is the value of the first heaviest row of the weight table.
   */
  function ValueInTimeFrame(copy: Copy, tp1: real, tp2: real, values: seq<real>, starts: seq<real>, ends: seq<real>): (r: Result<real>)
    ensures r.Err? <==> |starts| == 0 || |ends| == 0 || !FrameInRange(copy, tp1, tp2, values, starts, ends)
    ensures |starts| == 0 || |ends| == 0 ==> r == Err(EmptyReduction)
    ensures r.Err? && |starts| > 0 && |ends| > 0 ==> r.error == IndexOutOfRange
  {
    if |starts| == 0 || |ends| == 0 then Err(EmptyReduction)
    else
      var i1 := IndexMatchingStart(copy, starts, tp1);
      var i2 := IndexMatchingStop(copy, ends, tp2);
      if !FrameInRange(copy, tp1, tp2, values, starts, ends) then Err(IndexOutOfRange)
      else if i1 == i2 then Ok(values[i1])
      else
        var rows := WeightTable(values, starts, ends, tp1, tp2, i1, i2);
        Ok(rows[FirstHeaviest(rows)].value)
  }

  /** Every position the frame computation reads exists: Python raises an IndexError otherwise. */
  predicate FrameInRange(copy: Copy, tp1: real, tp2: real, values: seq<real>, starts: seq<real>, ends: seq<real>)
    requires |starts| > 0 && |ends| > 0
  {
    var i1 := IndexMatchingStart(copy, starts, tp1);
    var i2 := IndexMatchingStop(copy, ends, tp2);
    if i1 == i2 then i1 < |values|
    else i1 < |values| && i2 < |values| && i1 < |ends| && i2 < |starts|
  }

  /** Segments of one length never make the frame computation read past their end. */
  lemma {:induction false} FrameInRangeOfSegments(copy: Copy, tp1: real, tp2: real, values: seq<real>, starts: seq<real>, ends: seq<real>)
    requires |values| == |starts| == |ends| > 0
    ensures ValueInTimeFrame(copy, tp1, tp2, values, starts, ends).Ok?
  {
  }

  /**
   * A frame lying within segment `k` (it starts at or after `starts[k]`,
   * before the next start, and ends before `ends[k]`, at or after the
   * previous stop) takes the value of segment `k`.
   */
  lemma {:induction false} FrameWithinSegment(copy: Copy, tp1: real, tp2: real, values: seq<real>, starts: seq<real>, ends: seq<real>, k: nat)
    requires |values| == |starts| == |ends| && k < |values|
    requires StrictlyIncreasing(starts) && StrictlyIncreasing(ends)
    requires Target(copy, tp1) == tp1 && Target(copy, tp2) == tp2
    requires starts[k] <= tp1 && (k + 1 < |starts| ==> tp1 < starts[k + 1])
    requires tp2 < ends[k] && (k > 0 ==> ends[k - 1] <= tp2)
    ensures ValueInTimeFrame(copy, tp1, tp2, values, starts, ends) == Ok(values[k])
  {
    IndexMatchingStartIsFloor(copy, starts, tp1);
    IndexMatchingStopIsCeiling(copy, ends, tp2);
    var i1 := IndexMatchingStart(copy, starts, tp1);
    var i2 := IndexMatchingStop(copy, ends, tp2);
    assert starts[0] <= starts[k] && ends[k] <= ends[|ends| - 1];
    assert i1 == k && i2 == k;
  }

  /** The value of a frame is the value of a row of greatest weight, ahead of every row of equal weight. */
  lemma {:induction false} ValueInTimeFrameIsHeaviest(copy: Copy, tp1: real, tp2: real, values: seq<real>, starts: seq<real>, ends: seq<real>)
    requires |starts| > 0 && |ends| > 0 && FrameInRange(copy, tp1, tp2, values, starts, ends)
    requires IndexMatchingStart(copy, starts, tp1) != IndexMatchingStop(copy, ends, tp2)
    ensures var rows := WeightTable(values, starts, ends, tp1, tp2, IndexMatchingStart(copy, starts, tp1), IndexMatchingStop(copy, ends, tp2));
            exists k :: 0 <= k < |rows| && ValueInTimeFrame(copy, tp1, tp2, values, starts, ends) == Ok(rows[k].value)
              && (forall j :: 0 <= j < |rows| ==> rows[j].weight <= rows[k].weight)
              && (forall j :: 0 <= j < k ==> rows[j].weight < rows[k].weight)
  {
    var rows := WeightTable(values, starts, ends, tp1, tp2, IndexMatchingStart(copy, starts, tp1), IndexMatchingStop(copy, ends, tp2));
    FirstHeaviestIsFirstMaximum(rows);
    var k := FirstHeaviest(rows);
    assert ValueInTimeFrame(copy, tp1, tp2, values, starts, ends) == Ok(rows[k].value);
  }

  /** The frame computation as the loop over the table that the source runs. */
  method GetValueInTimeFrame(copy: Copy, tp1: real, tp2: real, values: seq<real>, starts: seq<real>, ends: seq<real>)
    returns (r: Result<real>)
    ensures r == ValueInTimeFrame(copy, tp1, tp2, values, starts, ends)
  {
    if |starts| == 0 || |ends| == 0 {
      return Err(EmptyReduction);
    }
    var i1 := IndexMatchingStart(copy, starts, tp1);
    var i2 := IndexMatchingStop(copy, ends, tp2);
    if i1 == i2 {
      if i1 < |values| {
        return Ok(values[i1]);
      }
      return Err(IndexOutOfRange);
    }
    if !(i1 < |values| && i2 < |values| && i1 < |ends| && i2 < |starts|) {
      return Err(IndexOutOfRange);
    }
    var df := MiddleRows(values, starts, ends, tp1, i1, i2);
    df := df + [Row(values[i2], tp2 - starts[i2])];
    return Ok(df[FirstHeaviest(df)].value);
  }

  /** The rows of the first segment and of the middle segments, as the loop of the source builds them. */
  method MiddleRows(values: seq<real>, starts: seq<real>, ends: seq<real>, tp1: real, i1: nat, i2: nat)
    returns (df: seq<Row>)
    requires i1 != i2 && i1 < |values| && i2 < |values| && i1 < |ends| && i2 < |ends| && i1 < |starts| && i2 < |starts|
    ensures df == TableUpTo(values, starts, ends, tp1, i1, Middle(i1, i2))
  {
    df := [Row(values[i1], ends[i1] - tp1)];
    var i := 1;
    while i < i2 - i1
      invariant 1 <= i <= Middle(i1, i2) + 1
      invariant df == TableUpTo(values, starts, ends, tp1, i1, i - 1)
    {
      var j := i1 + i;
      df := AddWeight(df, values[j], ends[j] - starts[j]) + [Row(values[j], ends[j] - starts[j])];
      i := i + 1;
    }
  }

  // ------------------------------------------- indicator on a reference axis

  /** The outcome of frame `i` of a reference axis, from `ref[i]` to `ref[i+1]`. */
  function Frame(copy: Copy, ref: seq<real>, values: seq<real>, starts: seq<real>, stops: seq<real>, i: nat): Result<real>
    requires i + 1 < |ref|
  {
    ValueInTimeFrame(copy, ref[i], ref[i + 1], values, starts, stops)
  }

  /** The outcomes of the first `n` frames, in order. */
  function FrameResults(copy: Copy, ref: seq<real>, values: seq<real>, starts: seq<real>, stops: seq<real>, n: nat): (rs: seq<Result<real>>)
    requires n < |ref| || n == 0
    ensures |rs| == n
    decreases n
  {
    if n == 0 then [] else FrameResults(copy, ref, values, starts, stops, n - 1) + [Frame(copy, ref, values, starts, stops, n - 1)]
  }

  /** Entry `i` of the outcomes is the outcome of frame `i`. */
  lemma {:induction false} FrameResultsAt(copy: Copy, ref: seq<real>, values: seq<real>, starts: seq<real>, stops: seq<real>, n: nat, i: nat)
    requires n < |ref| || n == 0
    requires i < n
    ensures FrameResults(copy, ref, values, starts, stops, n)[i] == Frame(copy, ref, values, starts, stops, i)
    decreases n
  {
    var prev := FrameResults(copy, ref, values, starts, stops, n - 1);
    assert FrameResults(copy, ref, values, starts, stops, n) == prev + [Frame(copy, ref, values, starts, stops, n - 1)];
    if i < n - 1 {
      FrameResultsAt(copy, ref, values, starts, stops, n - 1, i);
    }
  }

  /** The values of the first `n` outcomes, or the error of the first that fails. */
  function Collect<T>(rs: seq<Result<T>>, n: nat): Result<seq<T>>
    requires n <= |rs|
    decreases n
  {
    if n == 0 then Ok([])
    else
      var prev :- Collect(rs, n - 1);
      var v :- rs[n - 1];
      Ok(prev + [v])
  }

  /** The outcomes succeed together exactly when each one does, and then give their values in order. */
  lemma {:induction false} CollectOk<T>(rs: seq<Result<T>>, n: nat)
    requires n <= |rs|
    ensures Collect(rs, n).Ok? <==> forall i :: 0 <= i < n ==> rs[i].Ok?
    ensures Collect(rs, n).Ok? ==> |Collect(rs, n).value| == n && forall i :: 0 <= i < n ==> rs[i] == Ok(Collect(rs, n).value[i])
    decreases n
  {
    if n > 0 {
      CollectOk(rs, n - 1);
    }
  }

  /** A successful outcome extends the collected values by its own. */
  lemma {:induction false} CollectStep<T>(rs: seq<Result<T>>, n: nat)
    requires n < |rs| && Collect(rs, n).Ok? && rs[n].Ok?
    ensures Collect(rs, n + 1) == Ok(Collect(rs, n).value + [rs[n].value])
  {
  }

  /** The error of the first failing outcome is the error of every longer prefix. */
  lemma {:induction false} CollectFirstError<T>(rs: seq<Result<T>>, i: nat, n: nat)
    requires i < n <= |rs|
    requires Collect(rs, i).Ok? && rs[i].Err?
    ensures Collect(rs, n) == Err(rs[i].error)
    decreases n
  {
    if n > i + 1 {
      CollectFirstError(rs, i, n - 1);
    }
  }

  /** The number of frames of a reference axis. */
  function FrameCount(ref: seq<real>): nat
  {
    if |ref| == 0 then 0 else |ref| - 1
  }

  /**
   * `create_vector_from_start_stop_times_reference`: one value per frame of
   * the reference axis, `ValueInTimeFrame` of `ref[i]` and `ref[i+1]`;
   * segments of different lengths give the `-1` error, and a failing frame
   * its own error.
   */
  function ReferenceVector(copy: Copy, ref: seq<real>, values: seq<real>, starts: seq<real>, stops: seq<real>): (r: Result<seq<real>>)
    ensures !(|values| == |starts| == |stops|) ==> r == Err(LengthMismatch)
  {
    if !(|values| == |starts| == |stops|) then Err(LengthMismatch)
    else
      var rs := FrameResults(copy, ref, values, starts, stops, FrameCount(ref));
      Collect(rs, |rs|)
  }

  /**
   * On segments of one length the indicator exists exactly when every frame
   * has a value, and then holds one value per frame, in order.
   */
  lemma {:induction false} ReferenceVectorFrames(copy: Copy, ref: seq<real>, values: seq<real>, starts: seq<real>, stops: seq<real>)
    requires |values| == |starts| == |stops|
    ensures ReferenceVector(copy, ref, values, starts, stops).Ok? <==>
              forall i :: 0 <= i < FrameCount(ref) ==> Frame(copy, ref, values, starts, stops, i).Ok?
    ensures ReferenceVector(copy, ref, values, starts, stops).Ok? ==>
              var v := ReferenceVector(copy, ref, values, starts, stops).value;
              |v| == FrameCount(ref) && forall i :: 0 <= i < |v| ==> Frame(copy, ref, values, starts, stops, i) == Ok(v[i])
  {
    var rs := FrameResults(copy, ref, values, starts, stops, FrameCount(ref));
    CollectOk(rs, |rs|);
    forall i | 0 <= i < |rs| ensures rs[i] == Frame(copy, ref, values, starts, stops, i) {
      FrameResultsAt(copy, ref, values, starts, stops, FrameCount(ref), i);
    }
  }

  /** Equal-length, non-empty segments always give an indicator of one value per frame. */
  lemma {:induction false} ReferenceVectorTotal(copy: Copy, ref: seq<real>, values: seq<real>, starts: seq<real>, stops: seq<real>)
    requires |values| == |starts| == |stops| > 0
    ensures ReferenceVector(copy, ref, values, starts, stops).Ok?
  {
    forall i | 0 <= i < FrameCount(ref) ensures Frame(copy, ref, values, starts, stops, i).Ok? {
      FrameInRangeOfSegments(copy, ref[i], ref[i + 1], values, starts, stops);
    }
    ReferenceVectorFrames(copy, ref, values, starts, stops);
  }

  /** The indicator as the appending loop of the source. */
  method CreateVectorReference(copy: Copy, ref: seq<real>, values: seq<real>, starts: seq<real>, stops: seq<real>)
    returns (r: Result<seq<real>>)
    ensures r == ReferenceVector(copy, ref, values, starts, stops)
  {
    if !(|values| == |starts| == |stops|) {
      return Err(LengthMismatch);
    }
    ghost var rs := FrameResults(copy, ref, values, starts, stops, FrameCount(ref));
    var ret := [];
    var i := 0;
    while i < |ref| - 1
      invariant 0 <= i <= FrameCount(ref)
      invariant Collect(rs, i) == Ok(ret)
    {
      var value := FrameValue(copy, ref, values, starts, stops, i);
      if value.Err? {
        CollectFirstError(rs, i, |rs|);
        return Err(value.error);
      }
      CollectStep(rs, i);
      ret := ret + [value.value];
      i := i + 1;
    }
    assert i == |rs|;
    return Ok(ret);
  }

  /** The outcome of frame `i`, computed by the loop of the frame computation. */
  method FrameValue(copy: Copy, ref: seq<real>, values: seq<real>, starts: seq<real>, stops: seq<real>, i: nat)
    returns (r: Result<real>)
    requires i + 1 < |ref|
    ensures r == FrameResults(copy, ref, values, starts, stops, FrameCount(ref))[i]
  {
    r := GetValueInTimeFrame(copy, ref[i], ref[i + 1], values, starts, stops);
    FrameResultsAt(copy, ref, values, starts, stops, FrameCount(ref), i);
  }
}
