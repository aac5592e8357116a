/**
 * Indicator vectors built from label segments, the run-length encoding that
 * turns a label back into segments, and the bin edges of a recording with
 * its pauses removed.
 */
module Indicators {
  import opened Common
  import opened NdArray
  import opened Text
  import opened Segments
  import opened PauseHandling

  // ------------------------------------------------------------ expansion

  /** Python's `[v] * n`: `n` copies, none for `n <= 0`. */
  function Times<T>(v: T, n: int): (r: seq<T>)
    ensures |r| == (if n <= 0 then 0 else n)
    ensures forall i :: 0 <= i < |r| ==> r[i] == v
  {
    if n <= 0 then [] else [v] + Times(v, n - 1)
  }

  /** Where block `k` of an expansion begins: the sum of the first `k` counts. */
  function Offset(counts: seq<nat>, k: nat): nat
    requires k <= |counts|
  {
    if k == 0 then 0 else Offset(counts, k - 1) + counts[k - 1]
  }

  lemma {:induction false} OffsetMonotone(counts: seq<nat>, a: nat, b: nat)
    requires a <= b <= |counts|
    ensures Offset(counts, a) <= Offset(counts, b)
    decreases b
  {
    if a < b {
      OffsetMonotone(counts, a, b - 1);
    }
  }

  /** `values[k]` repeated `counts[k]` times for the first `n` segments, one block after the other. */
  function Expand<T>(values: seq<T>, counts: seq<nat>, n: nat): (r: seq<T>)
    requires n <= |values| && n <= |counts|
  {
    if n == 0 then [] else Expand(values, counts, n - 1) + Times(values[n - 1], counts[n - 1])
  }

  /** An expansion is as long as its counts add up to. */
  lemma {:induction false} ExpandLength<T>(values: seq<T>, counts: seq<nat>, n: nat)
    requires n <= |values| && n <= |counts|
    ensures |Expand(values, counts, n)| == Offset(counts, n)
    decreases n
  {
    if n > 0 {
      ExpandLength(values, counts, n - 1);
    }
  }

  /** Block `k` of an expansion occupies `counts[k]` positions from `Offset(counts, k)` on, all holding `values[k]`. */
  lemma {:induction false} ExpandBlock<T>(values: seq<T>, counts: seq<nat>, n: nat, k: nat, j: nat)
    requires n <= |values| && n <= |counts| && k < n && j < counts[k]
    ensures Offset(counts, k) + j < |Expand(values, counts, n)|
    ensures Expand(values, counts, n)[Offset(counts, k) + j] == values[k]
    decreases n
  {
    ExpandLength(values, counts, n);
    ExpandLength(values, counts, n - 1);
    if k < n - 1 {
      ExpandBlock(values, counts, n - 1, k, j);
    }
  }

  // ------------------------------------------------ indicators of segments

  /** Copies a segment gets in the continuous-watch indicator: the index distance, one when it is zero, none when negative. */
  function ContWatchCount(d: int): (c: nat)
  {
    if d == 0 then 1 else if d < 0 then 0 else d
  }


  /** Copies a segment gets in the start/stop indicator: `len(t[s:e+1])`. */
  function StartStopCount(t: seq<real>, s: int, e: int): nat
  {
    |Slice(t, s, e + 1)|
  }

  /**
   * For positions of the axis, the start/stop indicator counts both ends,
   * nothing when the stop lies before the start; the continuous-watch
   * indicator gives one copy fewer whenever the stop lies after the start.
   */
  lemma {:induction false} CountsCompared(t: seq<real>, s: nat, e: nat)
    requires s < |t| && e < |t|
    ensures StartStopCount(t, s, e) == (if e < s then 0 else e - s + 1)
    ensures ContWatchCount(e - s) == StartStopCount(t, s, e) - (if e > s then 1 else 0)
  {
  }

  function ContWatchCounts(copy: Copy, ref: seq<real>, starts: seq<real>, stops: seq<real>): (r: seq<nat>)
    requires |ref| > 0 && |starts| == |stops|
    ensures |r| == |starts|
  {
    seq(|starts|, i requires 0 <= i < |starts| => ContWatchCountAt(copy, ref, starts, stops, i))
  }

  /** The continuous-watch count of segment `i`. */
  function ContWatchCountAt(copy: Copy, ref: seq<real>, starts: seq<real>, stops: seq<real>, i: nat): nat
    requires |ref| > 0 && |starts| == |stops| && i < |starts|
  {
    ContWatchCount(NearestIndex(copy, ref, stops[i]) - NearestIndex(copy, ref, starts[i]))
  }

  function StartStopCounts(copy: Copy, t: seq<real>, starts: seq<real>, stops: seq<real>): (r: seq<nat>)
    requires |t| > 0 && |starts| == |stops|
    ensures |r| == |starts|
  {
    seq(|starts|, i requires 0 <= i < |starts| => StartStopCountAt(copy, t, starts, stops, i))
  }

  /** The start/stop count of segment `i`. */
  function StartStopCountAt(copy: Copy, t: seq<real>, starts: seq<real>, stops: seq<real>, i: nat): nat
    requires |t| > 0 && |starts| == |stops| && i < |starts|
  {
    StartStopCount(t, NearestIndex(copy, t, starts[i]), NearestIndex(copy, t, stops[i]))
  }

  /** Appending the block of segment `i` as the continuous-watch loop does extends the expansion by that segment. */
  lemma {:induction false} ContWatchStep(copy: Copy, ref: seq<real>, values: seq<real>, starts: seq<real>, stops: seq<real>, i: nat)
    requires |ref| > 0 && |values| == |starts| == |stops| && i < |values|
    ensures var d := NearestIndex(copy, ref, stops[i]) as int - NearestIndex(copy, ref, starts[i]) as int;
            Expand(values, ContWatchCounts(copy, ref, starts, stops), i + 1)
            == Expand(values, ContWatchCounts(copy, ref, starts, stops), i) + (if d == 0 then [values[i]] else Times(values[i], d))
  {
    var d := NearestIndex(copy, ref, stops[i]) as int - NearestIndex(copy, ref, starts[i]) as int;
    assert ContWatchCounts(copy, ref, starts, stops)[i] == ContWatchCount(d);
    if d == 0 {
      assert Times(values[i], 1) == [values[i]] + Times(values[i], 0);
    }
  }

  /** Appending the block of segment `i` as the start/stop loop does extends the expansion by that segment. */
  lemma {:induction false} StartStopStep(copy: Copy, t: seq<real>, values: seq<real>, starts: seq<real>, stops: seq<real>, i: nat)
    requires |t| > 0 && |values| == |starts| == |stops| && i < |values|
    ensures Expand(values, StartStopCounts(copy, t, starts, stops), i + 1)
            == Expand(values, StartStopCounts(copy, t, starts, stops), i)
               + Times(values[i], StartStopCount(t, NearestIndex(copy, t, starts[i]), NearestIndex(copy, t, stops[i])))
  {
  }

  /**
   * `create_vector_from_start_stop_times_reference_cont_watch`: segment `i`
   * repeated by the distance of its nearest start and stop positions on the
   * reference axis; segments of different lengths give the `-1` error.
   */
  function ContWatchVector(copy: Copy, ref: seq<real>, values: seq<real>, starts: seq<real>, stops: seq<real>): (r: Result<seq<real>>)
    ensures r.Err? <==> !(|values| == |starts| == |stops|) || (|values| > 0 && |ref| == 0)
    ensures !(|values| == |starts| == |stops|) ==> r == Err(LengthMismatch)
    ensures r.Err? && |values| == |starts| == |stops| ==> r.error == EmptyReduction
  {
    if !(|values| == |starts| == |stops|) then Err(LengthMismatch)
    else if |values| == 0 then Ok([])
    else if |ref| == 0 then Err(EmptyReduction)
    else Ok(Expand(values, ContWatchCounts(copy, ref, starts, stops), |values|))
  }

  /** The continuous-watch indicator as the appending loop of the source. */
  method CreateVectorContWatch(copy: Copy, ref: seq<real>, values: seq<real>, starts: seq<real>, stops: seq<real>)
    returns (r: Result<seq<real>>)
    ensures r == ContWatchVector(copy, ref, values, starts, stops)
  {
    if !(|values| == |starts| == |stops|) {
      return Err(LengthMismatch);
    }
    if |values| == 0 {
      return Ok([]);
    }
    if |ref| == 0 {
      return Err(EmptyReduction);
    }
    var ret := [];
    for i := 0 to |values|
      invariant ret == Expand(values, ContWatchCounts(copy, ref, starts, stops), i)
    {
      var block := ContWatchBlock(copy, ref, values, starts, stops, i);
      ret := ret + block;
    }
    return Ok(ret);
  }

  /** The body of the continuous-watch loop: the copies of segment `i`, one when its nearest start and stop coincide. */
  method ContWatchBlock(copy: Copy, ref: seq<real>, values: seq<real>, starts: seq<real>, stops: seq<real>, i: nat)
    returns (block: seq<real>)
    requires |ref| > 0 && |values| == |starts| == |stops| && i < |values|
    ensures Expand(values, ContWatchCounts(copy, ref, starts, stops), i + 1)
            == Expand(values, ContWatchCounts(copy, ref, starts, stops), i) + block
  {
    var indexStart := NearestIndex(copy, ref, starts[i]);
    var indexStop := NearestIndex(copy, ref, stops[i]);
    var lengthInterval := indexStop as int - indexStart as int;
    block := if lengthInterval == 0 then [values[i]] else Times(values[i], lengthInterval);
    ContWatchStep(copy, ref, values, starts, stops, i);
  }

  /**
   * `create_vector_from_start_stop_times`: segment `i` repeated once per
   * recording time stamp from its nearest start to its nearest stop; the
   * recording times `t` are what the source fetches from the database.
   */
  function StartStopVector(copy: Copy, t: seq<real>, values: seq<real>, starts: seq<real>, stops: seq<real>): (r: Result<seq<real>>)
    ensures r.Err? <==> !(|values| == |starts| == |stops|) || (|values| > 0 && |t| == 0)
    ensures !(|values| == |starts| == |stops|) ==> r == Err(LengthMismatch)
    ensures r.Err? && |values| == |starts| == |stops| ==> r.error == EmptyReduction
  {
    if !(|values| == |starts| == |stops|) then Err(LengthMismatch)
    else if |values| == 0 then Ok([])
    else if |t| == 0 then Err(EmptyReduction)
    else Ok(Expand(values, StartStopCounts(copy, t, starts, stops), |values|))
  }

  /** The start/stop indicator as the appending loop of the source. */
  method CreateVectorStartStop(copy: Copy, t: seq<real>, values: seq<real>, starts: seq<real>, stops: seq<real>)
    returns (r: Result<seq<real>>)
    ensures r == StartStopVector(copy, t, values, starts, stops)
  {
    if !(|values| == |starts| == |stops|) {
      return Err(LengthMismatch);
    }
    if |values| == 0 {
      return Ok([]);
    }
    if |t| == 0 {
      return Err(EmptyReduction);
    }
    var ret := [];
    for i := 0 to |values|
      invariant ret == Expand(values, StartStopCounts(copy, t, starts, stops), i)
    {
      var block := StartStopBlock(copy, t, values, starts, stops, i);
      ret := ret + block;
    }
    return Ok(ret);
  }

  /** The body of the start/stop loop: one copy of segment `i` per time stamp from its nearest start to its nearest stop. */
  method StartStopBlock(copy: Copy, t: seq<real>, values: seq<real>, starts: seq<real>, stops: seq<real>, i: nat)
    returns (block: seq<real>)
    requires |t| > 0 && |values| == |starts| == |stops| && i < |values|
    ensures Expand(values, StartStopCounts(copy, t, starts, stops), i + 1)
            == Expand(values, StartStopCounts(copy, t, starts, stops), i) + block
  {
    var indexStart := NearestIndex(copy, t, starts[i]);
    var indexStop := NearestIndex(copy, t, stops[i]);
    var lengthInterval := StartStopCount(t, indexStart, indexStop);
    block := Times(values[i], lengthInterval);
    StartStopStep(copy, t, values, starts, stops, i);
  }

  // -------------------------------------------------- run-length encoding

  /** The label changes at position `i`. */
  predicate Changed<T(==)>(L: seq<T>, i: nat)
  {
    0 < i < |L| && L[i] != L[i - 1]
  }

  /** The positions `i` in `1..n-1` where the label changes, in ascending order (see `ChangesAscending`). */
  function Changes<T(==)>(L: seq<T>, n: nat): (c: seq<nat>)
    requires n <= |L|
    ensures forall k :: 0 <= k < |c| ==> c[k] < n && Changed(L, c[k])
  {
    if n <= 1 then []
    else Changes(L, n - 1) + (if Changed(L, n - 1) then [n - 1] else [])
  }

  lemma {:induction false} ChangesAscending<T>(L: seq<T>, n: nat)
    requires n <= |L|
    ensures Ascending(Changes(L, n))
    decreases n
  {
    if n > 1 {
      ChangesAscending(L, n - 1);
    }
  }

  /** Every change position below `n` is listed. */
  lemma {:induction false} ChangesComplete<T>(L: seq<T>, n: nat, i: nat)
    requires n <= |L| && i < n && Changed(L, i)
    ensures i in Changes(L, n)
    decreases n
  {
    if i < n - 1 {
      ChangesComplete(L, n - 1, i);
    }
  }

  /** Where run `k` of the label begins; past the last run, the label length. */
  function RunStart(c: seq<nat>, k: nat, n: nat): nat
    requires k <= |c| + 1
  {
    if k == 0 then 0 else if k <= |c| then c[k - 1] else n
  }

  /** Segments of a label: one value, start and stop per run. */
  datatype Runs<T> = Runs(values: seq<T>, starts: seq<real>, stops: seq<real>)

  /** `s[idx[0] - shift], s[idx[1] - shift], ...`. */
  function Pick<T>(s: seq<T>, idx: seq<nat>, shift: nat): (r: seq<T>)
    requires forall k :: 0 <= k < |idx| ==> shift <= idx[k] < |s| + shift
    ensures |r| == |idx|
    ensures forall k :: 0 <= k < |idx| ==> r[k] == s[idx[k] - shift]
  {
    seq(|idx|, k requires 0 <= k < |idx| => s[idx[k] - shift])
  }

  /** The label changes at a position the time axis does not reach. */
  predicate ChangeBeyond<T(==)>(t: seq<real>, L: seq<T>)
  {
    exists i :: |t| <= i < |L| && Changed(L, i)
  }

  /** The segments of a label whose changes all lie on the time axis. */
  function RunsOf<T(==)>(t: seq<real>, L: seq<T>): (r: Runs<T>)
    requires |L| > 0 && |t| > 0 && !ChangeBeyond(t, L)
    ensures |r.values| == |r.starts| == |r.stops| == |Changes(L, |L|)| + 1
  {
    var c := Changes(L, |L|);
    Runs([L[0]] + Pick(L, c, 0), [t[0]] + Pick(t, c, 0), Pick(t, c, 1) + [t[|t| - 1]])
  }

  /**
   * `get_start_stop_times_from_label`: one segment per run of equal label
   * values, starting at the time of its first position and stopping at the
   * time of its last; the final stop is the last recording time. An empty
   * label, an empty axis, or a change beyond the axis is an IndexError.
   */
  function Rle<T(==)>(t: seq<real>, L: seq<T>): (r: Result<Runs<T>>)
    ensures r.Err? <==> |L| == 0 || |t| == 0 || ChangeBeyond(t, L)
    ensures r.Err? ==> r.error == IndexOutOfRange
  {
    if |L| == 0 || |t| == 0 || ChangeBeyond(t, L) then Err(IndexOutOfRange)
    else Ok(RunsOf(t, L))
  }

  /** The loop state after the first `i` label positions. */
  predicate RleState<T(==)>(t: seq<real>, L: seq<T>, i: nat, values: seq<T>, startTimes: seq<real>, stopTimes: seq<real>)
    requires 0 < i <= |L| && |t| > 0
  {
    var c := Changes(L, i);
    (forall k :: 0 <= k < |c| ==> c[k] < |t|)
    && values == [L[0]] + Pick(L, c, 0)
    && startTimes == [t[0]] + Pick(t, c, 0)
    && stopTimes == Pick(t, c, 1)
  }

  /** A change position on the axis appends one segment to the loop state. */
  lemma {:induction false} RleStepChange<T>(t: seq<real>, L: seq<T>, i: nat, values: seq<T>, startTimes: seq<real>, stopTimes: seq<real>)
    requires 0 < i < |L| && i < |t| && Changed(L, i) && RleState(t, L, i, values, startTimes, stopTimes)
    ensures RleState(t, L, i + 1, values + [L[i]], startTimes + [t[i]], stopTimes + [t[i - 1]])
  {
    var c := Changes(L, i);
    assert Changes(L, i + 1) == c + [i];
    assert Pick(L, c + [i], 0) == Pick(L, c, 0) + [L[i]];
    assert Pick(t, c + [i], 0) == Pick(t, c, 0) + [t[i]];
    assert Pick(t, c + [i], 1) == Pick(t, c, 1) + [t[i - 1]];
  }

  /** Elsewhere the loop state is kept. */
  lemma {:induction false} RleStepSame<T>(t: seq<real>, L: seq<T>, i: nat, values: seq<T>, startTimes: seq<real>, stopTimes: seq<real>)
    requires 0 < i < |L| && |t| > 0 && !Changed(L, i) && RleState(t, L, i, values, startTimes, stopTimes)
    ensures RleState(t, L, i + 1, values, startTimes, stopTimes)
  {
    assert Changes(L, i + 1) == Changes(L, i);
  }

  /** The encoding as the loop of the source, which compares each label entry with the value of the current run. */
  method GetStartStopTimesFromLabel<T(==)>(t: seq<real>, L: seq<T>) returns (r: Result<Runs<T>>)
    ensures r == Rle(t, L)
  {
    if |L| == 0 || |t| == 0 {
      return Err(IndexOutOfRange);
    }
    var tmp := L[0];
    var values := [tmp];
    var startTimes := [t[0]];
    var stopTimes := [];
    for i := 1 to |L|
      invariant tmp == L[i - 1]
      invariant RleState(t, L, i, values, startTimes, stopTimes)
      invariant forall j :: 0 <= j < i && Changed(L, j) ==> j < |t|
    {
      if L[i] != tmp {
        if i >= |t| {
          assert Changed(L, i);
          return Err(IndexOutOfRange);
        }
        RleStepChange(t, L, i, values, startTimes, stopTimes);
        values := values + [L[i]];
        startTimes := startTimes + [t[i]];
        stopTimes := stopTimes + [t[i - 1]];
        tmp := L[i];
      } else {
        RleStepSame(t, L, i, values, startTimes, stopTimes);
      }
    }
    stopTimes := stopTimes + [t[|t| - 1]];
    return Ok(Runs(values, startTimes, stopTimes));
  }

  /**
   * Segment `k` of the encoding: the value and time of the first position of
   * run `k`, and the time of its last position; the last stop is the last
   * recording time.
   */
  lemma {:induction false} RunsOfAt<T>(t: seq<real>, L: seq<T>, k: nat)
    requires |L| > 0 && |t| > 0 && !ChangeBeyond(t, L) && k <= |Changes(L, |L|)|
    ensures RunsOf(t, L).values[k] == L[RunStart(Changes(L, |L|), k, |L|)]
    ensures RunsOf(t, L).starts[k] == t[RunStart(Changes(L, |L|), k, |L|)]
    ensures k < |Changes(L, |L|)| ==> RunsOf(t, L).stops[k] == t[RunStart(Changes(L, |L|), k + 1, |L|) - 1]
    ensures k == |Changes(L, |L|)| ==> RunsOf(t, L).stops[k] == t[|t| - 1]
  {
  }

  /** Runs begin strictly after one another, the last one before the end of the label. */
  lemma {:induction false} RunStartsIncrease<T>(L: seq<T>, k: nat)
    requires |L| > 0 && k <= |Changes(L, |L|)|
    ensures RunStart(Changes(L, |L|), k, |L|) < RunStart(Changes(L, |L|), k + 1, |L|) <= |L|
  {
    var c := Changes(L, |L|);
    ChangesAscending(L, |L|);
    if 0 < k < |c| {
      assert c[k - 1] < c[k];
    }
  }

  /** Every position of the label lies in exactly one run: the `k` returned. */
  lemma {:induction false} RunContaining<T>(L: seq<T>, p: nat) returns (k: nat)
    requires p < |L|
    ensures k <= |Changes(L, |L|)|
    ensures RunStart(Changes(L, |L|), k, |L|) <= p < RunStart(Changes(L, |L|), k + 1, |L|)
  {
    var c := Changes(L, |L|);
    ChangesAscending(L, |L|);
    k := 0;
    while k < |c| && c[k] <= p
      invariant k <= |c|
      invariant RunStart(c, k, |L|) <= p
      decreases |c| - k
    {
      k := k + 1;
    }
  }

  /** Every position of a run holds the value of its first position. */
  lemma {:induction false} RunConstant<T>(L: seq<T>, k: nat, p: nat)
    requires k <= |Changes(L, |L|)|
    requires RunStart(Changes(L, |L|), k, |L|) <= p < RunStart(Changes(L, |L|), k + 1, |L|)
    ensures L[p] == L[RunStart(Changes(L, |L|), k, |L|)]
    decreases p
  {
    var c := Changes(L, |L|);
    if p > RunStart(c, k, |L|) {
      ChangesAscending(L, |L|);
      if Changed(L, p) {
        ChangesComplete(L, |L|, p);
      }
      RunConstant(L, k, p - 1);
    }
  }

  /** Neighbouring segments of the encoding carry different values. */
  lemma {:induction false} RleAdjacentDistinct<T>(t: seq<real>, L: seq<T>, k: nat)
    requires |L| > 0 && |t| > 0 && !ChangeBeyond(t, L)
    requires 0 < k < |RunsOf(t, L).values|
    ensures RunsOf(t, L).values[k] != RunsOf(t, L).values[k - 1]
  {
    var c := Changes(L, |L|);
    var p := c[k - 1];
    assert Changed(L, p) && RunStart(c, k, |L|) == p;
    RunStartsIncrease(L, k - 1);
    RunConstant(L, k - 1, p - 1);
    RunsOfAt(t, L, k);
    RunsOfAt(t, L, k - 1);
  }

  /** Target conversion leaves every time stamp of the axis alone (always so in the Packaged copy). */
  predicate ExactAxis(copy: Copy, t: seq<real>)
  {
    forall i :: 0 <= i < |t| ==> Target(copy, t[i]) == t[i]
  }

  /** On an increasing, exact axis each time stamp is found at its own position. */
  lemma {:induction false} NearestOfAxisEntry(copy: Copy, t: seq<real>, i: nat)
    requires StrictlyIncreasing(t) && ExactAxis(copy, t) && i < |t|
    ensures NearestIndex(copy, t, t[i]) == i
  {
    ArgminOfEntry(t, i);
  }

  /** On an axis as long as the label no change lies beyond it. */
  lemma {:induction false} NoChangeBeyondFullAxis<T>(t: seq<real>, L: seq<T>)
    requires |t| == |L|
    ensures !ChangeBeyond(t, L)
  {
  }

  // ------------------------------------------------------ bins of a recording

  /**
   * `int(span / bin_size)` evenly spaced edges from the first to the last
   * recording time; an empty recording is an IndexError and a zero bin size
   * cannot be converted to a count.
   */
  function RecordingEdges(t: seq<real>, binSize: int): (r: Result<seq<real>>)
    ensures r.Ok? <==> |t| > 0 && binSize != 0 && Trunc((t[|t| - 1] - t[0]) / binSize as real) >= 0
    ensures r.Ok? ==> r == Linspace(t[0], t[|t| - 1], Trunc((t[|t| - 1] - t[0]) / binSize as real))
  {
    if |t| == 0 then Err(IndexOutOfRange)
    else if binSize == 0 then Err(ZeroDivision)
    else Linspace(t[0], t[|t| - 1], Trunc((t[|t| - 1] - t[0]) / binSize as real))
  }

  /** `get_bins_excl_pauses`: the recording edges with the edges bracketing each pause removed. */
  function BinsExclPauses(t: seq<real>, binSize: int, pauseStarts: seq<real>, pauseStops: seq<real>): (r: Result<seq<real>>)
    ensures r.Ok? ==> RecordingEdges(t, binSize).Ok?
    ensures r.Ok? ==> RmPausesBins(RecordingEdges(t, binSize).value, pauseStarts, pauseStops, false) == Ok(Cleaned(r.value))
  {
    var bins :- RecordingEdges(t, binSize);
    var removal :- RmPausesBins(bins, pauseStarts, pauseStops, false);
    Ok(removal.kept)
  }

  /** A recording that moves forward, binned forward, gives strictly increasing pause-free edges. */
  lemma {:induction false} BinsExclPausesIncreasing(t: seq<real>, binSize: int, pauseStarts: seq<real>, pauseStops: seq<real>)
    requires |t| > 0 && t[0] < t[|t| - 1] && binSize > 0
    requires BinsExclPauses(t, binSize, pauseStarts, pauseStops).Ok?
    ensures StrictlyIncreasing(BinsExclPauses(t, binSize, pauseStarts, pauseStops).value)
  {
    var num := Trunc((t[|t| - 1] - t[0]) / binSize as real);
    LinspaceIncreasing(t[0], t[|t| - 1], num);
    RmPausesBinsIncreasing(RecordingEdges(t, binSize).value, pauseStarts, pauseStops, false);
  }

  /** Without pauses the pause-free edges are the recording edges. */
  lemma {:induction false} BinsExclPausesNoPauses(t: seq<real>, binSize: int)
    ensures BinsExclPauses(t, binSize, [], []) == RecordingEdges(t, binSize)
  {
    if RecordingEdges(t, binSize).Ok? {
      RmPausesBinsNoPauses(RecordingEdges(t, binSize).value, false);
    }
  }
}
