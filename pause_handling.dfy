/**
 * Pauses in movie playback, removed before binning: a pause is bracketed by
 * the bin edges around it, those edges are deleted, and spikes that fall in
 * a closed pause interval are dropped.
 */
module PauseHandling {
  import opened Common
  import opened NdArray

  // ------------------------------------------------------ bracketing edges

  /**
   * `pause_start_bin`: the edge nearest to the pause start, moved one edge
   * back when it lies after the start.  An empty edge array has no nearest
   * edge; `PauseIntervals` reports that as an error.
   */
  function PauseStartBin(bins: seq<real>, start: real): (b: int)
    requires |bins| > 0
    ensures -1 <= b < |bins|
  {
    var k := Argmin(bins, start);
    if bins[k] > start then k - 1 else k
  }

  /**
   * `pause_stop_bin`: the edge nearest to the pause stop, moved one edge
   * forward when it lies before the stop.
   */
  function PauseStopBin(bins: seq<real>, stop: real): (b: int)
    requires |bins| > 0
    ensures 0 <= b <= |bins|
  {
    var k := Argmin(bins, stop);
    if bins[k] < stop then k + 1 else k
  }

  /**
   * On strictly increasing edges the start bin is the last edge at or before
   * the start, and -1 when the start precedes every edge.
   */
  lemma {:induction false} PauseStartBinIsFloor(bins: seq<real>, start: real)
    requires |bins| > 0 && StrictlyIncreasing(bins)
    ensures var b := PauseStartBin(bins, start);
      && (start < bins[0] <==> b == -1)
      && (b >= 0 ==> bins[b] <= start && (b + 1 < |bins| ==> start < bins[b + 1]))
  {
    var k := Argmin(bins, start);
    ArgminNearest(bins, start);
    if bins[k] > start {
      if k > 0 {
        assert Abs(bins[k - 1] - start) >= Abs(bins[k] - start);
      }
    } else if k + 1 < |bins| {
      assert Abs(bins[k + 1] - start) >= Abs(bins[k] - start);
    }
  }

  /**
   * On strictly increasing edges the stop bin is the first edge at or after
   * the stop, and `len(bins)` when the stop follows every edge.
   */
  lemma {:induction false} PauseStopBinIsCeiling(bins: seq<real>, stop: real)
    requires |bins| > 0 && StrictlyIncreasing(bins)
    ensures var b := PauseStopBin(bins, stop);
      && (stop > bins[|bins| - 1] <==> b == |bins|)
      && (b < |bins| ==> stop <= bins[b] && (b > 0 ==> bins[b - 1] < stop))
  {
    var k := Argmin(bins, stop);
    ArgminNearest(bins, stop);
    if bins[k] < stop {
      if k + 1 < |bins| {
        assert Abs(bins[k + 1] - stop) >= Abs(bins[k] - stop);
      }
    } else if k > 0 {
      assert Abs(bins[k - 1] - stop) > Abs(bins[k] - stop);
    }
  }

  /** `make_pause_interval`: the consecutive integers from `a` to `b`. */
  function MakePauseInterval(a: int, b: int): (r: seq<int>)
    ensures |r| == (if b < a then 0 else b - a + 1)
    ensures forall k :: 0 <= k < |r| ==> r[k] == a + k
  {
    if b < a then [] else seq(b - a + 1, k => a + k)
  }

  /** The interval holds exactly the integers between its ends. */
  lemma {:induction false} MakePauseIntervalMembers(a: int, b: int, x: int)
    ensures x in MakePauseInterval(a, b) <==> a <= x <= b
  {
    if a <= x <= b {
      assert MakePauseInterval(a, b)[x - a] == x;
    }
  }

  /** A pause strictly inside one bin removes both of that bin's edges. */
  lemma {:induction false} PauseInsideBin(bins: seq<real>, k: nat, start: real, stop: real)
    requires StrictlyIncreasing(bins) && k + 1 < |bins|
    requires bins[k] < start <= stop < bins[k + 1]
    ensures PauseStartBin(bins, start) == k && PauseStopBin(bins, stop) == k + 1
    ensures MakePauseInterval(k, k + 1) == [k, k + 1]
  {
    PauseStartBinIsFloor(bins, start);
    PauseStopBinIsCeiling(bins, stop);
  }

  // ------------------------------------------------------ rm_pauses_bins

  /**
   * The concatenated index intervals of the first `n` pauses: an empty edge
   * array has no nearest edge, and a missing stop is an IndexError.
   */
  function PauseIntervals(bins: seq<real>, start: seq<real>, stop: seq<real>, n: nat): (r: Result<seq<int>>)
    requires n <= |start|
    ensures r.Ok? <==> n == 0 || (|bins| > 0 && n <= |stop|)
    ensures r.Err? ==> r.error == (if |bins| == 0 then EmptyReduction else IndexOutOfRange)
  {
    if n == 0 then Ok([])
    else
      var prev :- PauseIntervals(bins, start, stop, n - 1);
      if |bins| == 0 then Err(EmptyReduction)
      else if n - 1 >= |stop| then Err(IndexOutOfRange)
      else Ok(prev + MakePauseInterval(PauseStartBin(bins, start[n - 1]), PauseStopBin(bins, stop[n - 1])))
  }

  /** The start bin of every pause. */
  function StartBins(bins: seq<real>, start: seq<real>): (r: seq<int>)
    requires |bins| > 0
    ensures |r| == |start| && forall j :: 0 <= j < |start| ==> r[j] == PauseStartBin(bins, start[j])
  {
    seq(|start|, j requires 0 <= j < |start| => PauseStartBin(bins, start[j]))
  }

  /** The stop bin of every pause. */
  function StopBins(bins: seq<real>, stop: seq<real>): (r: seq<int>)
    requires |bins| > 0
    ensures |r| == |stop| && forall j :: 0 <= j < |stop| ==> r[j] == PauseStopBin(bins, stop[j])
  {
    seq(|stop|, j requires 0 <= j < |stop| => PauseStopBin(bins, stop[j]))
  }

  /** The intervals `lo[j]..hi[j]` of the first `n` pauses, one after another. */
  function Flatten(lo: seq<int>, hi: seq<int>, n: nat): seq<int>
    requires n <= |lo| && n <= |hi|
  {
    if n == 0 then [] else Flatten(lo, hi, n - 1) + MakePauseInterval(lo[n - 1], hi[n - 1])
  }

  /** An index is in the flattened list exactly when some interval holds it. */
  lemma {:induction false} FlattenMembers(lo: seq<int>, hi: seq<int>, n: nat, x: int)
    requires n <= |lo| && n <= |hi|
    ensures x in Flatten(lo, hi, n) <==> exists j :: 0 <= j < n && lo[j] <= x <= hi[j]
  {
    if n > 0 {
      FlattenMembers(lo, hi, n - 1, x);
      MakePauseIntervalMembers(lo[n - 1], hi[n - 1], x);
      if exists j :: 0 <= j < n && lo[j] <= x <= hi[j] {
        var j :| 0 <= j < n && lo[j] <= x <= hi[j];
        if j < n - 1 {
          assert exists j' :: 0 <= j' < n - 1 && lo[j'] <= x <= hi[j'];
        }
      }
    }
  }

  /** When every pause has a stop and there are edges, the loop flattens the intervals. */
  lemma {:induction false} PauseIntervalsFlatten(bins: seq<real>, start: seq<real>, stop: seq<real>, n: nat)
    requires n <= |start| && n <= |stop| && |bins| > 0
    ensures PauseIntervals(bins, start, stop, n) == Ok(Flatten(StartBins(bins, start), StopBins(bins, stop), n))
  {
    if n > 0 {
      PauseIntervalsFlatten(bins, start, stop, n - 1);
    }
  }

  /** One more pause appends its interval. */
  lemma {:induction false} PauseIntervalsStep(bins: seq<real>, start: seq<real>, stop: seq<real>, i: nat)
    requires i < |start| && i < |stop| && |bins| > 0
    ensures PauseIntervals(bins, start, stop, i).Ok? && PauseIntervals(bins, start, stop, i + 1).Ok?
    ensures PauseIntervals(bins, start, stop, i + 1).value == PauseIntervals(bins, start, stop, i).value
      + MakePauseInterval(PauseStartBin(bins, start[i]), PauseStopBin(bins, stop[i]))
  {
  }

  /** What `rm_pauses_bins` returns: the cleaned edges, and with `return_intervals` the removed indices. */
  datatype Removal = Cleaned(kept: seq<real>) | CleanedWithIndices(kept: seq<real>, removed: seq<int>)

  function Output(kept: seq<real>, removed: seq<int>, returnIntervals: bool): (r: Removal)
    ensures r.kept == kept
    ensures r.CleanedWithIndices? <==> returnIntervals
    ensures r.CleanedWithIndices? ==> r.removed == removed
  {
    if returnIntervals then CleanedWithIndices(kept, removed) else Cleaned(kept)
  }

  /**
   * `rm_pauses_bins`: the edges with every index of every pause interval
   * deleted by `np.delete`, which counts -1 from the end and refuses an
   * index past the last edge.
   */
  function RmPausesBins(bins: seq<real>, start: seq<real>, stop: seq<real>, returnIntervals: bool): (r: Result<Removal>)
    ensures r.Ok? <==> PauseIntervals(bins, start, stop, |start|).Ok? &&
                       Delete(bins, PauseIntervals(bins, start, stop, |start|).value).Ok?
    ensures r.Ok? ==> var all := PauseIntervals(bins, start, stop, |start|).value;
      Delete(bins, all).Ok? && r.value == Output(Delete(bins, all).value, all, returnIntervals)
  {
    var all :- PauseIntervals(bins, start, stop, |start|);
    var kept :- Delete(bins, all);
    Ok(Output(kept, all, returnIntervals))
  }

  /**
   * Edge `i` lies in the interval of some pause, read directly or, as
   * `np.delete` reads a negative index, counted from the end.
   */
  predicate InPauseInterval(bins: seq<real>, start: seq<real>, stop: seq<real>, i: int)
  {
    |bins| > 0 && |start| <= |stop| &&
    exists j :: 0 <= j < |start| &&
      (PauseStartBin(bins, start[j]) <= i <= PauseStopBin(bins, stop[j]) ||
       PauseStartBin(bins, start[j]) <= i - |bins| <= PauseStopBin(bins, stop[j]))
  }

  /** The edges some pause interval holds. */
  function PausedEdges(bins: seq<real>, start: seq<real>, stop: seq<real>): set<int>
  {
    set i | 0 <= i < |bins| && InPauseInterval(bins, start, stop, i)
  }

  /** Every edge the flattened intervals name, after wrap-around, is held by some pause interval. */
  lemma {:induction false} NamedEdgesPaused(bins: seq<real>, start: seq<real>, stop: seq<real>)
    requires |bins| > 0 && |start| <= |stop|
    requires Delete(bins, Flatten(StartBins(bins, start), StopBins(bins, stop), |start|)).Ok?
    ensures DropSet(Flatten(StartBins(bins, start), StopBins(bins, stop), |start|), |bins|) <= PausedEdges(bins, start, stop)
  {
    var n := |bins|;
    var lo, hi := StartBins(bins, start), StopBins(bins, stop);
    var all := Flatten(lo, hi, |start|);
    forall i | i in DropSet(all, n) ensures i in PausedEdges(bins, start, stop) {
      var k :| 0 <= k < |all| && Normalize(all[k], n) == i;
      assert InRange(all[k], n);
      FlattenMembers(lo, hi, |start|, all[k]);
      var j :| 0 <= j < |start| && lo[j] <= all[k] <= hi[j];
      assert all[k] == i || all[k] == i - n;
      assert InPauseInterval(bins, start, stop, i);
    }
  }

  /** Every edge some pause interval holds is named by the flattened intervals. */
  lemma {:induction false} PausedEdgesNamed(bins: seq<real>, start: seq<real>, stop: seq<real>)
    requires |bins| > 0 && |start| <= |stop|
    ensures PausedEdges(bins, start, stop) <= DropSet(Flatten(StartBins(bins, start), StopBins(bins, stop), |start|), |bins|)
  {
    var n := |bins|;
    var lo, hi := StartBins(bins, start), StopBins(bins, stop);
    var all := Flatten(lo, hi, |start|);
    forall i | i in PausedEdges(bins, start, stop) ensures i in DropSet(all, n) {
      var j :| 0 <= j < |start| &&
        (PauseStartBin(bins, start[j]) <= i <= PauseStopBin(bins, stop[j]) ||
         PauseStartBin(bins, start[j]) <= i - n <= PauseStopBin(bins, stop[j]));
      var x := if lo[j] <= i <= hi[j] then i else i - n;
      FlattenMembers(lo, hi, |start|, x);
      var k :| 0 <= k < |all| && all[k] == x;
      assert Normalize(all[k], n) == i;
    }
  }

  /** The positions `np.delete` removes are exactly the edges some pause interval holds. */
  lemma {:induction false} RemovedArePausedEdges(bins: seq<real>, start: seq<real>, stop: seq<real>, returnIntervals: bool)
    requires RmPausesBins(bins, start, stop, returnIntervals).Ok?
    ensures DropSet(PauseIntervals(bins, start, stop, |start|).value, |bins|) == PausedEdges(bins, start, stop)
  {
    var all := PauseIntervals(bins, start, stop, |start|).value;
    if |start| == 0 {
      assert all == [];
      assert DropSet(all, |bins|) == {} == PausedEdges(bins, start, stop);
    } else {
      PauseIntervalsFlatten(bins, start, stop, |start|);
      NamedEdgesPaused(bins, start, stop);
      PausedEdgesNamed(bins, start, stop);
    }
  }

  /**
   * What `rm_pauses_bins` promises: the kept edges are, in their order,
   * exactly the edges that no pause interval holds.
   */
  lemma {:induction false} RmPausesBinsRemovesPauses(bins: seq<real>, start: seq<real>, stop: seq<real>, returnIntervals: bool)
    requires RmPausesBins(bins, start, stop, returnIntervals).Ok?
    ensures var kept := RmPausesBins(bins, start, stop, returnIntervals).value.kept;
            var p := Positions(|bins|, PausedEdges(bins, start, stop));
            kept == Without(bins, PausedEdges(bins, start, stop)) &&
            |kept| == |p| && Ascending(p) &&
            (forall k :: 0 <= k < |p| ==> p[k] < |bins| && kept[k] == bins[p[k]]) &&
            (forall i :: 0 <= i < |bins| ==> (i in p <==> !InPauseInterval(bins, start, stop, i)))
  {
    var paused := PausedEdges(bins, start, stop);
    RemovedArePausedEdges(bins, start, stop, returnIntervals);
    var p := Positions(|bins|, paused);
    WithoutAt(bins, paused);
    PositionsSpec(|bins|, paused);
    forall i | 0 <= i < |bins| ensures i in p <==> !InPauseInterval(bins, start, stop, i) {
      if i in p {
        var k :| 0 <= k < |p| && p[k] == i;
      }
    }
  }

  /** Without pauses the edges come back unchanged. */
  lemma {:induction false} RmPausesBinsNoPauses(bins: seq<real>, returnIntervals: bool)
    ensures RmPausesBins(bins, [], [], returnIntervals) == Ok(Output(bins, [], returnIntervals))
  {
    assert DropSet([], |bins|) == {};
    WithoutNothing(bins);
  }

  /** Deleting edges keeps the remaining edges strictly increasing. */
  lemma {:induction false} RmPausesBinsIncreasing(bins: seq<real>, start: seq<real>, stop: seq<real>, returnIntervals: bool)
    requires StrictlyIncreasing(bins) && RmPausesBins(bins, start, stop, returnIntervals).Ok?
    ensures StrictlyIncreasing(RmPausesBins(bins, start, stop, returnIntervals).value.kept)
  {
    var all := PauseIntervals(bins, start, stop, |start|).value;
    WithoutIncreasing(bins, DropSet(all, |bins|));
  }

  /**
   * With sorted edges, a pause reaching past the last edge has stop bin
   * `len(bins)`, which `np.delete` refuses.
   */
  lemma {:induction false} StopPastLastEdgeFails(bins: seq<real>, start: seq<real>, stop: seq<real>, returnIntervals: bool, j: nat)
    requires |bins| > 0 && StrictlyIncreasing(bins)
    requires |start| == |stop| && j < |start| && start[j] <= stop[j] && stop[j] > bins[|bins| - 1]
    ensures RmPausesBins(bins, start, stop, returnIntervals) == Err(IndexOutOfRange)
  {
    var lo, hi := StartBins(bins, start), StopBins(bins, stop);
    PauseStopBinIsCeiling(bins, stop[j]);
    PauseStartBinIsFloor(bins, start[j]);
    PauseIntervalsFlatten(bins, start, stop, |start|);
    FlattenMembers(lo, hi, |start|, |bins|);
    assert lo[j] <= |bins| <= hi[j];
    var all := Flatten(lo, hi, |start|);
    var k :| 0 <= k < |all| && all[k] == |bins|;
    assert !InRange(all[k], |bins|);
  }

  /**
   * With sorted edges, a pause that starts before the first edge has start
   * bin -1, and `np.delete` reads -1 as the LAST edge, which is removed.
   */
  lemma {:induction false} StartBeforeFirstEdgeDropsLast(bins: seq<real>, start: seq<real>, stop: seq<real>, returnIntervals: bool, j: nat)
    requires |bins| > 0 && StrictlyIncreasing(bins)
    requires |start| == |stop| && j < |start| && start[j] < bins[0]
    ensures RmPausesBins(bins, start, stop, returnIntervals).Ok? ==>
      |bins| - 1 in DropSet(PauseIntervals(bins, start, stop, |start|).value, |bins|)
  {
    var lo, hi := StartBins(bins, start), StopBins(bins, stop);
    PauseStartBinIsFloor(bins, start[j]);
    PauseIntervalsFlatten(bins, start, stop, |start|);
    FlattenMembers(lo, hi, |start|, -1);
    assert lo[j] <= -1 <= hi[j];
    var all := Flatten(lo, hi, |start|);
    var k :| 0 <= k < |all| && all[k] == -1;
    assert Normalize(all[k], |bins|) == |bins| - 1;
  }

  /** `rm_pauses_bins`, collecting the intervals in a loop. */
  method RemovePauseBins(bins: seq<real>, start: seq<real>, stop: seq<real>, returnIntervals: bool)
    returns (r: Result<Removal>)
    ensures r == RmPausesBins(bins, start, stop, returnIntervals)
  {
    var pauses: seq<int> := [];
    var i := 0;
    while i < |start|
      invariant 0 <= i <= |start|
      invariant PauseIntervals(bins, start, stop, i) == Ok(pauses)
    {
      if |bins| == 0 {
        assert PauseIntervals(bins, start, stop, |start|) == Err(EmptyReduction);
        return Err(EmptyReduction);
      }
      var startBin := PauseStartBin(bins, start[i]);
      if i >= |stop| {
        assert PauseIntervals(bins, start, stop, |start|) == Err(IndexOutOfRange);
        return Err(IndexOutOfRange);
      }
      var stopBin := PauseStopBin(bins, stop[i]);
      PauseIntervalsStep(bins, start, stop, i);
      pauses := pauses + MakePauseInterval(startBin, stopBin);
      i := i + 1;
    }
    assert PauseIntervals(bins, start, stop, |start|) == Ok(pauses);
    var noPauses := Delete(bins, pauses);
    if noPauses.Err? {
      return Err(IndexOutOfRange);
    }
    r := Ok(Output(noPauses.value, pauses, returnIntervals));
  }

  // ------------------------------------------------------ rm_pauses_spikes

  /** The spike lies in the closed pause `j`. */
  predicate InPause(spk: real, start: seq<real>, stop: seq<real>, j: nat)
    requires j < |start| && j < |stop|
  {
    start[j] <= spk <= stop[j]
  }

  /**
   * The inner loop of `rm_pauses_spikes` over the first `m` pauses for spike
   * `i`: one copy of `i` per pause holding it.  A missing stop is only read,
   * and so only fails, when the spike is at or after that pause's start.
   */
  function PauseHits(spk: real, i: nat, start: seq<real>, stop: seq<real>, m: nat): (r: Result<seq<nat>>)
    requires m <= |start|
    ensures r.Err? <==> exists j :: |stop| <= j < m && spk >= start[j]
    ensures r.Err? ==> r.error == IndexOutOfRange
    ensures r.Ok? ==> forall k :: 0 <= k < |r.value| ==> r.value[k] == i
  {
    if m == 0 then Ok([])
    else
      var prev :- PauseHits(spk, i, start, stop, m - 1);
      if spk >= start[m - 1] then
        if m - 1 >= |stop| then Err(IndexOutOfRange)
        else Ok(prev + (if spk <= stop[m - 1] then [i] else []))
      else Ok(prev)
  }

  /** The spike's index is recorded exactly when some pause holds the spike. */
  lemma {:induction false} PauseHitsMembers(spk: real, i: nat, start: seq<real>, stop: seq<real>, m: nat)
    requires m <= |start| && m <= |stop|
    ensures PauseHits(spk, i, start, stop, m).Ok?
    ensures i in PauseHits(spk, i, start, stop, m).value <==> exists j :: 0 <= j < m && InPause(spk, start, stop, j)
  {
    if m > 0 {
      PauseHitsMembers(spk, i, start, stop, m - 1);
      var prev := PauseHits(spk, i, start, stop, m - 1).value;
      if InPause(spk, start, stop, m - 1) {
        assert PauseHits(spk, i, start, stop, m).value == prev + [i];
      } else {
        assert PauseHits(spk, i, start, stop, m).value == prev;
      }
      if exists j :: 0 <= j < m && InPause(spk, start, stop, j) {
        var j :| 0 <= j < m && InPause(spk, start, stop, j);
        if j < m - 1 {
          assert i in prev;
        }
      }
    }
  }

  /** The indices the outer loop records for the first `n` spikes. */
  function PausedSpikes(unit: seq<real>, start: seq<real>, stop: seq<real>, n: nat): (r: Result<seq<nat>>)
    requires n <= |unit|
    ensures r.Err? <==> exists i :: 0 <= i < n && PauseHits(unit[i], i, start, stop, |start|).Err?
    ensures r.Err? ==> r.error == IndexOutOfRange
    ensures r.Ok? ==> forall k :: 0 <= k < |r.value| ==> r.value[k] < n
    ensures r.Ok? ==> forall k, l :: 0 <= k < l < |r.value| ==> r.value[k] <= r.value[l]
  {
    if n == 0 then Ok([])
    else
      var prev :- PausedSpikes(unit, start, stop, n - 1);
      var hits :- PauseHits(unit[n - 1], n - 1, start, stop, |start|);
      Ok(prev + hits)
  }

  /** A spike's index is recorded exactly when some pause holds the spike. */
  lemma {:induction false} PausedSpikesMembers(unit: seq<real>, start: seq<real>, stop: seq<real>, n: nat, i: nat)
    requires n <= |unit| && |start| <= |stop|
    ensures PausedSpikes(unit, start, stop, n).Ok?
    ensures i in PausedSpikes(unit, start, stop, n).value <==>
      i < n && exists j :: 0 <= j < |start| && InPause(unit[i], start, stop, j)
  {
    if n > 0 {
      PausedSpikesMembers(unit, start, stop, n - 1, i);
      PauseHitsMembers(unit[n - 1], n - 1, start, stop, |start|);
      var prev := PausedSpikes(unit, start, stop, n - 1).value;
      var hits := PauseHits(unit[n - 1], n - 1, start, stop, |start|).value;
      assert PausedSpikes(unit, start, stop, n).value == prev + hits;
      if i != n - 1 {
        assert i !in hits;
      }
      if i == n - 1 {
        assert i !in prev;
      }
    }
  }

  /** The positions of the spikes inside some closed pause interval. */
  function PausedSet(unit: seq<real>, start: seq<real>, stop: seq<real>): set<int>
    requires |start| <= |stop|
  {
    set i | 0 <= i < |unit| && exists j :: 0 <= j < |start| && InPause(unit[i], start, stop, j)
  }

  /**
   * `rm_pauses_spikes`: the spikes with the recorded indices deleted; with
   * `return_intervals` also the recorded indices.
   */
  function RmPausesSpikes(unit: seq<real>, start: seq<real>, stop: seq<real>, returnIntervals: bool): (r: Result<Removal>)
    ensures r.Err? ==> r.error == IndexOutOfRange
    ensures |start| <= |stop| ==> r.Ok?
  {
    var paused :- PausedSpikes(unit, start, stop, |unit|);
    assert forall k :: 0 <= k < |paused| ==> InRange(paused[k], |unit|);
    Ok(Output(Delete(unit, paused).value, paused, returnIntervals))
  }

  /** The kept spikes are exactly those no pause holds, in their order. */
  lemma {:induction false} RmPausesSpikesKeeps(unit: seq<real>, start: seq<real>, stop: seq<real>, returnIntervals: bool)
    requires |start| <= |stop|
    ensures RmPausesSpikes(unit, start, stop, returnIntervals).value.kept == Without(unit, PausedSet(unit, start, stop))
  {
    var paused := PausedSpikes(unit, start, stop, |unit|).value;
    assert DropSet(paused, |unit|) == PausedSet(unit, start, stop) by {
      forall x: int ensures x in DropSet(paused, |unit|) <==> x in PausedSet(unit, start, stop) {
        if x in DropSet(paused, |unit|) {
          var k :| 0 <= k < |paused| && Normalize(paused[k], |unit|) == x;
          PausedSpikesMembers(unit, start, stop, |unit|, paused[k]);
        }
        if x in PausedSet(unit, start, stop) {
          PausedSpikesMembers(unit, start, stop, |unit|, x);
          var k :| 0 <= k < |paused| && paused[k] == x;
          assert Normalize(paused[k], |unit|) == x;
        }
      }
    }
  }

  /** Every recorded index names a spike, so `np.delete` accepts them. */
  lemma {:induction false} PausedSpikesInRange(unit: seq<real>, start: seq<real>, stop: seq<real>)
    requires PausedSpikes(unit, start, stop, |unit|).Ok?
    ensures Delete(unit, PausedSpikes(unit, start, stop, |unit|).value).Ok?
  {
  }

  /** `rm_pauses_spikes`: every spike is compared with every pause. */
  method RemovePauseSpikes(unit: seq<real>, start: seq<real>, stop: seq<real>, returnIntervals: bool)
    returns (r: Result<Removal>)
    ensures r == RmPausesSpikes(unit, start, stop, returnIntervals)
  {
    var pausedSpikes: seq<nat> := [];
    var i := 0;
    while i < |unit|
      invariant 0 <= i <= |unit|
      invariant PausedSpikes(unit, start, stop, i) == Ok(pausedSpikes)
    {
      var spk := unit[i];
      ghost var before := pausedSpikes;
      var j := 0;
      while j < |start|
        invariant 0 <= j <= |start|
        invariant PauseHits(spk, i, start, stop, j).Ok?
        invariant pausedSpikes == before + PauseHits(spk, i, start, stop, j).value
      {
        if spk >= start[j] {
          if j >= |stop| {
            assert PauseHits(spk, i, start, stop, |start|).Err?;
            assert PausedSpikes(unit, start, stop, |unit|).Err?;
            return Err(IndexOutOfRange);
          }
          if spk <= stop[j] {
            pausedSpikes := pausedSpikes + [i];
          }
        }
        j := j + 1;
      }
      i := i + 1;
    }
    PausedSpikesInRange(unit, start, stop);
    var noPauses := Delete(unit, pausedSpikes);
    r := Ok(Output(noPauses.value, pausedSpikes, returnIntervals));
  }
}
