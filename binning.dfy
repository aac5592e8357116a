/**
 * Binning of a recording: evenly spaced edges over the neural recording
 * time, optionally with the edges bracketing each playback pause removed,
 * and then either a histogram of spike times or one label value per bin.
 * The database lookups of the source (the recording time stamps and the
 * pause times of a session) are parameters here.
 */
module Binning {
  import opened Common
  import opened NdArray
  import opened PauseHandling
  import opened Segments
  import opened Indicators
  import opened ClockAlignment

  /**
   * The edges a label is binned against: `int(span / bin_size)` edges over
   * the recording time (microseconds, divided by 1000) and, when pauses are
   * excluded, without the edges bracketing each pause. `bin_label` hands the
   * pause times to the edge removal as they come.
   */
  function LabelEdges(rectime: seq<real>, binSize: int, excludePauses: bool, pauseStarts: seq<real>, pauseStops: seq<real>)
    : (r: Result<seq<real>>)
    ensures !excludePauses ==> r == RecordingEdges(MakeMsec(rectime), binSize)
    ensures excludePauses ==> r == BinsExclPauses(MakeMsec(rectime), binSize, pauseStarts, pauseStops)
  {
    var bins :- RecordingEdges(MakeMsec(rectime), binSize);
    if excludePauses then
      var removal :- RmPausesBins(bins, pauseStarts, pauseStops, false);
      Ok(removal.kept)
    else
      Ok(bins)
  }

  /**
   * `bin_label`: the label given by `values` on the segments
   * `[starts[i], stops[i]]`, one value per bin of the label edges.
   */
  function BinLabel(copy: Copy, rectime: seq<real>, values: seq<real>, starts: seq<real>, stops: seq<real>,
                    binSize: int, excludePauses: bool, pauseStarts: seq<real>, pauseStops: seq<real>)
    : (r: Result<seq<real>>)
    ensures r.Ok? ==> LabelEdges(rectime, binSize, excludePauses, pauseStarts, pauseStops).Ok?
    ensures (LabelEdges(rectime, binSize, excludePauses, pauseStarts, pauseStops).Ok? && !(|values| == |starts| == |stops|))
              ==> r == Err(LengthMismatch)
  {
    var ref :- LabelEdges(rectime, binSize, excludePauses, pauseStarts, pauseStops);
    ReferenceVector(copy, ref, values, starts, stops)
  }

  /**
   * Whenever the edges exist and the segments are given consistently, the
   * binned label exists and holds, for each bin between two consecutive
   * edges, the value the segments give that bin.
   */
  lemma {:induction false} BinLabelPerBin(copy: Copy, rectime: seq<real>, values: seq<real>, starts: seq<real>, stops: seq<real>,
                                          binSize: int, excludePauses: bool, pauseStarts: seq<real>, pauseStops: seq<real>)
    requires |values| == |starts| == |stops| > 0
    requires LabelEdges(rectime, binSize, excludePauses, pauseStarts, pauseStops).Ok?
    ensures var edges := LabelEdges(rectime, binSize, excludePauses, pauseStarts, pauseStops).value;
            var r := BinLabel(copy, rectime, values, starts, stops, binSize, excludePauses, pauseStarts, pauseStops);
            r.Ok? && |r.value| == FrameCount(edges) &&
            forall i :: 0 <= i < |r.value| ==> Frame(copy, edges, values, starts, stops, i) == Ok(r.value[i])
  {
    var edges := LabelEdges(rectime, binSize, excludePauses, pauseStarts, pauseStops).value;
    ReferenceVectorTotal(copy, edges, values, starts, stops);
    ReferenceVectorFrames(copy, edges, values, starts, stops);
  }

  // ---------------------------------------------------------------- spikes

  /** The spike counts, with the edges they were counted against when asked for. */
  datatype Binned = Counts(counts: seq<nat>) | CountsWithEdges(counts: seq<nat>, edges: seq<real>)

  /** The packaged `bin_spikes` can also return its edges; the legacy one returns counts only. */
  function BinnedOutput(copy: Copy, counts: seq<nat>, edges: seq<real>, outputEdges: bool): (b: Binned)
    ensures b.counts == counts
    ensures b.CountsWithEdges? <==> copy == Packaged && outputEdges
    ensures b.CountsWithEdges? ==> b.edges == edges
  {
    if copy == Packaged && outputEdges then CountsWithEdges(counts, edges) else Counts(counts)
  }

  /** The packaged copy rescales pause times from microseconds to milliseconds before using them. */
  function PauseTimes(copy: Copy, s: seq<real>): (r: seq<real>)
    ensures |r| == |s|
  {
    if copy == Packaged then MakeMsec(s) else s
  }

  /**
   * `bin_spikes`: a histogram of the spike times over the recording edges;
   * with pauses excluded, of the spikes outside every pause over the
   * pause-free edges.
   */
  function BinSpikes(copy: Copy, rectime: seq<real>, spikes: seq<real>, binSize: int, excludePauses: bool,
                     pauseStarts: seq<real>, pauseStops: seq<real>, outputEdges: bool)
    : (r: Result<Binned>)
    ensures r.Ok? ==> (r.value.CountsWithEdges? <==> copy == Packaged && outputEdges)
  {
    var bins :- RecordingEdges(MakeMsec(rectime), binSize);
    if excludePauses then
      var starts := PauseTimes(copy, pauseStarts);
      var stops := PauseTimes(copy, pauseStops);
      var edges :- RmPausesBins(bins, starts, stops, false);
      var unit :- RmPausesSpikes(spikes, starts, stops, true);
      var counts :- Histogram(unit.kept, edges.kept);
      Ok(BinnedOutput(copy, counts, edges.kept, outputEdges))
    else
      var counts :- Histogram(spikes, bins);
      Ok(BinnedOutput(copy, counts, bins, outputEdges))
  }

  /** The spikes that are counted: all of them, or those no pause holds. */
  function CountedSpikes(spikes: seq<real>, excludePauses: bool, starts: seq<real>, stops: seq<real>): seq<real>
    requires |starts| <= |stops|
  {
    if excludePauses then Without(spikes, PausedSet(spikes, starts, stops)) else spikes
  }

  /**
   * The spikes are counted against the edges `bin_label` would use for the
   * same pauses rescaled by the copy: one count per bin, each the number of
   * counted spikes in that bin; the edges returned are those edges.
   */
  lemma {:induction false} BinSpikesCounts(copy: Copy, rectime: seq<real>, spikes: seq<real>, binSize: int, excludePauses: bool,
                                           pauseStarts: seq<real>, pauseStops: seq<real>, outputEdges: bool)
    requires |pauseStarts| <= |pauseStops|
    requires BinSpikes(copy, rectime, spikes, binSize, excludePauses, pauseStarts, pauseStops, outputEdges).Ok?
    ensures var starts := PauseTimes(copy, pauseStarts);
            var stops := PauseTimes(copy, pauseStops);
            var edges := LabelEdges(rectime, binSize, excludePauses, starts, stops);
            var b := BinSpikes(copy, rectime, spikes, binSize, excludePauses, pauseStarts, pauseStops, outputEdges).value;
            edges.Ok? && |b.counts| == FrameCount(edges.value) &&
            (forall i :: 0 <= i < |b.counts| ==> b.counts[i] == CountInBin(CountedSpikes(spikes, excludePauses, starts, stops), edges.value, i)) &&
            (b.CountsWithEdges? ==> b.edges == edges.value)
  {
    if excludePauses {
      RmPausesSpikesKeeps(spikes, PauseTimes(copy, pauseStarts), PauseTimes(copy, pauseStops), true);
    }
  }

  /**
   * Every counted spike between the first and the last edge lands in exactly
   * one bin: the counts add up to the number of counted spikes in that range.
   */
  lemma {:induction false} BinSpikesTotal(copy: Copy, rectime: seq<real>, spikes: seq<real>, binSize: int, excludePauses: bool,
                                          pauseStarts: seq<real>, pauseStops: seq<real>, outputEdges: bool)
    requires |pauseStarts| <= |pauseStops|
    requires BinSpikes(copy, rectime, spikes, binSize, excludePauses, pauseStarts, pauseStops, outputEdges).Ok?
    requires var edges := LabelEdges(rectime, binSize, excludePauses, PauseTimes(copy, pauseStarts), PauseTimes(copy, pauseStops));
             edges.Ok? && |edges.value| >= 2
    ensures var starts := PauseTimes(copy, pauseStarts);
            var stops := PauseTimes(copy, pauseStops);
            var edges := LabelEdges(rectime, binSize, excludePauses, starts, stops).value;
            var b := BinSpikes(copy, rectime, spikes, binSize, excludePauses, pauseStarts, pauseStops, outputEdges).value;
            SumNat(b.counts) == CountInRange(CountedSpikes(spikes, excludePauses, starts, stops), edges[0], edges[|edges| - 1])
  {
    var starts := PauseTimes(copy, pauseStarts);
    var stops := PauseTimes(copy, pauseStops);
    var edges := LabelEdges(rectime, binSize, excludePauses, starts, stops).value;
    var counted := CountedSpikes(spikes, excludePauses, starts, stops);
    BinSpikesCounts(copy, rectime, spikes, binSize, excludePauses, pauseStarts, pauseStops, outputEdges);
    var b := BinSpikes(copy, rectime, spikes, binSize, excludePauses, pauseStarts, pauseStops, outputEdges).value;
    assert Histogram(counted, edges).Ok?;
    HistogramTotal(counted, edges);
    assert b.counts == Histogram(counted, edges).value;
  }

  /**
   * The recording edges of a recording that moves forward: `int(span /
   * bin_size)` of them, the first at the first recording time and, when
   * there are at least two, the last at the last recording time (times in
   * milliseconds).
   */
  lemma {:induction false} RecordingEdgesSpan(rectime: seq<real>, binSize: int)
    requires |rectime| > 0 && rectime[0] <= rectime[|rectime| - 1] && binSize > 0
    ensures var t := MakeMsec(rectime);
            var edges := LabelEdges(rectime, binSize, false, [], []);
            edges.Ok? && |edges.value| == Trunc((t[|t| - 1] - t[0]) / binSize as real) &&
            (|edges.value| >= 1 ==> edges.value[0] == rectime[0] / 1000.0) &&
            (|edges.value| >= 2 ==> edges.value[|edges.value| - 1] == rectime[|rectime| - 1] / 1000.0)
  {
    var t := MakeMsec(rectime);
    assert t[0] <= t[|t| - 1];
    TruncBounds((t[|t| - 1] - t[0]) / binSize as real);
  }
}
