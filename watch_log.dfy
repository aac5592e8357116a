/**
 * The watch log of a movie session: a header line, then `pts <seconds>
 * time <cpu>` lines written while the movie plays.  A `WatchLog` holds the
 * start and end CPU time (the second line and the last `pts` line), the
 * presentation and CPU time stamps of every four-field line, trimmed to the
 * movie's length, and the two as table rows.
 *
 * The file is given as its lines; how a decimal word becomes a float is the
 * parameter `parseFloat`, as for the other logs.
 */
module WatchLogs {
  import opened Common
  import opened Text
  import opened NdArray
  import opened LogParsers

  /** The movie's length: presentation time stamps above it are dropped. */
  const MaxMovieTime: real := 5029.0

  // ------------------------------------------------- trimming to the movie

  /** The flag the trimming reads: 0 for a time stamp past the movie, else 1. */
  function MovieFlag(pts: real): (f: int)
    ensures f == 0 <==> pts > MaxMovieTime
    ensures f == 0 || f == 1
  {
    if pts > MaxMovieTime then 0 else 1
  }

  /** The positions past the movie. */
  function PastMovie(pts: seq<real>): set<int>
  {
    set i | 0 <= i < |pts| && pts[i] > MaxMovieTime
  }

  /** Some kept position has no CPU time stamp to go with it. */
  predicate MissingCpuTime(pts: seq<real>, dts: seq<int>)
  {
    exists i :: |dts| <= i < |pts| && pts[i] <= MaxMovieTime
  }

  /**
   * `cut_time_to_movie_pts`: the time stamps up to the movie's length with
   * their CPU times, and the positions dropped; an IndexError when a kept
   * position has no CPU time.
   */
  function Cut(pts: seq<real>, dts: seq<int>): Result<(seq<real>, seq<int>, seq<nat>)>
  {
    if MissingCpuTime(pts, dts) then Err(IndexOutOfRange)
    else Ok((Without(pts, PastMovie(pts)), Without(dts[..Min(|pts|, |dts|)], PastMovie(pts)), IndicesAbove(pts, MaxMovieTime)))
  }

  /** The lists `cp`, `cd` and `ex` are what the trimming has built after the first `i` time stamps. */
  predicate CutSoFar(pts: seq<real>, dts: seq<int>, i: nat, cp: seq<real>, cd: seq<int>, ex: seq<nat>)
    requires i <= |pts|
  {
    (forall j :: |dts| <= j < i ==> pts[j] > MaxMovieTime) &&
    cp == Without(pts[..i], PastMovie(pts)) &&
    cd == Without(dts[..Min(i, |dts|)], PastMovie(pts)) &&
    ex == IndicesAbove(pts[..i], MaxMovieTime)
  }

  /** A time stamp within the movie, with its CPU time, is kept. */
  lemma {:induction false} CutSoFarKeep(pts: seq<real>, dts: seq<int>, i: nat, cp: seq<real>, cd: seq<int>, ex: seq<nat>)
    requires i < |pts| && i < |dts| && pts[i] <= MaxMovieTime
    requires CutSoFar(pts, dts, i, cp, cd, ex)
    ensures CutSoFar(pts, dts, i + 1, cp + [pts[i]], cd + [dts[i]], ex)
  {
    assert pts[..i + 1][..i] == pts[..i];
    assert dts[..i + 1][..i] == dts[..i];
  }

  /** A time stamp past the movie is dropped and its position recorded. */
  lemma {:induction false} CutSoFarDrop(pts: seq<real>, dts: seq<int>, i: nat, cp: seq<real>, cd: seq<int>, ex: seq<nat>)
    requires i < |pts| && pts[i] > MaxMovieTime
    requires CutSoFar(pts, dts, i, cp, cd, ex)
    ensures CutSoFar(pts, dts, i + 1, cp, cd, ex + [i])
  {
    assert pts[..i + 1][..i] == pts[..i];
    if i < |dts| {
      assert dts[..i + 1][..i] == dts[..i];
    }
  }

  /** After the last time stamp the lists built are the trimming's result. */
  lemma {:induction false} CutSoFarDone(pts: seq<real>, dts: seq<int>, cp: seq<real>, cd: seq<int>, ex: seq<nat>)
    requires CutSoFar(pts, dts, |pts|, cp, cd, ex)
    ensures Cut(pts, dts) == Ok((cp, cd, ex))
  {
    assert pts[..|pts|] == pts;
  }

  /** A kept time stamp without a CPU time makes the trimming fail. */
  lemma {:induction false} CutMissing(pts: seq<real>, dts: seq<int>, i: nat)
    requires |dts| <= i < |pts| && pts[i] <= MaxMovieTime
    ensures Cut(pts, dts) == Err(IndexOutOfRange)
  {
  }

  /**
   * One pass of the loop of `cut_time_to_movie_pts`: the entry at `i` is
   * kept with its CPU time or its position is recorded; `missing` when it
   * is kept but has no CPU time.
   */
  method CutEntry(pts: seq<real>, dts: seq<int>, i: nat, cp: seq<real>, cd: seq<int>, ex: seq<nat>)
    returns (missing: bool, cp': seq<real>, cd': seq<int>, ex': seq<nat>)
    requires i < |pts| && CutSoFar(pts, dts, i, cp, cd, ex)
    ensures missing <==> i >= |dts| && pts[i] <= MaxMovieTime
    ensures !missing ==> CutSoFar(pts, dts, i + 1, cp', cd', ex')
  {
    missing, cp', cd', ex' := false, cp, cd, ex;
    if MovieFlag(pts[i]) == 1 {
      if i >= |dts| {
        missing := true;
        return;
      }
      CutSoFarKeep(pts, dts, i, cp, cd, ex);
      cp' := cp + [pts[i]];
      cd' := cd + [dts[i]];
    } else {
      CutSoFarDrop(pts, dts, i, cp, cd, ex);
      ex' := ex + [i];
    }
  }

  /** `cut_time_to_movie_pts`, looping over the time stamps as the source does. */
  method CutTimeToMoviePts(pts: seq<real>, dts: seq<int>) returns (r: Result<(seq<real>, seq<int>, seq<nat>)>)
    ensures r == Cut(pts, dts)
  {
    var cutPts: seq<real> := [];
    var cutDts: seq<int> := [];
    var excluded: seq<nat> := [];
    var i := 0;
    while i < |pts|
      invariant 0 <= i <= |pts|
      invariant CutSoFar(pts, dts, i, cutPts, cutDts, excluded)
    {
      var missing;
      missing, cutPts, cutDts, excluded := CutEntry(pts, dts, i, cutPts, cutDts, excluded);
      if missing {
        CutMissing(pts, dts, i);
        return Err(IndexOutOfRange);
      }
      i := i + 1;
    }
    CutSoFarDone(pts, dts, cutPts, cutDts, excluded);
    return Ok((cutPts, cutDts, excluded));
  }

  /** A position is past the movie exactly when its time stamp is. */
  lemma PastMovieAt(pts: seq<real>, i: nat)
    requires i < |pts|
    ensures i in PastMovie(pts) <==> pts[i] > MaxMovieTime
  {
  }

  /** Kept and dropped entries of a prefix add up to its length. */
  lemma {:induction false} CutCountPrefix(pts: seq<real>, n: nat)
    requires n <= |pts|
    ensures |Without(pts[..n], PastMovie(pts))| + |IndicesAbove(pts[..n], MaxMovieTime)| == n
  {
    if n > 0 {
      var drop := PastMovie(pts);
      CutCountPrefix(pts, n - 1);
      WithoutPrefixStep(pts, drop, n);
      IndicesAbovePrefixStep(pts, MaxMovieTime, n);
      PastMovieAt(pts, n - 1);
    }
  }

  /**
   * What the trimming keeps: the kept presentation and CPU time stamps are
   * read at the same ascending positions, and every one is within the movie.
   */
  lemma {:induction false} CutKeepsMovie(pts: seq<real>, dts: seq<int>)
    requires Cut(pts, dts).Ok?
    ensures var (cp, cd, ex) := Cut(pts, dts).value;
            var p := Positions(|pts|, PastMovie(pts));
            |cp| == |cd| == |p| && Ascending(p) &&
            forall k :: 0 <= k < |cp| ==> p[k] < |pts| && p[k] < |dts| && cp[k] == pts[p[k]] && cd[k] == dts[p[k]] && cp[k] <= MaxMovieTime
  {
    var drop := PastMovie(pts);
    var m := Min(|pts|, |dts|);
    var d := dts[..m];
    WithoutAt(pts, drop);
    PositionsSpec(|pts|, drop);
    WithoutAt(d, drop);
    PositionsPrefix(|pts|, m, drop);
  }

  /**
   * What the trimming drops: the dropped positions ascend and are exactly
   * those past the movie, and kept and dropped together account for every
   * time stamp.
   */
  lemma {:induction false} CutDropsPastMovie(pts: seq<real>, dts: seq<int>)
    requires Cut(pts, dts).Ok?
    ensures var (cp, cd, ex) := Cut(pts, dts).value;
            |cp| + |ex| == |pts| && Ascending(ex) &&
            forall i :: 0 <= i < |pts| ==> (i in ex <==> pts[i] > MaxMovieTime)
  {
    assert pts[..|pts|] == pts;
    CutCountPrefix(pts, |pts|);
    var ex := IndicesAbove(pts, MaxMovieTime);
    forall i | 0 <= i < |pts| ensures i in ex <==> pts[i] > MaxMovieTime {
      if i in ex {
        var k :| 0 <= k < |ex| && ex[k] == i;
      }
    }
  }

  /**
   * The positions below `m` that are kept are all the kept positions below
   * `n` when every position from `m` to `n` is dropped.
   */
  lemma {:induction false} PositionsPrefix(n: nat, m: nat, drop: set<int>)
    requires m <= n && forall i :: m <= i < n ==> i in drop
    ensures Positions(m, drop) == Positions(n, drop)
    decreases n
  {
    if n > m {
      PositionsPrefix(n - 1, m, drop);
    }
  }

  // ------------------------------------------------------ start and end time

  /** The last line starting with `pts` among the first `n`, searched from the end. */
  function LastPtsLine(lines: seq<string>, n: nat): (k: Option<nat>)
    requires n <= |lines|
    ensures k.Some? ==> k.value < n
  {
    if n == 0 then None
    else if StartsWith(lines[n - 1], "pts") then Some(n - 1)
    else LastPtsLine(lines, n - 1)
  }

  /** The search finds the last line starting with `pts`, and nothing when there is none. */
  lemma {:induction false} LastPtsLineSpec(lines: seq<string>, n: nat)
    requires n <= |lines|
    ensures LastPtsLine(lines, n).Some? ==>
              StartsWith(lines[LastPtsLine(lines, n).value], "pts") &&
              forall j :: LastPtsLine(lines, n).value < j < n ==> !StartsWith(lines[j], "pts")
    ensures LastPtsLine(lines, n).None? <==> forall j :: 0 <= j < n ==> !StartsWith(lines[j], "pts")
  {
    if n > 0 && !StartsWith(lines[n - 1], "pts") {
      LastPtsLineSpec(lines, n - 1);
    }
  }

  /** `int(x / 1000)`: a thousandth of `x`, truncated toward zero. */
  function Thousandth(x: int): (r: int)
    ensures x >= 0 ==> r == x / 1000
    ensures x < 0 ==> r == -((-x) / 1000)
  {
    Trunc(x as real / 1000.0)
  }

  /** The CPU time of a log line (its last field) in thousandths, or why it has none. */
  function LineCpuTime(line: string): Result<int>
  {
    var toks := Fields(line);
    if toks == [] then Err(IndexOutOfRange)
    else
      match ParseInt(toks[|toks| - 1])
      case None => Err(ParseError)
      case Some(v) => Ok(Thousandth(v))
  }

  /**
   * `extract_start_and_end_time`: the CPU time of the second line and of the
   * last line starting with `pts`; an IndexError when there is no second
   * line, no `pts` line or a line without fields, a ValueError when the last
   * field is not an integer.
   */
  function StartAndEnd(lines: seq<string>): Result<(int, int)>
  {
    if |lines| < 2 then Err(IndexOutOfRange)
    else
      match LastPtsLine(lines, |lines|)
      case None => Err(IndexOutOfRange)
      case Some(k) =>
        var start :- LineCpuTime(lines[1]);
        var end :- LineCpuTime(lines[k]);
        Ok((start, end))
  }

  /** A line ending in the integer `v` has the CPU time `v` thousandths, truncated. */
  lemma {:induction false} LineCpuTimeOf(toks: seq<string>, v: int)
    requires forall k :: 0 <= k < |toks| ==> |toks[k]| > 0 && NoSpace(toks[k])
    ensures LineCpuTime(JoinBlank(toks + [IntToString(v)])) == Ok(Thousandth(v))
  {
    var all := toks + [IntToString(v)];
    IntToStringWord(v);
    forall k | 0 <= k < |all| ensures |all[k]| > 0 && NoSpace(all[k]) {
      if k < |toks| { assert all[k] == toks[k]; }
    }
    FieldsOfJoinBlank(all);
    ParseIntToString(v);
  }

  /**
   * `extract_start_and_end_time`, with the backward `while` loop of the
   * source.  (The source's loop goes on through negative indices, which
   * revisit the same lines, before failing with an IndexError; stopping
   * below the first line gives the same outcome.)
   */
  method ExtractStartAndEndTime(lines: seq<string>) returns (r: Result<(int, int)>)
    ensures r == StartAndEnd(lines)
  {
    if |lines| < 2 {
      return Err(IndexOutOfRange);
    }
    var firstLine := lines[1];
    var i := |lines| - 1;
    while i >= 0 && !StartsWith(lines[i], "pts")
      invariant -1 <= i < |lines|
      invariant LastPtsLine(lines, |lines|) == LastPtsLine(lines, i + 1)
    {
      i := i - 1;
    }
    if i < 0 {
      return Err(IndexOutOfRange);
    }
    var lastLine := lines[i];
    var start := LineCpuTime(firstLine);
    if start.Err? {
      return Err(start.error);
    }
    var end := LineCpuTime(lastLine);
    if end.Err? {
      return Err(end.error);
    }
    return Ok((start.value, end.value));
  }

  // ------------------------------------------------ time stamps of the log

  /** `round(x, 2)`: to hundredths, ties to even. */
  function Round2(x: real): (r: real)
    ensures x - 0.005 <= r <= x + 0.005
  {
    RoundHalfEven(x * 100.0) as real / 100.0
  }

  /** Rounding to hundredths twice is rounding once. */
  lemma {:induction false} Round2Idempotent(x: real)
    ensures Round2(Round2(x)) == Round2(x)
  {
    var n := RoundHalfEven(x * 100.0);
    assert Round2(x) * 100.0 == n as real;
    assert RoundHalfEven(n as real) == n;
  }

  function RoundAll(s: seq<real>): (r: seq<real>)
    ensures |r| == |s| && forall k :: 0 <= k < |s| ==> r[k] == Round2(s[k])
  {
    seq(|s|, k requires 0 <= k < |s| => Round2(s[k]))
  }

  /** Rounding a list grown by one entry grows its rounding by that entry rounded. */
  lemma RoundAllSnoc(s: seq<real>, x: real)
    ensures RoundAll(s + [x]) == RoundAll(s) + [Round2(x)]
  {
  }

  /**
   * `get_times_from_watch_log`: after the header line, the second field
   * (rounded to hundredths) and the fourth field of every four-field line,
   * trimmed to the movie; a ValueError when such a line does not parse.
   */
  function TimesFromWatchLog(lines: seq<string>, parseFloat: string -> Option<real>): Result<(seq<real>, seq<int>, seq<nat>)>
  {
    var (pts, time) :- Watchlog(lines, parseFloat);
    Cut(RoundAll(pts), time)
  }

  /** `get_times_from_watch_log`, with the loop of the source. */
  method GetTimesFromWatchLog(lines: seq<string>, parseFloat: string -> Option<real>) returns (r: Result<(seq<real>, seq<int>, seq<nat>)>)
    ensures r == TimesFromWatchLog(lines, parseFloat)
  {
    var body := SliceFrom(lines, 1);
    var pts: seq<real> := [];
    ghost var raw: seq<real> := [];
    var time: seq<int> := [];
    var i := 0;
    while i < |body|
      invariant 0 <= i <= |body|
      invariant WatchlogParsed(FourFieldLines(body[..i]), parseFloat, raw, time)
      invariant pts == RoundAll(raw)
    {
      var fields := Fields(body[i]);
      assert body[..i + 1] == body[..i] + [body[i]];
      FourFieldLinesSnoc(body[..i], body[i]);
      if |fields| == 4 {
        var p := parseFloat(fields[1]);
        if p.None? {
          WatchlogFailsAt(body, i, parseFloat);
          assert Watchlog(lines, parseFloat) == Err(ParseError);
          return Err(ParseError);
        }
        var t := ParseInt(fields[3]);
        if t.None? {
          WatchlogFailsAt(body, i, parseFloat);
          assert Watchlog(lines, parseFloat) == Err(ParseError);
          return Err(ParseError);
        }
        WatchlogParsedSnoc(FourFieldLines(body[..i]), fields, parseFloat, raw, time);
        RoundAllSnoc(raw, p.value);
        pts := pts + [Round2(p.value)];
        raw := raw + [p.value];
        time := time + [t.value];
      }
      i := i + 1;
    }
    assert body[..i] == body;
    WatchlogParsedAll(lines, parseFloat, raw, time);
    assert TimesFromWatchLog(lines, parseFloat) == Cut(pts, time);
    r := CutTimeToMoviePts(pts, time);
  }

  /**
   * Every data line gives a time stamp and a CPU time, so the trimming never
   * lacks one: the kept time stamps, rounded and within the movie, come with
   * as many CPU times, and kept and dropped account for every data line.
   */
  lemma {:induction false} TimesFromWatchLogAligned(lines: seq<string>, parseFloat: string -> Option<real>)
    requires Watchlog(lines, parseFloat).Ok?
    ensures TimesFromWatchLog(lines, parseFloat).Ok?
    ensures var (pts, time) := Watchlog(lines, parseFloat).value;
            var (cp, cd, ex) := TimesFromWatchLog(lines, parseFloat).value;
            |cp| == |cd| && |cp| + |ex| == |pts| &&
            forall k :: 0 <= k < |cp| ==> cp[k] <= MaxMovieTime && Round2(cp[k]) == cp[k]
  {
    var (pts, time) := Watchlog(lines, parseFloat).value;
    var rp := RoundAll(pts);
    assert !MissingCpuTime(rp, time);
    CutKeepsMovie(rp, time);
    CutDropsPastMovie(rp, time);
    var cp := Cut(rp, time).value.0;
    var p := Positions(|rp|, PastMovie(rp));
    forall k | 0 <= k < |cp| ensures Round2(cp[k]) == cp[k] {
      Round2Idempotent(pts[p[k]]);
    }
  }

  /** `int(x / 1000)` of every CPU time stamp. */
  function Seconds(ts: seq<int>): (r: seq<int>)
    ensures |r| == |ts| && forall k :: 0 <= k < |ts| ==> r[k] == Thousandth(ts[k])
  {
    seq(|ts|, k requires 0 <= k < |ts| => Thousandth(ts[k]))
  }

  // --------------------------------------------------------------- the log

  /** A parsed watch log, with the fields `__init__` sets. */
  class WatchLog {
    var watchLogFile: string
    var startTime: int
    var endTime: int
    var duration: int
    var ptsTimeStamps: seq<real>
    var dtsTimeStamps: seq<int>
    var excludedIndices: seq<nat>
    /** The rows of the `pts` / `cpu_time` table, in the order of the log. */
    var dfPtsCpu: seq<(real, int)>

    /** The fields of a log whose start and end and whose time stamps were read. */
    constructor (path: string, start: int, end: int, pts: seq<real>, dts: seq<int>, excluded: seq<nat>)
      requires |pts| == |dts|
      ensures watchLogFile == path && startTime == start && endTime == end && duration == end - start
      ensures ptsTimeStamps == pts && dtsTimeStamps == Seconds(dts) && excludedIndices == excluded
      ensures |dfPtsCpu| == |pts| && forall k :: 0 <= k < |pts| ==> dfPtsCpu[k] == (pts[k], Thousandth(dts[k]))
    {
      watchLogFile := path;
      startTime := start;
      endTime := end;
      duration := end - start;
      ptsTimeStamps := pts;
      excludedIndices := excluded;
      var seconds := Seconds(dts);
      dtsTimeStamps := seconds;
      dfPtsCpu := seq(|pts|, k requires 0 <= k < |pts| => (pts[k], seconds[k]));
    }

    /**
     * `WatchLog(path)`: the start and end time, the trimmed time stamps with
     * the CPU times in thousandths, truncated, and the table of both (the
     * source sorts a copy of it by CPU time and drops the copy, so the rows
     * stay in log order); the error of the first step that fails.
     */
    static method Open(path: string, lines: seq<string>, parseFloat: string -> Option<real>) returns (r: Result<WatchLog>)
      ensures r.Err? <==> StartAndEnd(lines).Err? || TimesFromWatchLog(lines, parseFloat).Err?
      ensures r.Ok? ==>
                var (start, end) := StartAndEnd(lines).value;
                var (pts, dts, ex) := TimesFromWatchLog(lines, parseFloat).value;
                fresh(r.value) && r.value.watchLogFile == path &&
                r.value.startTime == start && r.value.endTime == end && r.value.duration == end - start &&
                r.value.ptsTimeStamps == pts && r.value.dtsTimeStamps == Seconds(dts) && r.value.excludedIndices == ex &&
                |dts| == |pts| && |r.value.dfPtsCpu| == |pts| &&
                forall k :: 0 <= k < |pts| ==> r.value.dfPtsCpu[k] == (pts[k], Thousandth(dts[k]))
    {
      var se := ExtractStartAndEndTime(lines);
      if se.Err? {
        return Err(se.error);
      }
      var times := GetTimesFromWatchLog(lines, parseFloat);
      if times.Err? {
        return Err(times.error);
      }
      var (pts, dts, ex) := times.value;
      TimesFromWatchLogAligned(lines, parseFloat);
      var w := new WatchLog(path, se.value.0, se.value.1, pts, dts, ex);
      return Ok(w);
    }

    function GetStartTime(): int
      reads this
    {
      startTime
    }

    function GetEndTime(): int
      reads this
    {
      endTime
    }

    /** `_set_start_time`: only the start time changes; the duration is not recomputed. */
    method SetStartTime(newStartTime: int)
      modifies this
      ensures startTime == newStartTime
      ensures endTime == old(endTime) && duration == old(duration) && watchLogFile == old(watchLogFile)
      ensures ptsTimeStamps == old(ptsTimeStamps) && dtsTimeStamps == old(dtsTimeStamps)
      ensures excludedIndices == old(excludedIndices) && dfPtsCpu == old(dfPtsCpu)
    {
      startTime := newStartTime;
    }

    /** `_set_end_time`: only the end time changes; the duration is not recomputed. */
    method SetEndTime(newEndTime: int)
      modifies this
      ensures endTime == newEndTime
      ensures startTime == old(startTime) && duration == old(duration) && watchLogFile == old(watchLogFile)
      ensures ptsTimeStamps == old(ptsTimeStamps) && dtsTimeStamps == old(dtsTimeStamps)
      ensures excludedIndices == old(excludedIndices) && dfPtsCpu == old(dfPtsCpu)
    {
      endTime := newEndTime;
    }
  }
}
