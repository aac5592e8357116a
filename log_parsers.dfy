/**
 * The text logs written by the stimulus computer, read line by line.
 *
 *  - The watchlog has a header line and then `pts <seconds> time <µs>`
 *    lines; pauses show up as lines whose first word contains "Pausing",
 *    "Continuing" or "Properly".
 *  - The DAQ log has three header lines and then `<code> <label> <pre µs>
 *    <post µs>` lines, one per TTL code sent.
 *
 * Lines are the file's lines (already split at line breaks); a line's fields
 * are its whitespace-separated words.  Lines with a different number of
 * fields are skipped, but a field that does not parse ends the read with an
 * error.  How a decimal word becomes a float is not modelled: it is the
 * parameter `parseFloat`.
 */
module LogParsers {
  import opened Common
  import opened Text

  /** The fields of every line that has exactly four of them, in order. */
  function FourFieldLines(lines: seq<string>): (fs: seq<seq<string>>)
    ensures forall k :: 0 <= k < |fs| ==> |fs[k]| == 4
  {
    if lines == [] then []
    else
      var f := Fields(lines[|lines| - 1]);
      FourFieldLines(lines[..|lines| - 1]) + (if |f| == 4 then [f] else [])
  }

  lemma {:induction false} FourFieldLinesAppend(a: seq<string>, b: seq<string>)
    ensures FourFieldLines(a + b) == FourFieldLines(a) + FourFieldLines(b)
    decreases |b|
  {
    if b == [] {
      assert a + b == a;
    } else {
      assert (a + b)[..|a + b| - 1] == a + b[..|b| - 1];
      FourFieldLinesAppend(a, b[..|b| - 1]);
    }
  }

  lemma {:induction false} FourFieldLinesSnoc(a: seq<string>, line: string)
    ensures FourFieldLines(a + [line]) == FourFieldLines(a) + (if |Fields(line)| == 4 then [Fields(line)] else [])
  {
    assert (a + [line])[..|a + [line]| - 1] == a;
  }

  // -------------------------------------------------------------- watchlog

  /** The data lines of a watchlog: after the header line, those with four fields. */
  function WatchlogData(lines: seq<string>): seq<seq<string>>
  {
    FourFieldLines(SliceFrom(lines, 1))
  }

  predicate WatchlogParses(fs: seq<seq<string>>, parseFloat: string -> Option<real>)
    requires forall k :: 0 <= k < |fs| ==> |fs[k]| == 4
  {
    forall k :: 0 <= k < |fs| ==> parseFloat(fs[k][1]).Some? && ParseInt(fs[k][3]).Some?
  }

  /**
   * What `read_watchlog` returns: the presentation time stamp (second field)
   * and the CPU time (fourth field) of every data line, or a parse error.
   */
  function Watchlog(lines: seq<string>, parseFloat: string -> Option<real>): (r: Result<(seq<real>, seq<int>)>)
    ensures r.Ok? ==> |r.value.0| == |r.value.1| == |WatchlogData(lines)|
  {
    var fs := WatchlogData(lines);
    if WatchlogParses(fs, parseFloat) then
      Ok((seq(|fs|, k requires 0 <= k < |fs| => parseFloat(fs[k][1]).value),
          seq(|fs|, k requires 0 <= k < |fs| => ParseInt(fs[k][3]).value)))
    else Err(ParseError)
  }

  /** `pts` and `time` hold the parsed fields of the data lines `fs`. */
  predicate WatchlogParsed(fs: seq<seq<string>>, parseFloat: string -> Option<real>, pts: seq<real>, time: seq<int>)
    requires forall k :: 0 <= k < |fs| ==> |fs[k]| == 4
  {
    WatchlogParses(fs, parseFloat) && |pts| == |time| == |fs|
    && (forall k :: 0 <= k < |fs| ==> pts[k] == parseFloat(fs[k][1]).value && time[k] == ParseInt(fs[k][3]).value)
  }

  lemma {:induction false} WatchlogParsedSnoc(fs: seq<seq<string>>, f: seq<string>, parseFloat: string -> Option<real>,
                           pts: seq<real>, time: seq<int>)
    requires forall k :: 0 <= k < |fs| ==> |fs[k]| == 4
    requires |f| == 4 && parseFloat(f[1]).Some? && ParseInt(f[3]).Some?
    requires WatchlogParsed(fs, parseFloat, pts, time)
    ensures WatchlogParsed(fs + [f], parseFloat, pts + [parseFloat(f[1]).value], time + [ParseInt(f[3]).value])
  {
  }

  lemma {:induction false} WatchlogParsedAll(lines: seq<string>, parseFloat: string -> Option<real>, pts: seq<real>, time: seq<int>)
    requires WatchlogParsed(WatchlogData(lines), parseFloat, pts, time)
    ensures Watchlog(lines, parseFloat) == Ok((pts, time))
  {
    var fs := WatchlogData(lines);
    var a := seq(|fs|, k requires 0 <= k < |fs| => parseFloat(fs[k][1]).value);
    var b := seq(|fs|, k requires 0 <= k < |fs| => ParseInt(fs[k][3]).value);
    assert a == pts;
    assert b == time;
  }

  /** A data line that does not parse makes the whole read fail. */
  lemma {:induction false} WatchlogFailsAt(body: seq<string>, i: nat, parseFloat: string -> Option<real>)
    requires i < |body|
    requires var f := Fields(body[i]); |f| == 4 && (parseFloat(f[1]).None? || ParseInt(f[3]).None?)
    ensures !WatchlogParses(FourFieldLines(body), parseFloat)
  {
    var f := Fields(body[i]);
    assert body[..i + 1] == body[..i] + [body[i]];
    FourFieldLinesSnoc(body[..i], body[i]);
    FourFieldLinesAppend(body[..i + 1], body[i + 1..]);
    assert body[..i + 1] + body[i + 1..] == body;
    assert FourFieldLines(body)[|FourFieldLines(body[..i])|] == f;
  }

  /** A data line of a watchlog whose time stamp or CPU time does not parse makes `read_watchlog` fail. */
  lemma {:induction false} WatchlogFailsOn(lines: seq<string>, i: nat, parseFloat: string -> Option<real>)
    requires 1 <= i < |lines|
    requires var f := Fields(lines[i]); |f| == 4 && (parseFloat(f[1]).None? || ParseInt(f[3]).None?)
    ensures Watchlog(lines, parseFloat) == Err(ParseError)
  {
    var body := SliceFrom(lines, 1);
    assert body == lines[1..];
    assert body[i - 1] == lines[i];
    WatchlogFailsAt(body, i - 1, parseFloat);
  }

  /** `read_watchlog`. */
  method ReadWatchlog(lines: seq<string>, parseFloat: string -> Option<real>) returns (r: Result<(seq<real>, seq<int>)>)
    ensures r == Watchlog(lines, parseFloat)
  {
    var body := SliceFrom(lines, 1);
    var pts: seq<real> := [];
    var time: seq<int> := [];
    var i := 0;
    while i < |body|
      invariant 0 <= i <= |body|
      invariant WatchlogParsed(FourFieldLines(body[..i]), parseFloat, pts, time)
    {
      var fields := Fields(body[i]);
      assert body[..i + 1] == body[..i] + [body[i]];
      FourFieldLinesSnoc(body[..i], body[i]);
      if |fields| == 4 {
        var p := parseFloat(fields[1]);
        var t := ParseInt(fields[3]);
        if p.None? || t.None? {
          WatchlogFailsAt(body, i, parseFloat);
          return Err(ParseError);
        }
        WatchlogParsedSnoc(FourFieldLines(body[..i]), fields, parseFloat, pts, time);
        pts := pts + [p.value];
        time := time + [t.value];
      }
      i := i + 1;
    }
    assert body[..i] == body;
    WatchlogParsedAll(lines, parseFloat, pts, time);
    return Ok((pts, time));
  }

  // --------------------------------------------------------------- DAQ log

  /** The data lines of a DAQ log: after three header lines, those with four fields. */
  function DaqlogData(lines: seq<string>): seq<seq<string>>
  {
    FourFieldLines(SliceFrom(lines, 3))
  }

  predicate DaqlogParses(fs: seq<seq<string>>)
    requires forall k :: 0 <= k < |fs| ==> |fs[k]| == 4
  {
    forall k :: 0 <= k < |fs| ==> ParseInt(fs[k][0]).Some? && ParseInt(fs[k][2]).Some? && ParseInt(fs[k][3]).Some?
  }

  datatype DaqRows = DaqRows(values: seq<int>, preTimes: seq<int>, postTimes: seq<int>)

  /**
   * What `read_daqlog` returns: the TTL code (first field) and the CPU times
   * just before and after sending it (third and fourth field) of every data
   * line, or a parse error.
   */
  function Daqlog(lines: seq<string>): (r: Result<DaqRows>)
    ensures r.Ok? ==> |r.value.values| == |r.value.preTimes| == |r.value.postTimes| == |DaqlogData(lines)|
  {
    var fs := DaqlogData(lines);
    if DaqlogParses(fs) then
      Ok(DaqRows(seq(|fs|, k requires 0 <= k < |fs| => ParseInt(fs[k][0]).value),
                 seq(|fs|, k requires 0 <= k < |fs| => ParseInt(fs[k][2]).value),
                 seq(|fs|, k requires 0 <= k < |fs| => ParseInt(fs[k][3]).value)))
    else Err(ParseError)
  }

  /** The three columns hold the parsed fields of the data lines `fs`. */
  predicate DaqlogParsed(fs: seq<seq<string>>, rows: DaqRows)
    requires forall k :: 0 <= k < |fs| ==> |fs[k]| == 4
  {
    DaqlogParses(fs) && |rows.values| == |rows.preTimes| == |rows.postTimes| == |fs|
    && (forall k :: 0 <= k < |fs| ==>
          rows.values[k] == ParseInt(fs[k][0]).value && rows.preTimes[k] == ParseInt(fs[k][2]).value
          && rows.postTimes[k] == ParseInt(fs[k][3]).value)
  }

  lemma {:induction false} DaqlogParsedSnoc(fs: seq<seq<string>>, f: seq<string>, rows: DaqRows)
    requires forall k :: 0 <= k < |fs| ==> |fs[k]| == 4
    requires |f| == 4 && ParseInt(f[0]).Some? && ParseInt(f[2]).Some? && ParseInt(f[3]).Some?
    requires DaqlogParsed(fs, rows)
    ensures DaqlogParsed(fs + [f], DaqRows(rows.values + [ParseInt(f[0]).value], rows.preTimes + [ParseInt(f[2]).value],
                                          rows.postTimes + [ParseInt(f[3]).value]))
  {
  }

  lemma {:induction false} DaqlogParsedAll(lines: seq<string>, rows: DaqRows)
    requires DaqlogParsed(DaqlogData(lines), rows)
    ensures Daqlog(lines) == Ok(rows)
  {
    var fs := DaqlogData(lines);
    var v := seq(|fs|, k requires 0 <= k < |fs| => ParseInt(fs[k][0]).value);
    var a := seq(|fs|, k requires 0 <= k < |fs| => ParseInt(fs[k][2]).value);
    var b := seq(|fs|, k requires 0 <= k < |fs| => ParseInt(fs[k][3]).value);
    assert v == rows.values && a == rows.preTimes && b == rows.postTimes;
  }

  lemma {:induction false} DaqlogFailsAt(body: seq<string>, i: nat)
    requires i < |body|
    requires var f := Fields(body[i]); |f| == 4 && (ParseInt(f[0]).None? || ParseInt(f[2]).None? || ParseInt(f[3]).None?)
    ensures !DaqlogParses(FourFieldLines(body))
  {
    var f := Fields(body[i]);
    assert body[..i + 1] == body[..i] + [body[i]];
    FourFieldLinesSnoc(body[..i], body[i]);
    FourFieldLinesAppend(body[..i + 1], body[i + 1..]);
    assert body[..i + 1] + body[i + 1..] == body;
    assert FourFieldLines(body)[|FourFieldLines(body[..i])|] == f;
  }

  /** A data line of a DAQ log whose code or times do not parse makes `read_daqlog` fail. */
  lemma {:induction false} DaqlogFailsOn(lines: seq<string>, i: nat)
    requires 3 <= i < |lines|
    requires var f := Fields(lines[i]); |f| == 4 && (ParseInt(f[0]).None? || ParseInt(f[2]).None? || ParseInt(f[3]).None?)
    ensures Daqlog(lines) == Err(ParseError)
  {
    var body := SliceFrom(lines, 3);
    assert body == lines[3..];
    assert body[i - 3] == lines[i];
    DaqlogFailsAt(body, i - 3);
  }

  /** `read_daqlog`. */
  method ReadDaqlog(lines: seq<string>) returns (r: Result<DaqRows>)
    ensures r == Daqlog(lines)
  {
    var body := SliceFrom(lines, 3);
    var rows := DaqRows([], [], []);
    var i := 0;
    while i < |body|
      invariant 0 <= i <= |body|
      invariant DaqlogParsed(FourFieldLines(body[..i]), rows)
    {
      var fields := Fields(body[i]);
      assert body[..i + 1] == body[..i] + [body[i]];
      FourFieldLinesSnoc(body[..i], body[i]);
      if |fields| == 4 {
        var v := ParseInt(fields[0]);
        var a := ParseInt(fields[2]);
        var b := ParseInt(fields[3]);
        if v.None? || a.None? || b.None? {
          DaqlogFailsAt(body, i);
          return Err(ParseError);
        }
        DaqlogParsedSnoc(FourFieldLines(body[..i]), fields, rows);
        rows := DaqRows(rows.values + [v.value], rows.preTimes + [a.value], rows.postTimes + [b.value]);
      }
      i := i + 1;
    }
    assert body[..i] == body;
    DaqlogParsedAll(lines, rows);
    return Ok(rows);
  }

  // ---------------------------------------------------------------- pauses

  /** Python's `lines[j]`: negative positions count from the end, others must exist. */
  function LineAt(lines: seq<string>, j: int): Result<string>
  {
    if -|lines| <= j < 0 then Ok(lines[j + |lines|])
    else if 0 <= j < |lines| then Ok(lines[j])
    else Err(IndexOutOfRange)
  }

  /** The fourth field of line `j` as an integer (the CPU time of a `pts` line). */
  function TimeOfLine(lines: seq<string>, j: int): Result<int>
  {
    var line :- LineAt(lines, j);
    var f := Fields(line);
    if |f| < 4 then Err(IndexOutOfRange)
    else match ParseInt(f[3])
      case None => Err(ParseError)
      case Some(t) => Ok(t)
  }

  datatype PauseTimes = PauseTimes(starts: seq<int>, stops: seq<int>)

  /**
   * Line `i` of `read_watchlog_pauses`: a first word containing "Pausing"
   * records the time of the line before it as a pause start; "Continuing"
   * records the time of the line after it as a pause stop; "Properly" (the
   * player quit) records the time three lines back as a stop.  An empty line
   * has no first word and ends the read.
   */
  function PauseLine(lines: seq<string>, i: nat, acc: PauseTimes): Result<PauseTimes>
    requires i < |lines|
  {
    var f := Fields(lines[i]);
    if |f| == 0 then Err(IndexOutOfRange)
    else
      var first := f[0];
      var afterPausing :-
        if Contains(first, "Pausing") then
          var t :- TimeOfLine(lines, i - 1); Ok(acc.(starts := acc.starts + [t]))
        else Ok(acc);
      var afterContinuing :-
        if Contains(first, "Continuing") then
          var t :- TimeOfLine(lines, i + 1); Ok(afterPausing.(stops := afterPausing.stops + [t]))
        else Ok(afterPausing);
      if Contains(first, "Properly") then
        var t :- TimeOfLine(lines, i - 3); Ok(afterContinuing.(stops := afterContinuing.stops + [t]))
      else Ok(afterContinuing)
  }

  /** The pauses found in the first `n` lines. */
  function Pauses(lines: seq<string>, n: nat): Result<PauseTimes>
    requires n <= |lines|
  {
    if n == 0 then Ok(PauseTimes([], []))
    else
      var acc :- Pauses(lines, n - 1);
      PauseLine(lines, n - 1, acc)
  }

  /** How many of the first `n` lines have a first word containing `word`. */
  function CountMarked(lines: seq<string>, n: nat, word: string): nat
    requires n <= |lines|
  {
    if n == 0 then 0
    else
      var f := Fields(lines[n - 1]);
      CountMarked(lines, n - 1, word) + (if |f| > 0 && Contains(f[0], word) then 1 else 0)
  }

  /**
   * On success, the read has recorded one start per "Pausing" line and one
   * stop per "Continuing" or "Properly" line, and no line was empty.
   */
  lemma {:induction false} PauseCounts(lines: seq<string>, n: nat)
    requires n <= |lines|
    ensures Pauses(lines, n).Ok? ==>
      |Pauses(lines, n).value.starts| == CountMarked(lines, n, "Pausing")
      && |Pauses(lines, n).value.stops| == CountMarked(lines, n, "Continuing") + CountMarked(lines, n, "Properly")
    ensures Pauses(lines, n).Ok? ==> forall j :: 0 <= j < n ==> |Fields(lines[j])| > 0
  {
    if n > 0 {
      PauseCounts(lines, n - 1);
      if Pauses(lines, n).Ok? {
        PauseCountsStep(lines, n);
      }
    }
  }

  /** The counts and the non-empty lines extend from `n - 1` lines to `n`. */
  lemma {:induction false} PauseCountsStep(lines: seq<string>, n: nat)
    requires 0 < n <= |lines| && Pauses(lines, n).Ok?
    requires |Pauses(lines, n - 1).value.starts| == CountMarked(lines, n - 1, "Pausing")
    requires |Pauses(lines, n - 1).value.stops| == CountMarked(lines, n - 1, "Continuing") + CountMarked(lines, n - 1, "Properly")
    requires forall j :: 0 <= j < n - 1 ==> |Fields(lines[j])| > 0
    ensures |Pauses(lines, n).value.starts| == CountMarked(lines, n, "Pausing")
    ensures |Pauses(lines, n).value.stops| == CountMarked(lines, n, "Continuing") + CountMarked(lines, n, "Properly")
    ensures forall j :: 0 <= j < n ==> |Fields(lines[j])| > 0
  {
    PauseLineCounts(lines, n - 1, Pauses(lines, n - 1).value);
  }

  /** One line adds a start when it is marked "Pausing" and a stop for each of "Continuing" and "Properly", and must not be empty. */
  lemma {:induction false} PauseLineCounts(lines: seq<string>, i: nat, acc: PauseTimes)
    requires i < |lines|
    ensures PauseLine(lines, i, acc).Ok? ==>
      var f := Fields(lines[i]);
      var r := PauseLine(lines, i, acc).value;
      |f| > 0
      && |r.starts| == |acc.starts| + (if Contains(f[0], "Pausing") then 1 else 0)
      && |r.stops| == |acc.stops| + (if Contains(f[0], "Continuing") then 1 else 0) + (if Contains(f[0], "Properly") then 1 else 0)
  {
  }

  /** `read_watchlog_pauses`. */
  method ReadWatchlogPauses(lines: seq<string>) returns (r: Result<PauseTimes>)
    ensures r == Pauses(lines, |lines|)
  {
    var starts: seq<int> := [];
    var stops: seq<int> := [];
    var i := 0;
    while i < |lines|
      invariant 0 <= i <= |lines|
      invariant Pauses(lines, i) == Ok(PauseTimes(starts, stops))
    {
      ghost var acc := PauseTimes(starts, stops);
      assert Pauses(lines, i + 1) == PauseLine(lines, i, acc);
      var fields := Fields(lines[i]);
      if |fields| == 0 {
        r := Err(IndexOutOfRange);
        assert Pauses(lines, i + 1) == r;
        PausesStayFailed(lines, i + 1, |lines|);
        return;
      }
      var first := fields[0];
      if Contains(first, "Pausing") {
        var t := TimeOfLine(lines, i - 1);
        if t.Err? {
          r := Err(t.error);
          assert Pauses(lines, i + 1) == r;
          PausesStayFailed(lines, i + 1, |lines|);
          return;
        }
        starts := starts + [t.value];
      }
      ghost var afterPausing := PauseTimes(starts, stops);
      if Contains(first, "Continuing") {
        var t := TimeOfLine(lines, i + 1);
        if t.Err? {
          r := Err(t.error);
          assert Pauses(lines, i + 1) == r;
          PausesStayFailed(lines, i + 1, |lines|);
          return;
        }
        stops := stops + [t.value];
      }
      ghost var afterContinuing := PauseTimes(starts, stops);
      if Contains(first, "Properly") {
        var t := TimeOfLine(lines, i - 3);
        if t.Err? {
          r := Err(t.error);
          assert Pauses(lines, i + 1) == r;
          PausesStayFailed(lines, i + 1, |lines|);
          return;
        }
        stops := stops + [t.value];
      }
      assert PauseLine(lines, i, acc) == Ok(PauseTimes(starts, stops));
      i := i + 1;
    }
    r := Ok(PauseTimes(starts, stops));
  }

  /** Once the read has failed, later lines do not matter. */
  lemma {:induction false} PausesStayFailed(lines: seq<string>, n: nat, m: nat)
    requires n <= m <= |lines| && Pauses(lines, n).Err?
    ensures Pauses(lines, m) == Pauses(lines, n)
    decreases m - n
  {
    if n < m {
      PausesStayFailed(lines, n, m - 1);
    }
  }

  /** The lines of a watchlog with one pause: header, two frames, the pause, one frame. */
  predicate OnePauseLog(lines: seq<string>)
  {
    |lines| == 6
    && Fields(lines[0]) == ["watchlog"]
    && Fields(lines[1]) == ["pts", "0.00", "time", "1000"]
    && Fields(lines[2]) == ["pts", "0.04", "time", NatToString(1041)]
    && Fields(lines[3]) == ["Pausing"]
    && Fields(lines[4]) == ["Continuing", "after", "pause"]
    && Fields(lines[5]) == ["pts", "0.08", "time", NatToString(5041000)]
  }

  /** The worked example: one pause, started at 1041 µs and ended at 5041000 µs. */
  lemma {:induction false} PauseExample(lines: seq<string>)
    requires OnePauseLog(lines)
    ensures Pauses(lines, 6) == Ok(PauseTimes([1041], [5041000]))
  {
    OnePauseHeader(lines);
    OnePauseStart(lines);
    OnePauseStop(lines);
    OnePauseEnd(lines);
  }

  lemma {:induction false} OnePauseHeader(lines: seq<string>)
    requires OnePauseLog(lines)
    ensures Pauses(lines, 3) == Ok(PauseTimes([], []))
  {
    WordsOfHeader();
    WordsOfFrame();
    assert Pauses(lines, 1) == Ok(PauseTimes([], []));
    assert Pauses(lines, 2) == Ok(PauseTimes([], []));
  }

  lemma {:induction false} OnePauseStart(lines: seq<string>)
    requires OnePauseLog(lines) && Pauses(lines, 3) == Ok(PauseTimes([], []))
    ensures Pauses(lines, 4) == Ok(PauseTimes([1041], []))
  {
    WordsOfPausing();
    ParseIntToString(1041);
    assert TimeOfLine(lines, 2) == Ok(1041);
    PauseLineMarked(lines, 3, PauseTimes([], []), 1041, true, false, false);
    assert [] + [1041] == [1041];
  }

  lemma {:induction false} OnePauseStop(lines: seq<string>)
    requires OnePauseLog(lines) && Pauses(lines, 4) == Ok(PauseTimes([1041], []))
    ensures Pauses(lines, 5) == Ok(PauseTimes([1041], [5041000]))
  {
    WordsOfContinuing();
    ParseIntToString(5041000);
    assert TimeOfLine(lines, 5) == Ok(5041000);
    PauseLineMarked(lines, 4, PauseTimes([1041], []), 5041000, false, true, false);
    assert [] + [5041000] == [5041000];
  }

  lemma {:induction false} OnePauseEnd(lines: seq<string>)
    requires OnePauseLog(lines) && Pauses(lines, 5) == Ok(PauseTimes([1041], [5041000]))
    ensures Pauses(lines, 6) == Ok(PauseTimes([1041], [5041000]))
  {
    WordsOfFrame();
  }

  lemma {:induction false} ExampleLogIsOnePauseLog()
    ensures OnePauseLog(ExampleLog())
  {
    ExampleLogFields();
  }

  /** A line whose first word carries exactly one marker adds the time it refers to. */
  lemma {:induction false} PauseLineMarked(lines: seq<string>, i: nat, acc: PauseTimes, t: int, pausing: bool, continuing: bool, properly: bool)
    requires i < |lines| && |Fields(lines[i])| > 0
    requires Contains(Fields(lines[i])[0], "Pausing") == pausing
    requires Contains(Fields(lines[i])[0], "Continuing") == continuing
    requires Contains(Fields(lines[i])[0], "Properly") == properly
    requires (if pausing then 1 else 0) + (if continuing then 1 else 0) + (if properly then 1 else 0) == 1
    requires pausing ==> TimeOfLine(lines, i - 1) == Ok(t)
    requires continuing ==> TimeOfLine(lines, i + 1) == Ok(t)
    requires properly ==> TimeOfLine(lines, i - 3) == Ok(t)
    ensures PauseLine(lines, i, acc) == Ok(if pausing then acc.(starts := acc.starts + [t]) else acc.(stops := acc.stops + [t]))
  {
  }

  /** A watchlog with one pause: header, two frames, the pause, one frame. */
  function ExampleLog(): seq<string>
  {
    [JoinBlank(["watchlog"]), JoinBlank(["pts", "0.00", "time", "1000"]), JoinBlank(["pts", "0.04", "time", NatToString(1041)]),
     JoinBlank(["Pausing"]), JoinBlank(["Continuing", "after", "pause"]), JoinBlank(["pts", "0.08", "time", NatToString(5041000)])]
  }

  lemma {:induction false} ExampleLogFields()
    ensures Fields(ExampleLog()[0]) == ["watchlog"]
    ensures Fields(ExampleLog()[1]) == ["pts", "0.00", "time", "1000"]
    ensures Fields(ExampleLog()[2]) == ["pts", "0.04", "time", NatToString(1041)]
    ensures Fields(ExampleLog()[3]) == ["Pausing"]
    ensures Fields(ExampleLog()[4]) == ["Continuing", "after", "pause"]
    ensures Fields(ExampleLog()[5]) == ["pts", "0.08", "time", NatToString(5041000)]
  {
    ExampleLogLines();
    FieldsOfLine0(); FieldsOfLine1(); FieldsOfLine2(); FieldsOfLine3(); FieldsOfLine4(); FieldsOfLine5();
  }

  lemma {:induction false} ExampleLogLines()
    ensures |ExampleLog()| == 6
    ensures ExampleLog()[0] == JoinBlank(["watchlog"]) && ExampleLog()[1] == JoinBlank(["pts", "0.00", "time", "1000"])
    ensures ExampleLog()[2] == JoinBlank(["pts", "0.04", "time", NatToString(1041)]) && ExampleLog()[3] == JoinBlank(["Pausing"])
    ensures ExampleLog()[4] == JoinBlank(["Continuing", "after", "pause"])
    ensures ExampleLog()[5] == JoinBlank(["pts", "0.08", "time", NatToString(5041000)])
  {
  }

  /** A line of one word has that word as its only field. */
  lemma {:induction false} OneWordFields(w: string)
    requires |w| > 0 && NoSpace(w)
    ensures Fields(JoinBlank([w])) == [w]
  {
    FieldsOfJoinBlank([w]);
  }

  lemma {:induction false} FieldsOfLine0() ensures Fields(JoinBlank(["watchlog"])) == ["watchlog"] { OneWordFields("watchlog"); }
  lemma {:induction false} FieldsOfLine1() ensures Fields(JoinBlank(["pts", "0.00", "time", "1000"])) == ["pts", "0.00", "time", "1000"]
  { FieldsOfJoinBlank(["pts", "0.00", "time", "1000"]); }
  lemma {:induction false} FieldsOfLine2() ensures Fields(JoinBlank(["pts", "0.04", "time", NatToString(1041)])) == ["pts", "0.04", "time", NatToString(1041)]
  { DigitsHaveNoSpace(NatToString(1041)); FieldsOfJoinBlank(["pts", "0.04", "time", NatToString(1041)]); }
  lemma {:induction false} FieldsOfLine3() ensures Fields(JoinBlank(["Pausing"])) == ["Pausing"] { OneWordFields("Pausing"); }
  lemma {:induction false} FieldsOfLine4() ensures Fields(JoinBlank(["Continuing", "after", "pause"])) == ["Continuing", "after", "pause"]
  { FieldsOfJoinBlank(["Continuing", "after", "pause"]); }
  lemma {:induction false} FieldsOfLine5() ensures Fields(JoinBlank(["pts", "0.08", "time", NatToString(5041000)])) == ["pts", "0.08", "time", NatToString(5041000)]
  { DigitsHaveNoSpace(NatToString(5041000)); FieldsOfJoinBlank(["pts", "0.08", "time", NatToString(5041000)]); }

  lemma {:induction false} WordsOfHeader()
    ensures !Contains("watchlog", "Pausing") && !Contains("watchlog", "Continuing") && !Contains("watchlog", "Properly")
  {
    ContainsFirstLetter("watchlog", "Pausing");
    ContainsTooLong("watchlog", "Continuing");
    ContainsFirstLetter("watchlog", "Properly");
  }

  lemma {:induction false} WordsOfFrame()
    ensures !Contains("pts", "Pausing") && !Contains("pts", "Continuing") && !Contains("pts", "Properly")
  {
    ContainsTooLong("pts", "Pausing");
    ContainsTooLong("pts", "Continuing");
    ContainsTooLong("pts", "Properly");
  }

  lemma {:induction false} WordsOfPausing()
    ensures Contains("Pausing", "Pausing") && !Contains("Pausing", "Continuing") && !Contains("Pausing", "Properly")
  {
    assert StartsWith("Pausing", "Pausing");
    ContainsTooLong("Pausing", "Continuing");
    ContainsTooLong("Pausing", "Properly");
  }

  lemma {:induction false} WordsOfContinuing()
    ensures !Contains("Continuing", "Pausing") && Contains("Continuing", "Continuing") && !Contains("Continuing", "Properly")
  {
    ContainsFirstLetter("Continuing", "Pausing");
    assert StartsWith("Continuing", "Continuing");
    ContainsFirstLetter("Continuing", "Properly");
  }
}
