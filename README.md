# Epiphyte clock alignment and segmentation, modelled in Dafny

Epiphyte prepares single-neuron recordings made while patients watch a movie.
The stimulus computer writes a watch log and a DAQ log, and the Neuralynx
system writes an event file with the TTL codes it received. This project models
the offline pipeline that brings these clocks together and cuts the data into
segments:

- `EventLog` (`event_log.dfy`) reads the 184-byte records of a Neuralynx event
  file. It keeps the movie-frame TTL codes, which cycle through 1, 2, 4, ...,
  128 with a release to 0 between codes, and finds the movie section between
  the 101 and 4/8 marker codes.
- `LogParsers` (`log_parsers.dfy`) reads the watch log, the DAQ log and the
  pause lines of the watch log.
- `ClockAlignment` (`clock_alignment.dfy`) checks the event codes against the
  DAQ codes. It fits `event_time = m * daq_post_time + b` by least squares and
  maps frame and pause CPU times through that line. It also cuts the mapped
  frame times at playback skips, where consecutive movie times jump by more
  than 1 s.
- `WatchLogs` (`watch_log.dfy`) is the `WatchLog` class. It holds a log's start
  and end time and its time stamps, trimmed to the movie's 5029 s.
- `Segments`, `Indicators` and `Labels` (`segments.dfy`, `indicators.dfy`,
  `labels.dfy`) convert between labels on a time axis and segment lists
  (values, starts, stops). This covers:
  - nearest-entry search;
  - the dominant value of a time frame;
  - the continuous-watch and start/stop indicator vectors;
  - run-length encoding of a label;
  - the Advene XML export and JSON import of label segments.
- `PauseHandling`, `Binning`, `ClipToCont` and `ArtifactVec` bin spike trains
  and labels against evenly spaced edges. Edges around pauses, spikes inside a
  pause and artifact bins are removed, and bins outside continuous watching
  are set aside.
- `Helpers` (`helpers.dfy`) holds the string helpers of the database layer
  (sort keys, file-name splitters, unit types) and the re-indexing of a label
  onto the frame order a patient watched.
- `Text`, `NdArray` and `Common` (`text.dfy`, `ndarray.dfy`, `common.dfy`) model
  the Python and NumPy operations these parts rely on:
  - `split`, slicing and `int()`;
  - `np.delete`, `np.where`, `argmin`, `np.linspace` and `np.histogram`;
  - `int()` and `round()` on a time stamp.

The repository has several copies of this pipeline that differ in small
details. The model tells them apart with `Common.Copy`:

| copy | source tree |
|---|---|
| `Packaged` | `src/epiphyte/` |
| `Legacy` | `preprocessing/`, `annotation/`, `database/` and `project/` |
| `Pilot` | `data_preprocessing/`, the oldest scripts |

Among the modelled files, `data_preprocessing/` has only `create_vectors_from_time_points.py` and `clip_to_cont.py`. `Pilot` changes behaviour only in the nearest-index search (`Segments.Target`) and in `Segments.ValueMatchingTimepoint`. Operations the Pilot copy does not have, such as `ProcessEvents`, `Convert`, `ConvertPauses` and the binning functions, accept `Pilot` and treat it like `Legacy`.

Where the copies behave alike, one member models all of them, and the table
cites each copy.

The model works on exact values:

- Times are exact reals.
- Reading a file is replaced by its lines or bytes, given as parameters.
- `float()` on a word is the parameter `parseFloat`.
- Every path that ends in a Python exception is an `Err` of `Common.Error`:
  - `IndexError` becomes `IndexOutOfRange`;
  - a failed unpacking becomes `FieldCountMismatch`;
  - `argmin` of an empty array becomes `EmptyReduction`;
  - the `-1` return for segments of different lengths becomes `LengthMismatch`.

Methods that keep the source's loops are proved to return what a
specification function states. The lemmas state the properties of those
functions.

## Model

| member | source | states |
|---|---|---|
| EventLog.RecordLayout | src/epiphyte/preprocessing/data_preprocessing/data_utils.py:16-23 | The six fields of an event record (6 pad, 8 timestamp, 2 id, 2 ttl, 38 pad, 128 string bytes) add up to 184 bytes, and the body starts after the 16384-byte header. |
| EventLog.LittleEndianRoundTrip | src/epiphyte/preprocessing/data_preprocessing/data_utils.py:18-23 | Writing a number below 256^k as k little-endian bytes and reading them back gives the number. |
| EventLog.DecodeRecord | src/epiphyte/preprocessing/data_preprocessing/data_utils.py:18-23 | One 184-byte record read through the dtype's fields is a well-formed record: timestamp below 2^64, id and ttl signed 16-bit values, and a 128-byte string. |
| EventLog.DecodeEncodeRecord | src/epiphyte/preprocessing/data_preprocessing/data_utils.py:18-23 | Decoding a written record gives it back, whatever the padding bytes hold. |
| EventLog.DecodeAllEncodeAll | src/epiphyte/preprocessing/data_preprocessing/data_utils.py:35-36 | Records written back to back form a whole number of records, and decoding them gives the records back in order. |
| EventLog.ReadEvents | src/epiphyte/preprocessing/data_preprocessing/data_utils.py:26-39 | Reading an event file succeeds exactly when it is longer than the header and its body is a whole number of records, and then yields one (timestamp, ttl) row per record; a header-only file is refused, as the memory map at the page-aligned 16384-byte offset has nothing to map. |
| EventLog.ReadEventsRoundTrip | src/epiphyte/preprocessing/data_preprocessing/data_utils.py:35-36 | A file made of any 16384-byte header followed by one or more well-formed records written back to back reads back as exactly those records' (timestamp, ttl) rows; the header alone is refused. |
| EventLog.CycleCodes | src/epiphyte/preprocessing/data_preprocessing/data_utils.py:66-80 | The awaited codes run through 1, 2, 4, ..., 128, each the double of the previous one, and 128 is followed by 1. |
| EventLog.ScanKeepsInvariant | src/epiphyte/preprocessing/data_preprocessing/data_utils.py:63-80 | After any prefix, the filter awaits either the release 0 (just after a kept code) or the next code of the cycle, and the rows kept so far are at ascending positions with cyclic codes and a release between consecutive ones. |
| EventLog.IgnoreStep | src/epiphyte/preprocessing/data_preprocessing/data_utils.py:66-67 | A row whose code is not the one awaited keeps the filter's invariant: same awaited code, same last code, same kept rows. |
| EventLog.KeepStep | src/epiphyte/preprocessing/data_preprocessing/data_utils.py:69-71 | Keeping the awaited movie code keeps the filter's invariant, the filter then awaiting the release 0. |
| EventLog.ReleaseStep | src/epiphyte/preprocessing/data_preprocessing/data_utils.py:73-80 | An awaited release keeps the filter's invariant, the filter then awaiting the next code of the cycle. |
| EventLog.MovieEventsFollowCycle | src/epiphyte/preprocessing/data_preprocessing/data_utils.py:59-82 | The kept rows sit at ascending positions of the input, their codes run 1, 2, 4, ..., 128, 1, ... from the first kept row on, and between two consecutive kept positions lies a row with code 0. |
| EventLog.ProcessMovieEvents | src/epiphyte/preprocessing/data_preprocessing/data_utils.py:52-82 | The loop over the rows returns exactly the rows the cyclic filter keeps. In preprocessing/data_preprocessing/data_utils.py, lines 34-59: the legacy copy runs the same filter. |
| EventLog.ProcessEventsOutcome | src/epiphyte/preprocessing/data_preprocessing/data_utils.py:85-111 | The session is accepted exactly when there are eight 101 markers, some 8 code and at least two 4 codes before the first 8, or, in the packaged copy, when neither 101 nor 0 occurs; four markers always fail; with 101 present the result is the cyclic filter applied to the rows after the second-to-last 4 before the first 8, up to the fifth 101, as a two-column array, or as the one-dimensional empty array when the filter keeps nothing; no 101 but some 0 is the unbound-result error; no 101 and no 0 returns the input unchanged. In preprocessing/data_preprocessing/data_utils.py, lines 62-79: the legacy copy has no pass-through: the same marker rules apply to every input. |
| EventLog.ScanWithoutFirstCode | src/epiphyte/preprocessing/data_preprocessing/data_utils.py:63-80 | Until a code 1 arrives the filter stays in its initial state, awaiting 1 and having kept nothing. |
| EventLog.NoFirstCodeKeepsNothing | src/epiphyte/preprocessing/data_preprocessing/data_utils.py:59-82 | Rows without a code 1 give the movie filter nothing to keep. |
| EventLog.NoFirstCodeIsFlat | src/epiphyte/preprocessing/data_preprocessing/data_utils.py:82-106 | An accepted session without a code 1 that takes the marker path ends with the one-dimensional empty array. In preprocessing/data_preprocessing/data_utils.py, lines 59-79: the legacy copy is the same. |
| EventLog.ScreeningOnlyIsFlat | src/epiphyte/preprocessing/data_preprocessing/data_utils.py:85-106 | Codes 4, 4, 8 followed by eight 101 markers are accepted, and the cut between the second 4 and the fifth marker leaves the one-dimensional empty array, in every copy. |
| EventLog.LegacyNeedsMarkers | preprocessing/data_preprocessing/data_utils.py:64-77 | Without a 101 marker the legacy copy always fails. |
| Text.Fields | src/epiphyte/preprocessing/data_preprocessing/data_utils.py:138 | `bytes.split()`: the maximal runs of non-space characters, in order, each non-empty and free of spaces. |
| Text.FieldsOfJoinBlank | src/epiphyte/preprocessing/data_preprocessing/data_utils.py:138-139 | Splitting words joined by blanks gives back the words, so a line of four words has four fields. |
| LogParsers.FourFieldLines | src/epiphyte/preprocessing/data_preprocessing/data_utils.py:137-139 | Every field list kept has exactly four fields. |
| LogParsers.FourFieldLinesAppend | src/epiphyte/preprocessing/data_preprocessing/data_utils.py:137-139 | The four-field filter distributes over concatenation of line lists. |
| LogParsers.FourFieldLinesSnoc | src/epiphyte/preprocessing/data_preprocessing/data_utils.py:137-139 | One more line adds its field list exactly when it has four fields. |
| LogParsers.Watchlog | src/epiphyte/preprocessing/data_preprocessing/data_utils.py:137-145 | A successful read gives one presentation time and one CPU time per four-field line after the header. |
| LogParsers.WatchlogParsedAll | src/epiphyte/preprocessing/data_preprocessing/data_utils.py:137-141 | When every four-field line parses, the read succeeds with the presentation and CPU times of those lines in order. |
| LogParsers.WatchlogFailsAt | src/epiphyte/preprocessing/data_preprocessing/data_utils.py:140-141 | One data line that does not parse makes the whole read fail. |
| LogParsers.WatchlogFailsOn | src/epiphyte/preprocessing/data_preprocessing/data_utils.py:137-141 | A four-field line after the header whose time stamp or CPU time does not parse makes the read fail with a parse error. |
| LogParsers.ReadWatchlog | src/epiphyte/preprocessing/data_preprocessing/data_utils.py:127-145 | The loop returns what `Watchlog` specifies. In preprocessing/data_preprocessing/data_utils.py, lines 89-105: the legacy copy is the same loop. |
| LogParsers.Daqlog | src/epiphyte/preprocessing/data_preprocessing/data_utils.py:198-209 | A successful read gives one code, one pre time and one post time per four-field line after the three header lines. |
| LogParsers.DaqlogParsedAll | src/epiphyte/preprocessing/data_preprocessing/data_utils.py:198-203 | When every four-field line parses, the read succeeds with the code, pre and post times of those lines in order. |
| LogParsers.DaqlogFailsAt | src/epiphyte/preprocessing/data_preprocessing/data_utils.py:200-203 | One data line that does not parse makes the whole read fail. |
| LogParsers.DaqlogFailsOn | src/epiphyte/preprocessing/data_preprocessing/data_utils.py:198-203 | A four-field line after the three header lines whose code or times do not parse makes the read fail with a parse error. |
| LogParsers.ReadDaqlog | src/epiphyte/preprocessing/data_preprocessing/data_utils.py:187-209 | The loop returns what `Daqlog` specifies. In preprocessing/data_preprocessing/data_utils.py, lines 142-162: the legacy copy is the same loop. |
| LogParsers.PauseCounts | src/epiphyte/preprocessing/data_preprocessing/data_utils.py:158-184 | A successful read records one start per line whose first word contains "Pausing" and one stop per line whose first word contains "Continuing" or "Properly", and no line it has read is empty. |
| LogParsers.PauseLineCounts | src/epiphyte/preprocessing/data_preprocessing/data_utils.py:159-182 | One line contributes one start if marked "Pausing", one stop for each of "Continuing" and "Properly", and must not be empty. |
| LogParsers.PausesStayFailed | src/epiphyte/preprocessing/data_preprocessing/data_utils.py:158-184 | Once the read has failed at some line, later lines do not change the outcome. |
| LogParsers.PauseLineMarked | src/epiphyte/preprocessing/data_preprocessing/data_utils.py:162-182 | A line whose first word carries one marker adds the fourth field of the line it refers to: the one before for "Pausing", the one after for "Continuing", three back for "Properly". |
| LogParsers.ReadWatchlogPauses | src/epiphyte/preprocessing/data_preprocessing/data_utils.py:148-184 | The loop returns the starts and stops the per-line rules give, in the order of the log, or the first error. In preprocessing/data_preprocessing/data_utils.py, lines 108-139: the legacy copy is the same loop. |
| LogParsers.PauseExample | src/epiphyte/preprocessing/data_preprocessing/data_utils.py:158-184 | The log `pts 0.00 time 1000`, `pts 0.04 time 1041`, `Pausing`, `Continuing after pause`, `pts 0.08 time 5041000`, after a header, gives one pause from 1041 to 5041000, in raw CPU ticks. |
| ClockAlignment.CodeErrors | src/epiphyte/preprocessing/data_preprocessing/data_utils.py:225 | `(a != b).sum()` counts the differing positions of equal-length code arrays, compares a one-element array with every entry of the other, and refuses any other pair of lengths. |
| ClockAlignment.MismatchCountZero | src/epiphyte/preprocessing/data_preprocessing/data_utils.py:225-228 | The count is zero exactly when the arrays are equal. |
| ClockAlignment.Fit | src/epiphyte/preprocessing/data_preprocessing/data_utils.py:236 | The least-squares line through the points solves the normal equations; arrays of different length or no points are refused, and points that all share one x give the degenerate-fit error. |
| ClockAlignment.FitUnique | src/epiphyte/preprocessing/data_preprocessing/data_utils.py:236 | Any line solving the normal equations is the fitted line. |
| ClockAlignment.SolvesUnique | src/epiphyte/preprocessing/data_preprocessing/data_utils.py:236 | Two solutions of the normal equations differ only when all x are equal. |
| ClockAlignment.SpreadZero | src/epiphyte/preprocessing/data_preprocessing/data_utils.py:236 | The fit is refused exactly when every x is the same. |
| ClockAlignment.FitRecoversLine | src/epiphyte/preprocessing/data_preprocessing/data_utils.py:236 | Points lying exactly on a line y = m x + b, with two distinct x, give back m and b. |
| ClockAlignment.NormalOnLine | src/epiphyte/preprocessing/data_preprocessing/data_utils.py:236 | Points on a line satisfy the normal equations of that line. |
| ClockAlignment.SquaredDeviationNonNegative | src/epiphyte/preprocessing/data_preprocessing/data_utils.py:236 | The spread of the x values is never negative. |
| ClockAlignment.EventColumns | src/epiphyte/preprocessing/data_preprocessing/data_utils.py:221 | Reading the timestamp and code columns fails with an index error exactly on the one-dimensional empty array, and otherwise gives its rows. In preprocessing/data_preprocessing/data_utils.py, line 167: the legacy copy is the same. |
| ClockAlignment.GetCoeff | src/epiphyte/preprocessing/data_preprocessing/data_utils.py:212-242 | Succeeds only when the event codes equal the DAQ codes and there is at least one event, and the line then solves the normal equations of DAQ post times against event times; code arrays of incompatible lengths are refused, and any differing code gives the mismatch error carrying the number of differences. In preprocessing/data_preprocessing/data_utils.py, lines 165-188: the legacy copy performs the same checks in the same order. |
| ClockAlignment.GetCoeffExact | src/epiphyte/preprocessing/data_preprocessing/data_utils.py:221-242 | Matching codes and event times lying on a line give that line's slope and intercept. |
| ClockAlignment.ApplyLineInvertible | src/epiphyte/preprocessing/data_preprocessing/data_utils.py:280 | With a non-zero slope every CPU time is recovered from its recording time. |
| ClockAlignment.ApplyLineIncreasing | src/epiphyte/preprocessing/data_preprocessing/data_utils.py:280 | With a positive slope the map keeps increasing CPU times increasing. |
| ClockAlignment.MakeMsec | src/epiphyte/preprocessing/data_preprocessing/data_utils.py:245-253 | The output is as long as the input and each entry is the input's divided by 1000. In preprocessing/data_preprocessing/data_utils.py, lines 191-195: the legacy copy is the same. |
| ClockAlignment.MakeMsecOfLine | preprocessing/data_preprocessing/data_utils.py:221-222 | Rescaling after the map equals mapping with slope and intercept divided by 1000. |
| ClockAlignment.Convert | src/epiphyte/preprocessing/data_preprocessing/data_utils.py:269-282 | Succeeds exactly when the fit and the watch log read both succeed; then the presentation and CPU times are those of the watch log, with one recording time per CPU time, each the fitted line applied to it. In preprocessing/data_preprocessing/data_utils.py, lines 204-211: the legacy copy reads the watch log after filtering the events and before reading the DAQ log; whether it succeeds, and what it returns, is given by the same contract. |
| ClockAlignment.ConvertFirstError | src/epiphyte/preprocessing/data_preprocessing/data_utils.py:275-277 | A failure to read or filter the events is reported first; the packaged copy then reports a failed fit before a failed watch log read. In preprocessing/data_preprocessing/data_utils.py, lines 205-207: the legacy copy reports a failed event read or filter first, then a failed watch log read, and only then a failure of the fit. |
| ClockAlignment.LegacyFitErrorAfterWatchlog | preprocessing/data_preprocessing/data_utils.py:205-207 | Once the legacy copy has read the watch log, a failing fit, including its column read and DAQ log read, is the error `convert` reports. |
| ClockAlignment.ConvertFlatEvents | src/epiphyte/preprocessing/data_preprocessing/data_utils.py:221-222 | When the movie filter kept nothing (the empty `np.array(keep)` of line 82), the fit fails with an index error at the column read, before the DAQ log is read, whatever that log holds, and `convert` (lines 275-276) reports that error. In preprocessing/data_preprocessing/data_utils.py, lines 167-168: the legacy copy reports it too, once its `convert` (lines 205-207) has read the watch log. |
| ClockAlignment.ConvertPauses | src/epiphyte/preprocessing/data_preprocessing/data_utils.py:284-303 | The pause starts and stops, read from the log, mapped through the fitted line; the packaged copy keeps them in the mapped unit. In preprocessing/data_preprocessing/data_utils.py, lines 213-223: the legacy copy also divides the mapped starts and stops by 1000. |
| ClockAlignment.Jumps | src/epiphyte/preprocessing/data_preprocessing/data_utils.py:314 | One jump per pair of consecutive frames, each the absolute difference of their movie times. |
| ClockAlignment.Skipped | src/epiphyte/preprocessing/data_preprocessing/data_utils.py:321 | Exactly the positions of jumps above the threshold, ascending. |
| ClockAlignment.Skips | src/epiphyte/preprocessing/data_preprocessing/data_utils.py:306-350 | Fewer than two frames is an error, and any two or more frames give segments. |
| ClockAlignment.SegmentsTile | src/epiphyte/preprocessing/data_preprocessing/data_utils.py:325-337 | Every segment holds at least one frame and ends before the last frame's successor, and each next segment begins right after the previous one ends. |
| ClockAlignment.SegmentsAreRuns | src/epiphyte/preprocessing/data_preprocessing/data_utils.py:321-337 | No jump inside a segment exceeds the threshold. |
| ClockAlignment.SegmentsEndAtSkips | src/epiphyte/preprocessing/data_preprocessing/data_utils.py:321-337 | The jump after every segment but the last exceeds the threshold. |
| ClockAlignment.SkipSegmentsAreRuns | src/epiphyte/preprocessing/data_preprocessing/data_utils.py:317-337 | With a skip, k skips give k+1 segments numbered 0..k, starting at the first recording time and stopping at the last, each start and stop being the recording time of the segment's first and last frame. |
| ClockAlignment.SkipAtThreshold | src/epiphyte/preprocessing/data_preprocessing/data_utils.py:317-321 | A largest jump of exactly 1 takes the list branch (`>=`) but finds no skip (`>`), giving one segment as lists. |
| ClockAlignment.NoSkipBelowThreshold | src/epiphyte/preprocessing/data_preprocessing/data_utils.py:342-347 | A largest jump below 1 gives a single segment from the first to the last recording time, as scalars, numbered [0]. |
| ClockAlignment.TimepointsAt | src/epiphyte/preprocessing/data_preprocessing/data_utils.py:325-332 | For skip k the collected times at 2k+1 and 2k+2 are the recording times of the frames either side of the skip. |
| ClockAlignment.TimepointsStarts | src/epiphyte/preprocessing/data_preprocessing/data_utils.py:335 | Every other collected time from the first, less the last, are the segment starts. |
| ClockAlignment.TimepointsStops | src/epiphyte/preprocessing/data_preprocessing/data_utils.py:336 | Every other collected time from the second are the segment stops. |
| ClockAlignment.SkipTimepoints | src/epiphyte/preprocessing/data_preprocessing/data_utils.py:325-330 | The loop over the skips collects what `Timepoints` specifies. |
| ClockAlignment.ConvertSkips | src/epiphyte/preprocessing/data_preprocessing/data_utils.py:306-350 | The method with the source's loop returns what `Skips` specifies. |
| Common.RoundHalfEven | src/epiphyte/database/helpers.py:150 | Python's `round(x)`: an integer within one half of x, ties going to the even neighbour. |
| Common.TruncBounds | src/epiphyte/preprocessing/data_preprocessing/create_vectors_from_time_points.py:18-27 | `int(x)` moves toward zero by less than one. |
| NdArray.ArgminNearest | src/epiphyte/preprocessing/data_preprocessing/create_vectors_from_time_points.py:25-27 | No entry is nearer to t than the chosen one, and every earlier entry is farther. |
| NdArray.ArgminOfEntry | src/epiphyte/preprocessing/data_preprocessing/create_vectors_from_time_points.py:25-27 | On a strictly increasing array each entry is found at its own position. |
| NdArray.IndicesOfSpec | src/epiphyte/preprocessing/data_preprocessing/apply_artifact_vec.py:29 | `np.where(s == x)[0]` ascends, holds only positions of x, includes all of them, and is empty exactly when x is absent. |
| NdArray.PositionsSpec | src/epiphyte/preprocessing/data_preprocessing/apply_artifact_vec.py:50 | The positions `np.delete` keeps ascend, lie below n, avoid the deleted ones and include every other. |
| NdArray.Delete | src/epiphyte/preprocessing/data_preprocessing/apply_artifact_vec.py:50 | `np.delete`: refused when an index is outside [-n, n); otherwise the entries at the listed positions, negative ones counted from the end and duplicates allowed, are removed and the rest keep their order. |
| NdArray.WithoutAt | src/epiphyte/preprocessing/data_preprocessing/apply_artifact_vec.py:50 | What is left after deleting is, entry by entry, the array read at the kept positions. |
| NdArray.WithoutNothing | src/epiphyte/preprocessing/annotation/stimulus_driven_annotation/movies/pause_handling.py:69 | Deleting nothing leaves the array as it was. |
| NdArray.WithoutIncreasing | src/epiphyte/preprocessing/annotation/stimulus_driven_annotation/movies/pause_handling.py:69 | Deleting entries of a strictly increasing array leaves it strictly increasing. |
| NdArray.IndicesOfPrefix | src/epiphyte/preprocessing/annotation/stimulus_driven_annotation/movies/watch_log.py:205-217 | The positions of x in a prefix are the leading positions of x in the whole. |
| NdArray.MaxOf | src/epiphyte/preprocessing/data_preprocessing/data_utils.py:314 | `np.max` of a non-empty array: an entry that no entry exceeds. |
| NdArray.Linspace | src/epiphyte/preprocessing/data_preprocessing/binning.py:48 | `np.linspace(on, off, num)`: num evenly spaced samples, the first at on and, for two or more, the last at off; a negative count is refused. |
| NdArray.LinspaceIncreasing | src/epiphyte/preprocessing/data_preprocessing/binning.py:48 | Samples of an increasing range are strictly increasing. |
| NdArray.Histogram | src/epiphyte/preprocessing/data_preprocessing/binning.py:114 | `np.histogram(a, bins=edges)[0]`: one count per bin, the last bin closed on the right; decreasing edges are refused. |
| NdArray.BinHitsRange | src/epiphyte/preprocessing/data_preprocessing/binning.py:114 | With ordered edges a sample falls into at most one bin, and into one exactly when it lies between the first and last edge. |
| NdArray.HistogramTotal | src/epiphyte/preprocessing/data_preprocessing/binning.py:107 | The counts add up to the number of samples between the first and the last edge. |
| PauseHandling.PauseStartBin | src/epiphyte/preprocessing/annotation/stimulus_driven_annotation/movies/pause_handling.py:8-20 | The index of the edge nearest to the start, one less when that edge lies after the start; empty edges are an error. |
| PauseHandling.PauseStartBinIsFloor | src/epiphyte/preprocessing/annotation/stimulus_driven_annotation/movies/pause_handling.py:15-20 | On strictly increasing edges: the last edge at or before the start, and -1 when the start precedes every edge. In project/preprocessing/annotation/stimulus_driven_annotation/movies/pause_handling.py, lines 12-17: the project copy is the same. |
| PauseHandling.PauseStopBin | src/epiphyte/preprocessing/annotation/stimulus_driven_annotation/movies/pause_handling.py:23-35 | The index of the edge nearest to the stop, one more when that edge lies before the stop. |
| PauseHandling.PauseStopBinIsCeiling | src/epiphyte/preprocessing/annotation/stimulus_driven_annotation/movies/pause_handling.py:30-35 | On strictly increasing edges: the first edge at or after the stop, and len(bins) when the stop follows every edge. In project/preprocessing/annotation/stimulus_driven_annotation/movies/pause_handling.py, lines 28-33: the project copy is the same. |
| PauseHandling.MakePauseInterval | src/epiphyte/preprocessing/annotation/stimulus_driven_annotation/movies/pause_handling.py:38-41 | The consecutive integers from a to b, b - a + 1 of them, empty when b < a. |
| PauseHandling.MakePauseIntervalMembers | src/epiphyte/preprocessing/annotation/stimulus_driven_annotation/movies/pause_handling.py:38-41 | An integer is in the interval exactly when it lies between its ends. |
| PauseHandling.PauseInsideBin | src/epiphyte/preprocessing/annotation/stimulus_driven_annotation/movies/pause_handling.py:15-20 | A pause strictly inside one bin yields the interval holding exactly the two edges of that bin. |
| PauseHandling.FlattenMembers | src/epiphyte/preprocessing/annotation/stimulus_driven_annotation/movies/pause_handling.py:58-67 | An index is in the flattened list exactly when some pause interval holds it. |
| PauseHandling.PauseIntervalsFlatten | src/epiphyte/preprocessing/annotation/stimulus_driven_annotation/movies/pause_handling.py:58-67 | With edges present and a stop for every start, the collected intervals are those of every pause, in order. |
| PauseHandling.RmPausesBins | src/epiphyte/preprocessing/annotation/stimulus_driven_annotation/movies/pause_handling.py:44-76 | Succeeds exactly when every pause has its interval and np.delete accepts all their indices; with return_intervals the removed indices are returned as well. |
| PauseHandling.RmPausesBinsRemovesPauses | src/epiphyte/preprocessing/annotation/stimulus_driven_annotation/movies/pause_handling.py:44-76 | When it succeeds, the kept edges are, in their order, exactly the edges that no pause interval holds, an interval index below 0 counting from the end. |
| PauseHandling.RemovedArePausedEdges | src/epiphyte/preprocessing/annotation/stimulus_driven_annotation/movies/pause_handling.py:58-76 | The positions np.delete removes are exactly the edges some pause interval holds. |
| PauseHandling.RmPausesBinsNoPauses | src/epiphyte/preprocessing/annotation/stimulus_driven_annotation/movies/pause_handling.py:58-69 | Without pauses the edges come back unchanged. |
| PauseHandling.RmPausesBinsIncreasing | src/epiphyte/preprocessing/annotation/stimulus_driven_annotation/movies/pause_handling.py:60-69 | On strictly increasing edges a successful result is strictly increasing. |
| PauseHandling.StopPastLastEdgeFails | src/epiphyte/preprocessing/annotation/stimulus_driven_annotation/movies/pause_handling.py:30-35 | On sorted edges a pause ending past the last edge has stop bin len(bins), which np.delete refuses. |
| PauseHandling.StartBeforeFirstEdgeDropsLast | src/epiphyte/preprocessing/annotation/stimulus_driven_annotation/movies/pause_handling.py:15-20 | On sorted edges a pause starting before the first edge has start bin -1, which np.delete reads as the last edge and removes. |
| PauseHandling.RemovePauseBins | src/epiphyte/preprocessing/annotation/stimulus_driven_annotation/movies/pause_handling.py:58-76 | The method with the source's loop returns what `RmPausesBins` specifies. In project/preprocessing/annotation/stimulus_driven_annotation/movies/pause_handling.py, lines 51-69: the project copy is the same loop. |
| PauseHandling.PauseHitsMembers | src/epiphyte/preprocessing/annotation/stimulus_driven_annotation/movies/pause_handling.py:95-100 | A spike's index is recorded for a pause exactly when the start is at or before it and the stop at or after it. |
| PauseHandling.PausedSpikesMembers | src/epiphyte/preprocessing/annotation/stimulus_driven_annotation/movies/pause_handling.py:93-100 | A spike's index is recorded exactly when some closed pause interval holds the spike, and the recorded indices do not decrease (a spike inside two overlapping pauses is recorded twice). |
| PauseHandling.RmPausesSpikes | src/epiphyte/preprocessing/annotation/stimulus_driven_annotation/movies/pause_handling.py:79-107 | Every failure is an index past the stops, and with a stop for every start there is no failure. |
| PauseHandling.RmPausesSpikesKeeps | src/epiphyte/preprocessing/annotation/stimulus_driven_annotation/movies/pause_handling.py:93-107 | The kept spikes are exactly, in order, those no closed pause interval holds. |
| PauseHandling.PausedSpikesInRange | src/epiphyte/preprocessing/annotation/stimulus_driven_annotation/movies/pause_handling.py:102-107 | Every recorded index names a spike, so np.delete accepts them. |
| PauseHandling.RemovePauseSpikes | src/epiphyte/preprocessing/annotation/stimulus_driven_annotation/movies/pause_handling.py:93-107 | The method with the source's nested loop returns what `RmPausesSpikes` specifies. In project/preprocessing/annotation/stimulus_driven_annotation/movies/pause_handling.py, lines 74-90: the project copy is the same nested loop. |
| Segments.NearestIndexIsFirstNearest | src/epiphyte/preprocessing/data_preprocessing/create_vectors_from_time_points.py:25-27 | The result is the first minimiser of the distance to the target. |
| Segments.NearestIndexExample | src/epiphyte/preprocessing/data_preprocessing/create_vectors_from_time_points.py:11-27 | The docstring's example: 3.0 among [1.0, 2.5, 3.8, 5.0] is nearest at position 1. |
| Segments.NearestValue | src/epiphyte/preprocessing/data_preprocessing/create_vectors_from_time_points.py:30-48 | The entry at the first nearest position, never truncated, in every copy. |
| Segments.NearestValueIsNearest | src/epiphyte/preprocessing/data_preprocessing/create_vectors_from_time_points.py:30-48 | The returned entry is at least as near to t as every entry. |
| Segments.NearestValueExample | src/epiphyte/preprocessing/data_preprocessing/create_vectors_from_time_points.py:30-48 | The docstring's example: 4.0 gives 3.8. |
| Segments.NearestBracket | src/epiphyte/preprocessing/data_preprocessing/create_vectors_from_time_points.py:25-27 | On an increasing axis, entries before the nearest position lie below the target and entries after it above. |
| Segments.IndexMatchingStartIsFloor | src/epiphyte/preprocessing/data_preprocessing/create_vectors_from_time_points.py:290-295 | On increasing starts the last start at or before the time point, and 0 when all starts lie after it. In data_preprocessing/create_vectors_from_time_points.py, lines 132-138: the older copy has the same floor semantics on integral time points. |
| Segments.IndexMatchingStartTruncated | preprocessing/data_preprocessing/create_vectors_from_time_points.py:245-266 | In the truncating copies, 1.7 among starts 0.5 and 1.6 gives the start 0.5. |
| Segments.IndexMatchingStopIsCeiling | src/epiphyte/preprocessing/data_preprocessing/create_vectors_from_time_points.py:313-318 | On increasing stops the first stop after the time point, and the last index when none lies after it. In data_preprocessing/create_vectors_from_time_points.py, lines 141-147: the older copy has the same ceiling semantics on integral time points. |
| Segments.ValueMatchingStart | src/epiphyte/preprocessing/data_preprocessing/create_vectors_from_time_points.py:227-248 | No starts is the empty-reduction error and any other failure an index past the values; with values at least as long as the starts it fails only when there are no starts. |
| Segments.ValueMatchingStartAgrees | src/epiphyte/preprocessing/data_preprocessing/create_vectors_from_time_points.py:244-248 | On increasing starts it is the value at the matching start index, except that before the first start it returns the index 0. |
| Segments.ValueMatchingStop | src/epiphyte/preprocessing/data_preprocessing/create_vectors_from_time_points.py:251-272 | No stops is the empty-reduction error and any other failure an index past the values; with values at least as long as the stops it fails only when there are no stops. |
| Segments.ValueMatchingStopAgrees | src/epiphyte/preprocessing/data_preprocessing/create_vectors_from_time_points.py:268-272 | On increasing stops it is the value at the matching stop index, except that at or after the last stop it returns the last index. |
| Segments.ValueMatchingTimepoint | data_preprocessing/create_vectors_from_time_points.py:91-95 | No starts is the empty-reduction error and any other failure an index past the values; with values at least as long as the starts it fails only when there are no starts. |
| Segments.ValueMatchingTimepointWraps | data_preprocessing/create_vectors_from_time_points.py:91-95 | At or before the first start the lookup returns the last value. |
| Segments.ValueMatchingTimepointIsStrictFloor | data_preprocessing/create_vectors_from_time_points.py:91-95 | After the first start, on an integral time point, the value of the last start strictly before it. |
| Segments.AddWeightAt | src/epiphyte/preprocessing/data_preprocessing/create_vectors_from_time_points.py:351-354 | The update keeps every value and adds the weight exactly to the rows holding that value. |
| Segments.TableRow | src/epiphyte/preprocessing/data_preprocessing/create_vectors_from_time_points.py:342-358 | Row p holds the value of segment i1+p and its own weight plus that of every later middle segment with the same value. |
| Segments.FirstHeaviestIsFirstMaximum | src/epiphyte/preprocessing/data_preprocessing/create_vectors_from_time_points.py:359-361 | No row outweighs the chosen one, and every earlier row weighs strictly less. |
| Segments.ValueInTimeFrame | src/epiphyte/preprocessing/data_preprocessing/create_vectors_from_time_points.py:321-361 | Fails exactly when a segment list is empty or the frame lies outside the segments it reads. In preprocessing/data_preprocessing/create_vectors_from_time_points.py, lines 293-328: the legacy copy is the same computation. |
| Segments.FrameInRangeOfSegments | src/epiphyte/preprocessing/data_preprocessing/create_vectors_from_time_points.py:342-358 | Segments of one length never make the frame computation read past their end. |
| Segments.FrameWithinSegment | src/epiphyte/preprocessing/data_preprocessing/create_vectors_from_time_points.py:342-345 | A frame lying within segment k takes the value of segment k. |
| Segments.ValueInTimeFrameIsHeaviest | src/epiphyte/preprocessing/data_preprocessing/create_vectors_from_time_points.py:342-361 | The frame's value is the value of a row of greatest weight, ahead of every row of equal weight. |
| Segments.GetValueInTimeFrame | src/epiphyte/preprocessing/data_preprocessing/create_vectors_from_time_points.py:342-361 | The method with the source's loop returns what `ValueInTimeFrame` specifies. |
| Segments.CollectOk | src/epiphyte/preprocessing/data_preprocessing/create_vectors_from_time_points.py:213-224 | The frame outcomes succeed together exactly when each one does, and then give their values in order. |
| Segments.CollectFirstError | src/epiphyte/preprocessing/data_preprocessing/create_vectors_from_time_points.py:213-224 | The first failing frame's error is the error of the whole. |
| Segments.ReferenceVector | src/epiphyte/preprocessing/data_preprocessing/create_vectors_from_time_points.py:193-224 | Segments of different lengths give the -1 error. |
| Segments.ReferenceVectorFrames | src/epiphyte/preprocessing/data_preprocessing/create_vectors_from_time_points.py:213-224 | On segments of one length the result exists exactly when every frame has a value, and then holds len(reference)-1 values, entry i the value of frame i. |
| Segments.ReferenceVectorTotal | src/epiphyte/preprocessing/data_preprocessing/create_vectors_from_time_points.py:213-224 | Equal-length, non-empty segments always give len(reference)-1 values. In preprocessing/data_preprocessing/create_vectors_from_time_points.py, lines 178-189: the legacy copy has the same length. In data_preprocessing/create_vectors_from_time_points.py, lines 98-111: the older copy has the same length. |
| Segments.CreateVectorReference | src/epiphyte/preprocessing/data_preprocessing/create_vectors_from_time_points.py:213-224 | The method with the source's appending loop returns what `ReferenceVector` specifies. |
| Indicators.ExpandBlock | src/epiphyte/preprocessing/data_preprocessing/create_vectors_from_time_points.py:80-93 | Block k of an expansion occupies counts[k] positions from the sum of the counts before it, all holding values[k]. |
| Indicators.ExpandLength | src/epiphyte/preprocessing/data_preprocessing/create_vectors_from_time_points.py:80-93 | An expansion has as many entries as its counts add up to. |
| Indicators.ContWatchVector | src/epiphyte/preprocessing/data_preprocessing/create_vectors_from_time_points.py:51-95 | Unequal values/starts/stops lengths give the -1 error, and segments on an empty reference axis give the empty-reduction error; nothing else fails. |
| Indicators.CreateVectorContWatch | src/epiphyte/preprocessing/data_preprocessing/create_vectors_from_time_points.py:80-93 | The method with the source's appending loop returns what `ContWatchVector` specifies. |
| Indicators.ContWatchBlock | src/epiphyte/preprocessing/data_preprocessing/create_vectors_from_time_points.py:85-91 | One pass of the loop appends the copies of segment i and nothing else. |
| Indicators.StartStopVector | preprocessing/data_preprocessing/create_vectors_from_time_points.py:69-103 | Unequal lengths give the -1 error, and segments on an empty time axis give the empty-reduction error; nothing else fails. In src/epiphyte/preprocessing/data_preprocessing/create_vectors_from_time_points.py, lines 98-134: the packaged copy is the same. |
| Indicators.CreateVectorStartStop | preprocessing/data_preprocessing/create_vectors_from_time_points.py:91-103 | The method with the source's appending loop returns what `StartStopVector` specifies. |
| Indicators.StartStopBlock | preprocessing/data_preprocessing/create_vectors_from_time_points.py:97-101 | One pass of the loop appends the copies of segment i and nothing else. |
| Indicators.CountsCompared | src/epiphyte/preprocessing/data_preprocessing/create_vectors_from_time_points.py:80-93 | For indices on the axis the start/stop indicator gives a segment e-s+1 copies, none when its stop index precedes its start index, and the continuous-watch indicator one copy fewer whenever the stop index exceeds the start index. |
| Indicators.Rle | src/epiphyte/preprocessing/data_preprocessing/create_vectors_from_time_points.py:137-164 | Fails, with an index error, exactly when the label or the time axis is empty or the label changes value at a position the axis does not reach. In preprocessing/data_preprocessing/create_vectors_from_time_points.py, lines 106-131: the legacy copy is the same. In data_preprocessing/create_vectors_from_time_points.py, lines 62-76: the older copy is the same. |
| Indicators.RunsOfAt | src/epiphyte/preprocessing/data_preprocessing/create_vectors_from_time_points.py:152-164 | Segment k holds the value and time of the first position of run k and the time of its last position; the first start is t[0] and the last stop t[-1]. |
| Indicators.RleAdjacentDistinct | src/epiphyte/preprocessing/data_preprocessing/create_vectors_from_time_points.py:152-164 | The three lists have one entry per run and neighbouring segments carry different values. |
| Indicators.RunContaining | src/epiphyte/preprocessing/data_preprocessing/create_vectors_from_time_points.py:152-164 | Every position of the label lies in exactly one run. |
| Indicators.RunConstant | src/epiphyte/preprocessing/data_preprocessing/create_vectors_from_time_points.py:152-164 | Every position of a run holds the value of its first position. |
| Indicators.RunStartsIncrease | src/epiphyte/preprocessing/data_preprocessing/create_vectors_from_time_points.py:152-164 | Runs begin strictly after one another, the last before the end of the label. |
| Indicators.ChangesComplete | src/epiphyte/preprocessing/data_preprocessing/create_vectors_from_time_points.py:155-160 | Every position where the label changes value is listed, in ascending order. |
| Indicators.GetStartStopTimesFromLabel | src/epiphyte/preprocessing/data_preprocessing/create_vectors_from_time_points.py:152-164 | The method with the source's loop returns what `Rle` specifies. In src/epiphyte/preprocessing/annotation/stimulus_driven_annotation/movies/processing_labels.py, lines 133-145: the copy in the label module is the same loop. In annotation/stimulus_driven_annotation/movies/processing_labels.py, lines 148-162: the legacy label module's copy is the same loop. |
| Indicators.NearestOfAxisEntry | src/epiphyte/preprocessing/data_preprocessing/create_vectors_from_time_points.py:25-27 | On a strictly increasing axis each time stamp is found at its own position. |
| Indicators.RecordingEdges | src/epiphyte/preprocessing/data_preprocessing/binning.py:44-48 | Succeeds exactly when there is a recording time, the bin size is not zero and int(span/bin_size) is not negative; the edges are then np.linspace from the first to the last recording time with that many samples. |
| Indicators.BinsExclPauses | src/epiphyte/preprocessing/data_preprocessing/create_vectors_from_time_points.py:167-190 | Succeeds only when the recording edges exist, and then is the pause-removing deletion applied to them. |
| Indicators.BinsExclPausesIncreasing | src/epiphyte/preprocessing/data_preprocessing/create_vectors_from_time_points.py:167-190 | A forward-moving recording, binned forward, gives strictly increasing pause-free edges. |
| Indicators.BinsExclPausesNoPauses | src/epiphyte/preprocessing/data_preprocessing/create_vectors_from_time_points.py:167-190 | Without pauses the pause-free edges are exactly the recording edges. |
| Labels.PaintAt | src/epiphyte/preprocessing/annotation/stimulus_driven_annotation/movies/processing_labels.py:31-36 | A slice assignment `label[s:e+1] = [v]*(e-s+1)` gives v to positions s..e and leaves all others, and changes nothing when e < s. |
| Labels.OverwriteUncovered | src/epiphyte/preprocessing/annotation/stimulus_driven_annotation/movies/processing_labels.py:31-36 | A position no segment covers keeps the default value. |
| Labels.OverwriteLast | src/epiphyte/preprocessing/annotation/stimulus_driven_annotation/movies/processing_labels.py:31-36 | A covered position holds the value of the last segment covering it. |
| Labels.MakeLabel | src/epiphyte/preprocessing/annotation/stimulus_driven_annotation/movies/processing_labels.py:7-38 | Different lengths of values, starts and stops give -1; segments on an empty axis are an error; otherwise a label as long as the reference axis. In annotation/stimulus_driven_annotation/movies/processing_labels.py, lines 7-30: the legacy copy, with a truncated nearest-index target. |
| Labels.MakeLabelLastWriteWins | src/epiphyte/preprocessing/annotation/stimulus_driven_annotation/movies/processing_labels.py:25-36 | On success the label has len(ref_vec) entries; a position no segment reaches keeps the default, one some segment reaches holds int(value) of the last segment reaching it. |
| Labels.MakeLabelFromStartStopTimes | src/epiphyte/preprocessing/annotation/stimulus_driven_annotation/movies/processing_labels.py:29-38 | The method with the source's slice-assigning loop returns what `MakeLabel` specifies. |
| Labels.LabelRoundTrip | src/epiphyte/preprocessing/annotation/stimulus_driven_annotation/movies/processing_labels.py:31-36 | Run-length encoding an integer label on a strictly increasing, exactly found axis of the same length and writing its segments back over any default label gives the label again. |
| Labels.RoundTripAt | src/epiphyte/preprocessing/annotation/stimulus_driven_annotation/movies/processing_labels.py:133-145 | Writing the run segments of a label over any default label puts back the label's own value at every position. |
| Labels.RunCovers | src/epiphyte/preprocessing/annotation/stimulus_driven_annotation/movies/processing_labels.py:133-145 | The nearest indices of run k's start and stop times are the first and the last position of run k. |
| Labels.CreateXmlForAdvene | src/epiphyte/preprocessing/annotation/stimulus_driven_annotation/movies/processing_labels.py:41-63 | The method with the source's counter loop returns what `AnnotationElements` specifies. In annotation/stimulus_driven_annotation/movies/processing_labels.py, lines 33-51: the legacy copy is the same loop. |
| Labels.AdveneElement | src/epiphyte/preprocessing/annotation/stimulus_driven_annotation/movies/processing_labels.py:53-63 | Element k of the concatenated XML is the annotation written for pair k with the counter value k. |
| Labels.MatchingAppend | src/epiphyte/preprocessing/annotation/stimulus_driven_annotation/movies/processing_labels.py:84-90 | The type filter distributes over concatenation, so it keeps the order of the annotations. |
| Labels.Matching | src/epiphyte/preprocessing/annotation/stimulus_driven_annotation/movies/processing_labels.py:84-90 | The kept annotations are no more than the given ones and all of the label's type. |
| Labels.MatchingComplete | src/epiphyte/preprocessing/annotation/stimulus_driven_annotation/movies/processing_labels.py:84-90 | Every annotation of the label's type is kept. |
| Labels.StartStopValuesFromJson | src/epiphyte/preprocessing/annotation/stimulus_driven_annotation/movies/processing_labels.py:66-90 | Titles, begins/1000 and ends/1000 of the kept annotations, three lists of equal length. In annotation/stimulus_driven_annotation/movies/processing_labels.py, lines 81-106: the legacy copy is the same filter. |
| Labels.ExportLabelsFromJson | src/epiphyte/preprocessing/annotation/stimulus_driven_annotation/movies/processing_labels.py:93-119 | `[begin, end]` pairs in milliseconds and the titles of the kept annotations. |
| Binning.LabelEdges | src/epiphyte/preprocessing/data_preprocessing/binning.py:42-55 | The edges a label is binned against: the recording edges, or with pauses excluded the edges without those bracketing each pause, the pause times taken unscaled. |
| Binning.BinLabel | src/epiphyte/preprocessing/data_preprocessing/binning.py:19-63 | Succeeds only when the label edges exist; segments of different lengths then give the -1 error. |
| Binning.BinLabelPerBin | src/epiphyte/preprocessing/data_preprocessing/binning.py:60-63 | When the edges exist and the segments have one length, the result has len(edges)-1 entries, entry i the value the segments give bin i. In preprocessing/data_preprocessing/binning.py, lines 30-43: the legacy copy has the same per-bin result. |
| Binning.BinSpikes | src/epiphyte/preprocessing/data_preprocessing/binning.py:66-121 | A successful result carries the edges alongside the counts exactly in the packaged copy with output_edges. |
| Binning.BinSpikesCounts | src/epiphyte/preprocessing/data_preprocessing/binning.py:95-121 | One count per bin, each the number of counted spikes in it; the returned edges are the pause-free ones; with output_edges both are returned. In preprocessing/data_preprocessing/binning.py, lines 56-76: the legacy copy uses the pause times unscaled and returns counts only. |
| Binning.BinSpikesTotal | src/epiphyte/preprocessing/data_preprocessing/binning.py:107-114 | The counts add up to the number of counted spikes between the first and the last edge. |
| Binning.RecordingEdgesSpan | src/epiphyte/preprocessing/data_preprocessing/binning.py:87-93 | int(span/bin_size) edges, the first at the first recording time and, for two or more, the last at the last. In preprocessing/data_preprocessing/binning.py, lines 22-28: the legacy copy generates the same edges. |
| Helpers.Atoi | src/epiphyte/database/helpers.py:16-26 | A non-empty string of ASCII digits becomes its number, any other string stays text. |
| Helpers.AtoiOfNat | src/epiphyte/database/helpers.py:26 | `atoi(str(n))` is n. |
| Helpers.SplitDigitsConcat | src/epiphyte/database/helpers.py:45 | The pieces of the digit split, put back together, are the text. |
| Helpers.SplitDigitsPieces | src/epiphyte/database/helpers.py:45 | The split alternates digit-free text and non-empty digit runs, starting and ending with text. |
| Helpers.NaturalKeysAlternate | src/epiphyte/database/helpers.py:45 | The key alternates the text pieces of the split and the values of its digit runs. In database/helpers.py, lines 13-18: the legacy copy is the same. |
| Helpers.NaturalKeysOrderNumbers | src/epiphyte/database/helpers.py:29-45 | Two names that differ only in one embedded number sort by the value of that number. |
| Helpers.NaturalKeysExample | src/epiphyte/database/helpers.py:29-45 | `CSC2_SU1.npy` sorts before `CSC10_SU1.npy` by natural key. |
| Helpers.StringOrderExample | src/epiphyte/database/helpers.py:29-45 | In plain string order the two names come the other way round. |
| Helpers.SpikeFileMatch | src/epiphyte/database/helpers.py:62-64 | A match always carries a non-empty word run. |
| Helpers.ExtractSortKey | src/epiphyte/database/helpers.py:48-68 | The key is the bare file name exactly when the pattern does not match, and a key from a match always has unit number 0. |
| Helpers.SpikeFileMatchOf | src/epiphyte/database/helpers.py:62-64 | A name `CSC<digits>_<word><.npy>` matches with those digits and that word. |
| Helpers.ExtractSortKeyAbsorbsUnitNumber | src/epiphyte/database/helpers.py:62-68 | As written the unit digits stay in the unit type and the unit number is always 0. |
| Helpers.ExtractSortKeyExample | src/epiphyte/database/helpers.py:62-68 | `CSC2_SU1.npy` gives (2, "SU1", 0), not (2, "SU", 1). |
| Helpers.ExtractSortKeyIntendedSplits | src/epiphyte/database/helpers.py:48-68 | The documented key recovers channel, unit type and unit number from `CSC<c>_<type><n>.npy`. |
| Helpers.ChannelName | src/epiphyte/database/helpers.py:88 | A line minus its last six characters. |
| Helpers.GetChannelNames | src/epiphyte/database/helpers.py:85-89 | One channel name per line of the file, in order. In database/helpers.py, lines 21-31: the legacy copy is the same. |
| Helpers.ChannelNameDropsLastLetter | src/epiphyte/database/helpers.py:85-88 | A file opened in text mode gives lines ending in a single `\n`, so cutting six characters off `<name>.ncs\n` also removes the last character of the name. |
| Helpers.ChannelNameOfMockLine | mock_data/mock_data_utils.py:79-82 | For the mock file's `<region><n>.ncs` lines with a one-digit n, the six-character cut leaves the brain region, which the callers store. |
| Helpers.ChannelNameIntendedOf | src/epiphyte/database/helpers.py:71-87 | The rule of the docstring and the comment, line break and `.ncs` removed, gives the bare name, both for a line ending in `\n` and for a last line without one. |
| Helpers.UnitTypeAndNumber | src/epiphyte/database/helpers.py:92-111 | "M" when the text contains "MU" (checked first), else "S" for "SU", else "X"; the number is the last character; an empty string is an error. In database/helpers.py, lines 34-49: the legacy copy looks for "MUA" and "SUA". |
| Helpers.UnitTypeLegacyMulti | database/helpers.py:41-47 | A unit the legacy copy calls a multi unit is one for the packaged copy too. |
| Helpers.UnitTypeExample | src/epiphyte/database/helpers.py:104-110 | `CSC_MUA1` is a multi unit numbered 1 for both copies; `CSC_MU1` only for the packaged one. |
| Helpers.NameUnitId | src/epiphyte/database/helpers.py:114-131 | Succeeds exactly when the name has three `_`-separated fields. In database/helpers.py, lines 73-78: the legacy copy is the same. |
| Helpers.NameUnitIdOf | src/epiphyte/database/helpers.py:128-131 | `<name>_unit<id>_<annotator>.npy` gives back name, id and annotator. |
| Helpers.NameUnitIdOfFields | src/epiphyte/database/helpers.py:128-131 | Three underscore-free fields give the first, the second without its first four characters and the third without its last four. |
| Helpers.SessionInformation | database/helpers.py:52-65 | Succeeds exactly when the folder name has five `_`-separated fields. |
| Helpers.SessionInformationOf | database/helpers.py:62-64 | The five fields come back, the date as `YYYY-MM-DD` and the time as `HH:MM:SS`. |
| Helpers.FormatDateOf | database/helpers.py:63 | `YYYYMMDD...` becomes `YYYY-MM-DD...`. |
| Helpers.FormatTimeOf | database/helpers.py:64 | `HHxMMxSS...` becomes `HH:MM:SS`, whatever the separators and the tail. |
| Helpers.SessionInformationExample | database/helpers.py:62-64 | `session_46_1_20151212_10h10m10s` gives patient 46, session 1, `2015-12-12`, `10:10:10`. |
| Helpers.SessionInformationShortExample | database/helpers.py:56-62 | The docstring's four-field example `46_1_20151212_10h10m10s` is refused. |
| Helpers.BinnedLabelInformation | database/helpers.py:68-70 | Succeeds exactly when the file name has five `_`-separated fields. |
| Helpers.BinnedLabelInformationOf | database/helpers.py:69-70 | The fields of `<patient>_<label>_<annotator>_<date>_<rest>` come back reordered. |
| Helpers.LabelNameInformation | database/helpers.py:81-83 | Succeeds exactly when the file name has five `_`-separated fields. |
| Helpers.LabelNameInformationOf | database/helpers.py:81-83 | The fields of `<id>_<name>_<annotator>_<date>_<category>` come back. |
| Helpers.AlignedLabelData | database/helpers.py:279-281 | Succeeds exactly when the file name has six `_`-separated fields. |
| Helpers.AlignedLabelDataOf | database/helpers.py:279-281 | The six fields come back with the date as `YYYY-MM-DD`. |
| Helpers.FrameIndexOfFrameTime | src/epiphyte/database/helpers.py:147-150 | The time stamp of frame j is looked up at j-1 in the packaged copy and at j in the legacy one. |
| Helpers.MatchLabel | src/epiphyte/database/helpers.py:134-150 | One label entry per watched time stamp, in order, at index round(pts/0.04)-1; a negative index counts from the end, one beyond either end is an error. In database/helpers.py, lines 245-246: the legacy copy uses index round(pts/0.04), without the -1. |
| Helpers.MatchLabelExample | src/epiphyte/database/helpers.py:147-150 | [0.04, 0.04, 0.08] picks entries A, A, B (packaged) and B, B, C (legacy); time 0.0 picks the last entry in the packaged copy. |
| Helpers.PatientIds | src/epiphyte/database/helpers.py:153-163 | The `patient_id` of every entry, in order, one per entry; an entry without one is an error. |
| Helpers.GetListOfPatientIds | database/helpers.py:284-289 | The appending loop returns what `PatientIds` specifies. |
| WatchLogs.MovieFlag | src/epiphyte/preprocessing/annotation/stimulus_driven_annotation/movies/watch_log.py:25 | 0 exactly for a time stamp above 5029 s, else 1. |
| WatchLogs.CutTimeToMoviePts | src/epiphyte/preprocessing/annotation/stimulus_driven_annotation/movies/watch_log.py:181-217 | The method with the source's loop returns what `Cut` specifies, including the error for a kept position without a CPU time. |
| WatchLogs.CutKeepsMovie | src/epiphyte/preprocessing/annotation/stimulus_driven_annotation/movies/watch_log.py:205-217 | The kept time stamps and CPU times are read at the same ascending positions, and each kept time stamp is at most 5029. |
| WatchLogs.CutDropsPastMovie | src/epiphyte/preprocessing/annotation/stimulus_driven_annotation/movies/watch_log.py:205-217 | The dropped positions ascend, are exactly those above 5029, and kept plus dropped equal the input's length. |
| WatchLogs.CutMissing | src/epiphyte/preprocessing/annotation/stimulus_driven_annotation/movies/watch_log.py:210-213 | A kept time stamp without a CPU time makes the trimming fail. |
| WatchLogs.LastPtsLineSpec | src/epiphyte/preprocessing/annotation/stimulus_driven_annotation/movies/watch_log.py:130-136 | The search finds the last line starting with `pts`, and nothing exactly when there is none. |
| WatchLogs.Thousandth | src/epiphyte/preprocessing/annotation/stimulus_driven_annotation/movies/watch_log.py:128-138 | int(x/1000): x divided by 1000, truncated toward zero. |
| WatchLogs.LineCpuTimeOf | src/epiphyte/preprocessing/annotation/stimulus_driven_annotation/movies/watch_log.py:128-138 | A line ending in the integer v has the CPU time int(v/1000). |
| WatchLogs.ExtractStartAndEndTime | src/epiphyte/preprocessing/annotation/stimulus_driven_annotation/movies/watch_log.py:112-138 | The method with the source's backward loop returns the CPU time of the second line and of the last `pts` line, or the error when either is missing or malformed. |
| WatchLogs.Round2 | src/epiphyte/preprocessing/annotation/stimulus_driven_annotation/movies/watch_log.py:172 | `round(x, 2)` lies within 0.005 of x. |
| WatchLogs.Round2Idempotent | src/epiphyte/preprocessing/annotation/stimulus_driven_annotation/movies/watch_log.py:172 | Rounding to hundredths twice is rounding once. |
| WatchLogs.GetTimesFromWatchLog | src/epiphyte/preprocessing/annotation/stimulus_driven_annotation/movies/watch_log.py:140-179 | The method with the source's loop returns what `TimesFromWatchLog` specifies. |
| WatchLogs.TimesFromWatchLogAligned | src/epiphyte/preprocessing/annotation/stimulus_driven_annotation/movies/watch_log.py:166-179 | When every data line parses the read succeeds; the kept time stamps are rounded, within the movie and as many as the kept CPU times; kept plus dropped equal the number of data lines. |
| WatchLogs.Seconds | src/epiphyte/preprocessing/annotation/stimulus_driven_annotation/movies/watch_log.py:71 | One entry per CPU time stamp, each int(x/1000). |
| WatchLogs.WatchLog.constructor | src/epiphyte/preprocessing/annotation/stimulus_driven_annotation/movies/watch_log.py:55-74 | The new log holds the path, start, end, duration end-start, the time stamps, the CPU times in thousandths and one table row per time stamp. |
| WatchLogs.WatchLog.Open | src/epiphyte/preprocessing/annotation/stimulus_driven_annotation/movies/watch_log.py:55-74 | Fails exactly when reading the start and end time or the time stamps fails; otherwise the start, end, duration end-start, the trimmed time stamps, the CPU times in thousandths and the table rows in log order. |
| WatchLogs.WatchLog.SetStartTime | src/epiphyte/preprocessing/annotation/stimulus_driven_annotation/movies/watch_log.py:94-101 | Only the start time changes; the duration is not recomputed. |
| WatchLogs.WatchLog.SetEndTime | src/epiphyte/preprocessing/annotation/stimulus_driven_annotation/movies/watch_log.py:103-110 | Only the end time changes; the duration is not recomputed. |
| ClipToCont.ClipArray | data_preprocessing/clip_to_cont.py:7-41 | The method with the source's loop returns what `Clip` specifies. |
| ClipToCont.ClipPartitions | data_preprocessing/clip_to_cont.py:33-39 | Both position lists ascend; the first holds exactly the positions marked 1 and the second those marked 0; each kept or set-aside bin is the spike train at its position. |
| ClipToCont.ClipDisjoint | data_preprocessing/clip_to_cont.py:33-41 | No position is both kept and set aside, and the two lists together are no longer than the indicator. |
| ClipToCont.ClipFailsOnShortTrain | data_preprocessing/clip_to_cont.py:35-39 | A position marked 0 or 1 without a bin makes the clipping fail. |
| ArtifactVec.GetArtInd | src/epiphyte/preprocessing/data_preprocessing/apply_artifact_vec.py:10-31 | The positions whose flag is 0, ascending, and all of them; a path is loaded, a vector used directly. |
| ArtifactVec.RemoveArtFromArray | src/epiphyte/preprocessing/data_preprocessing/apply_artifact_vec.py:33-56 | Succeeds exactly when every index is within np.delete's range, and is then no longer than the array. |
| ArtifactVec.ArtIndicesNameMarked | src/epiphyte/preprocessing/data_preprocessing/apply_artifact_vec.py:29 | The found indices name exactly the positions flagged 0. |
| ArtifactVec.RemoveArtifactsOk | src/epiphyte/preprocessing/data_preprocessing/apply_artifact_vec.py:29-50 | Removing the found artifacts succeeds exactly when no position beyond the array is flagged 0, and then leaves the array without the flagged positions. |
| ArtifactVec.ArtifactsRemovedKeepsUnmarked | src/epiphyte/preprocessing/data_preprocessing/apply_artifact_vec.py:29-50 | For a vector as long as the array, the result holds, in order, the array's entries at exactly the unflagged positions, as many as the array has, less the number of indices. |
| Text.ParseIntToString | src/epiphyte/preprocessing/data_preprocessing/data_utils.py:141 | `int()` reads back every integer written in decimal, sign included. |
| Text.SplitOnCount | database/helpers.py:62 | `str.split(sep)` gives one more piece than the string has separators. |
| Text.JoinSplitOn | database/helpers.py:62 | Joining the pieces of a split with the separator gives the string back. |
| Text.SplitOnJoin | database/helpers.py:62 | Splitting separator-free pieces joined by the separator gives the pieces back. |
| Text.Slice | src/epiphyte/database/helpers.py:128-130 | Python slicing: bounds below zero count from the end, bounds are clipped to the sequence, and crossed bounds give the empty slice. |
| Segments.WeightTable | src/epiphyte/preprocessing/data_preprocessing/create_vectors_from_time_points.py:347-358 | One row for the first segment, one per middle segment and one for the last, which holds the last segment's value weighted by tp2 minus its start. |

## Left out

- Reading files is not modelled. The parsers work on given bytes, lines or records. This covers the `nev_read` memory map, `getlines`, `np.load`, `np.save`, `json.load` and the file opening in `get_channel_names`. `nev_read`'s branch that loads a mock `.npy` array is left out too.
- `nev_string_read` (src/epiphyte/preprocessing/data_preprocessing/data_utils.py:42-51, preprocessing/data_preprocessing/data_utils.py:25-31) pairs timestamps with the event strings; no modelled operation calls it, and it is not modelled.
- EventLog.ReadEvents: a header-only file is an error, as on Linux, where the 16384-byte offset falls on a page boundary and nothing is left to map; platforms or numpy versions whose memory map returns an empty array there are not modelled.
- `clip_binaries`, the save branch of `remove_art_from_array` and `extract_information_from_continuous_watch_folder` only list directories, load arrays or write them, so they are left out.
- The model splits a watch log into lines as text mode does, not as a binary `splitlines()`. Lines are given already split.
- Floating point is not modelled. Times are exact reals, so `np.linspace` spacing, `x / 1000` and the fit are exact. `float()` on a word is the parameter `parseFloat`.
- `np.polyfit` is modelled as the exact least-squares line.
- ClockAlignment.Fit: when every x is equal, numpy returns a rank-deficient fit. The model reports the degenerate-fit error instead.
- The model does not compute the maximum fit error.
- Every `print` is left out: the DAQ latency minimum and maximum, the fit error and the skip report.
- The DataFrames are modelled as lists of rows: `df_pts_cpu` in `WatchLog` and the weight table in `get_value_in_time_frame`. `DataFrame.append`, which the weight table uses, no longer exists under the `pandas>=2.2.0` that `setup.py` requires; the model keeps the arithmetic as written.
- Segments.ValueInTimeFrame: the source tests `in df.values` against both the value and the weight column. The model tests only the value column. This gives the same result, because the update that follows only touches rows with an equal value.
- Segments.ValueInTimeFrame: among rows of equal greatest weight, the row that came first wins. This follows the insertion order of the source.
- `np.where` returns a tuple of arrays; the model keeps only the index sequence.
- Strings are ASCII. `\w`, `\d` and `isdigit` cover ASCII letters, digits and `_` only.
- Text.ParseInt: does not accept the `_` digit separators that Python's `int()` allows between digits (`int(b"1_000")` is 1000); a field written that way is a `ParseError` in the model.
- The `natural_keys` order is modelled up to comparing chunks of the same kind. Python's error when a text chunk meets a number chunk is not modelled.
- The two legacy callers that pass one argument to `make_label_from_start_stop_times` (annotation/stimulus_driven_annotation/movies/processing_labels.py:70 and :145) always fail with a `TypeError`. They are not modelled.
- Left out as persistence or presentation: the `fill_*` functions, the DataJoint tables and queries, the mock-data generators and the plotting code.
- WatchLogs.WatchLog.GetStartTime and WatchLogs.WatchLog.GetEndTime only return a field, so they carry no contract.
- ClockAlignment.ApplyLine: its own contract states only the length. What it computes per entry is stated by `ClockAlignment.Convert`, `ClockAlignment.ApplyLineInvertible` and `ClockAlignment.ApplyLineIncreasing`.
- NdArray.Argmin: its own contract states only the bound. Nearness and first-position are stated by `NdArray.ArgminNearest`.
- Segments.NearestIndex, Segments.IndexMatchingStart, Segments.IndexMatchingStop: their own contracts give bounds only. Their meaning is in the `...IsFirstNearest`, `...IsFloor` and `...IsCeiling` lemmas, which need a strictly increasing axis.
- PauseHandling.RmPausesSpikes: its own contract only gives the failure cases. The spikes kept are stated by `PauseHandling.RmPausesSpikesKeeps`.
- ClockAlignment.Skips: its own contract only gives the failure case. The segments are stated by `ClockAlignment.SkipSegmentsAreRuns`, `ClockAlignment.SkipAtThreshold` and `ClockAlignment.NoSkipBelowThreshold`.

### Behaviour of the code worth knowing

- Only lines with the wrong number of fields are skipped. A four-field line whose number does not parse raises in `float()` or `int()`, and the model returns `ParseError` (`LogParsers.WatchlogFailsOn`, `LogParsers.DaqlogFailsOn`).
- Code arrays of different lengths are not always refused. NumPy broadcasts a one-element array against the other, so `get_coeff` compares it with every entry (`ClockAlignment.CodeErrors`).
- The skip branch is taken when the largest jump is `>=` 1 s. A skip is then recorded only where a jump is `>` 1 s. A largest jump of exactly 1 s therefore gives one segment as lists (`ClockAlignment.SkipAtThreshold`).
- `process_events` accepts 4 or 8 markers of code 101. With four markers, `onsets[4]` is out of range, so only eight markers succeed (`EventLog.ProcessEventsOutcome`).
- The frame index of a time stamp is `round(pts/0.04) - 1` in the packaged copy. The `database/helpers.py` copy has no `- 1` (`Helpers.MatchLabel`, `Helpers.MatchLabelExample`).
- The edge count is `int()` of the span over the bin size, which truncates toward zero rather than taking the floor (`Common.TruncBounds`, `Indicators.RecordingEdges`).
- The round trip is proved from a label through its segments back to the label (`Labels.LabelRoundTrip`). The segments-to-label-to-segments direction holds only for contiguous, sample-aligned segments and is not stated.

## Findings

| source | as written | input that shows it | evidently intended | confidence | as-written member | corrected member |
|---|---|---|---|---|---|---|
| src/epiphyte/database/helpers.py:62-68 | the greedy `(\w+)` takes the unit digits, so `(\d*)` is always empty and the unit number is 0 | `CSC2_SU1.npy` gives `(2, "SU1", 0)` | `(2, "SU", 1)`: channel, unit type, unit number, as documented | not executed | Helpers.ExtractSortKeyExample | Helpers.ExtractSortKeyIntendedSplits |
| src/epiphyte/database/helpers.py:88 | `line[:-5 - 1]` cuts six characters, but a file read in text mode ends each line in a single `\n`, so the cut also takes the last character of the name | `CSC1.ncs\n` gives `CSC` | the bare channel name `CSC1`, as the docstring (lines 71-76) and the comment (line 87) describe; against this, the callers store the result as `brain_region` (database/db_setup.py:219, database/helpers.py:147), and the mock writer's `<region><n>.ncs` lines (mock_data/mock_data_utils.py:82) lose exactly a one-digit `n`, so the cut may be deliberate | not executed; low, the callers suggest the cut may be intended | Helpers.ChannelNameDropsLastLetter | Helpers.ChannelNameIntendedOf |
