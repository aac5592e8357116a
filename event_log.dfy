/**
 * The Neuralynx event file and the extraction of the movie-frame TTL
 * sequence from it.
 *
 * An event file is a 16 KiB header followed by fixed 184-byte records:
 * 6 padding bytes, a little-endian unsigned 64-bit timestamp, a signed
 * 16-bit id, a signed 16-bit TTL value, 38 padding bytes and a 128-byte
 * event string.  Reading it yields one `(timestamp, ttl)` row per record.
 *
 * The stimulus computer signals every movie frame with a TTL code that
 * cycles through 1, 2, 4, …, 128 and is released to 0 between codes.
 * `ProcessMovieEvents` keeps, from the raw rows, exactly the rows of that
 * handshake; `ProcessEvents` first cuts the movie part out of a whole
 * session (screening markers 101, 8 and 4).
 */
module EventLog {
  import opened Common
  import opened NdArray
  import opened Text

  type Byte = b: int | 0 <= b < 256

  const HeaderSize: nat := 16 * 1024
  const PadBefore: nat := 6
  const TimestampSize: nat := 8
  const IdSize: nat := 2
  const TtlSize: nat := 2
  const PadAfter: nat := 38
  const StringSize: nat := 128
  const RecordSize: nat := 184

  /** The record fields add up to the record size. */
  lemma {:induction false} RecordLayout()
    ensures PadBefore + TimestampSize + IdSize + TtlSize + PadAfter + StringSize == RecordSize
  {
  }

  datatype Record = Record(timestamp: nat, id: int, ttl: int, evString: seq<Byte>)

  datatype Event = Event(timestamp: int, code: int)

  function Pow256(k: nat): nat
  {
    if k == 0 then 1 else 256 * Pow256(k - 1)
  }

  /** Unsigned little-endian value of a byte string. */
  function LittleEndian(bs: seq<Byte>): (n: nat)
    ensures n < Pow256(|bs|)
  {
    if bs == [] then 0 else bs[0] + 256 * LittleEndian(bs[1..])
  }

  /** The `k` least significant bytes of `n`, least significant first. */
  function LittleEndianBytes(n: nat, k: nat): (bs: seq<Byte>)
    ensures |bs| == k
  {
    if k == 0 then [] else [n % 256] + LittleEndianBytes(n / 256, k - 1)
  }

  lemma {:induction false} LittleEndianRoundTrip(n: nat, k: nat)
    requires n < Pow256(k)
    ensures LittleEndian(LittleEndianBytes(n, k)) == n
  {
    if k > 0 {
      assert n / 256 < Pow256(k - 1);
      LittleEndianRoundTrip(n / 256, k - 1);
      assert LittleEndianBytes(n, k)[1..] == LittleEndianBytes(n / 256, k - 1);
    }
  }

  /** Two's-complement reading of a 16-bit value. */
  function Int16(u: nat): int
    requires u < 65536
  {
    if u >= 32768 then u - 65536 else u
  }

  function Int16Bits(v: int): nat
    requires -32768 <= v < 32768
  {
    if v < 0 then v + 65536 else v
  }

  predicate ValidRecord(r: Record)
  {
    r.timestamp < Pow256(TimestampSize) && -32768 <= r.id < 32768 && -32768 <= r.ttl < 32768
    && |r.evString| == StringSize
  }

  /** One 184-byte record as the `nev_type` dtype views it. */
  function DecodeRecord(bs: seq<Byte>): (r: Record)
    requires |bs| == RecordSize
    ensures ValidRecord(r)
  {
    assert Pow256(2) == 65536;
    Record(LittleEndian(bs[6..14]), Int16(LittleEndian(bs[14..16])), Int16(LittleEndian(bs[16..18])), bs[56..184])
  }

  /** The bytes of a record, with arbitrary padding. */
  function EncodeRecord(r: Record, padBefore: seq<Byte>, padAfter: seq<Byte>): (bs: seq<Byte>)
    requires ValidRecord(r) && |padBefore| == PadBefore && |padAfter| == PadAfter
    ensures |bs| == RecordSize
  {
    assert Pow256(2) == 65536;
    padBefore + LittleEndianBytes(r.timestamp, 8) + LittleEndianBytes(Int16Bits(r.id), 2)
    + LittleEndianBytes(Int16Bits(r.ttl), 2) + padAfter + r.evString
  }

  /** Decoding a written record gives it back, whatever the padding holds. */
  lemma {:induction false} DecodeEncodeRecord(r: Record, padBefore: seq<Byte>, padAfter: seq<Byte>)
    requires ValidRecord(r) && |padBefore| == PadBefore && |padAfter| == PadAfter
    ensures DecodeRecord(EncodeRecord(r, padBefore, padAfter)) == r
  {
    assert Pow256(2) == 65536;
    var bs := EncodeRecord(r, padBefore, padAfter);
    assert bs[6..14] == LittleEndianBytes(r.timestamp, 8);
    assert bs[14..16] == LittleEndianBytes(Int16Bits(r.id), 2);
    assert bs[16..18] == LittleEndianBytes(Int16Bits(r.ttl), 2);
    assert bs[56..184] == r.evString;
    LittleEndianRoundTrip(r.timestamp, 8);
    LittleEndianRoundTrip(Int16Bits(r.id), 2);
    LittleEndianRoundTrip(Int16Bits(r.ttl), 2);
  }

  function ToEvent(r: Record): Event { Event(r.timestamp, r.ttl) }

  /** The records of a body made of whole records. */
  function DecodeAll(body: seq<Byte>): (rs: seq<Record>)
    requires |body| % RecordSize == 0
    ensures |rs| == |body| / RecordSize
    decreases |body|
  {
    if body == [] then [] else [DecodeRecord(body[..RecordSize])] + DecodeAll(body[RecordSize..])
  }

  /** Records written back to back with zero padding. */
  function EncodeAll(rs: seq<Record>): (body: seq<Byte>)
    requires forall k :: 0 <= k < |rs| ==> ValidRecord(rs[k])
    ensures |body| == |rs| * RecordSize
  {
    if rs == [] then []
    else EncodeRecord(rs[0], seq(PadBefore, _ => 0), seq(PadAfter, _ => 0)) + EncodeAll(rs[1..])
  }

  /**
   * `nev_read`: the `(timestamp, ttl)` rows of an event file.  The memory
   * map refuses a file whose body is empty (the header offset is a multiple
   * of the page size, so nothing is left to map), a file shorter than its
   * header, and a body that is not a whole number of records.
   */
  function ReadEvents(file: seq<Byte>): (r: Result<seq<Event>>)
    ensures r.Ok? <==> |file| > HeaderSize && (|file| - HeaderSize) % RecordSize == 0
    ensures r.Ok? ==> 0 < |r.value| == (|file| - HeaderSize) / RecordSize
    ensures r.Err? ==> r.error == MalformedFile
  {
    if |file| <= HeaderSize || (|file| - HeaderSize) % RecordSize != 0 then Err(MalformedFile)
    else
      var rs := DecodeAll(file[HeaderSize..]);
      Ok(seq(|rs|, k requires 0 <= k < |rs| => ToEvent(rs[k])))
  }

  lemma {:induction false} DecodeAllEncodeAll(rs: seq<Record>)
    requires forall k :: 0 <= k < |rs| ==> ValidRecord(rs[k])
    ensures |EncodeAll(rs)| % RecordSize == 0
    ensures DecodeAll(EncodeAll(rs)) == rs
  {
    if rs != [] {
      var head := EncodeRecord(rs[0], seq(PadBefore, _ => 0), seq(PadAfter, _ => 0));
      var body := EncodeAll(rs);
      assert body == head + EncodeAll(rs[1..]);
      assert body[..RecordSize] == head;
      assert body[RecordSize..] == EncodeAll(rs[1..]);
      DecodeEncodeRecord(rs[0], seq(PadBefore, _ => 0), seq(PadAfter, _ => 0));
      DecodeAllEncodeAll(rs[1..]);
    }
  }

  /**
   * Reading a file written from records gives back their timestamps and TTL
   * values; a file holding the header alone is refused.
   */
  lemma {:induction false} ReadEventsRoundTrip(header: seq<Byte>, rs: seq<Record>)
    requires |header| == HeaderSize
    requires forall k :: 0 <= k < |rs| ==> ValidRecord(rs[k])
    ensures rs != [] ==> ReadEvents(header + EncodeAll(rs)) == Ok(seq(|rs|, k requires 0 <= k < |rs| => ToEvent(rs[k])))
    ensures rs == [] ==> ReadEvents(header + EncodeAll(rs)) == Err(MalformedFile)
  {
    DecodeAllEncodeAll(rs);
    assert (header + EncodeAll(rs))[HeaderSize..] == EncodeAll(rs);
  }

  // ----------------------------------------------------------- movie codes

  /** The codes of the frame handshake. */
  const MovieCodes: set<int> := {1, 2, 4, 8, 16, 32, 64, 128}

  function Pow2(e: nat): nat
  {
    if e == 0 then 1 else 2 * Pow2(e - 1)
  }

  /** The code the `k`-th kept movie event carries: 1, 2, 4, …, 128, 1, 2, … */
  function CycleCode(k: nat): int { Pow2(k % 8) }

  lemma {:induction false} CycleCodes(k: nat)
    ensures CycleCode(k) in MovieCodes
    ensures CycleCode(k) == 128 ==> CycleCode(k + 1) == 1
    ensures CycleCode(k) != 128 ==> CycleCode(k + 1) == 2 * CycleCode(k) && CycleCode(k) in {1, 2, 4, 8, 16, 32, 64}
  {
    var e := k % 8;
    assert (k + 1) % 8 == if e == 7 then 0 else e + 1;
    assert Pow2(0) == 1 && Pow2(1) == 2 && Pow2(2) == 4 && Pow2(3) == 8;
    assert Pow2(4) == 16 && Pow2(5) == 32 && Pow2(6) == 64 && Pow2(7) == 128;
  }

  /**
   * The state of the filter: the single code it waits for, the last code it
   * accepted, the positions of the kept rows and of the accepted releases.
   */
  datatype ScanState = ScanState(waitFor: int, last: int, kept: seq<nat>, released: seq<nat>)

  const Initial: ScanState := ScanState(1, 0, [], [])

  /** After a released code the filter waits for the next code of the cycle. */
  function NextWait(last: int, waitFor: int): int
  {
    if last == 128 then 1 else if last in {1, 2, 4, 8, 16, 32, 64} then last * 2 else waitFor
  }

  /** One row of `process_movie_events`. */
  function Step(st: ScanState, code: int, i: nat): ScanState
  {
    if code != st.waitFor then st
    else if code in MovieCodes then st.(waitFor := 0, last := code, kept := st.kept + [i])
    else if code == 0 then st.(waitFor := NextWait(st.last, st.waitFor), last := code, released := st.released + [i])
    else st.(last := code)
  }

  function Codes(rows: seq<Event>): (cs: seq<int>)
    ensures |cs| == |rows| && forall i :: 0 <= i < |rows| ==> cs[i] == rows[i].code
  {
    seq(|rows|, i requires 0 <= i < |rows| => rows[i].code)
  }

  /** The filter state after the first `n` codes. */
  function Scan(codes: seq<int>, n: nat): ScanState
    requires n <= |codes|
  {
    if n == 0 then Initial else Step(Scan(codes, n - 1), codes[n - 1], n - 1)
  }

  /** Positions of the rows `process_movie_events` keeps. */
  function MovieEventIndices(rows: seq<Event>): (idx: seq<nat>)
    ensures forall k :: 0 <= k < |idx| ==> idx[k] < |rows|
  {
    ScanKeepsInvariant(Codes(rows), |rows|);
    Scan(Codes(rows), |rows|).kept
  }

  /** The rows `process_movie_events` keeps, in their order. */
  function MovieEvents(rows: seq<Event>): seq<Event>
  {
    Gather(rows, MovieEventIndices(rows))
  }

  predicate KeptCycle(codes: seq<int>, n: nat, K: seq<nat>)
    requires n <= |codes|
  {
    Ascending(K) && forall k :: 0 <= k < |K| ==> K[k] < n && codes[K[k]] == CycleCode(k)
  }

  predicate ReleasesBetween(codes: seq<int>, n: nat, K: seq<nat>, R: seq<nat>)
    requires n <= |codes| && |R| <= |K|
  {
    (forall k :: 0 <= k < |R| ==> K[k] < R[k] < n && codes[R[k]] == 0)
    && (forall k :: 0 <= k < |R| && k + 1 < |K| ==> R[k] < K[k + 1])
  }

  /** What the filter state always satisfies. */
  predicate ScanInvariant(codes: seq<int>, n: nat, st: ScanState)
    requires n <= |codes|
  {
    var K := st.kept;
    var R := st.released;
    KeptCycle(codes, n, K)
    && (st.waitFor == 0 ==> |K| > 0 && st.last == CycleCode(|K| - 1) && |R| == |K| - 1)
    && (st.waitFor != 0 ==> st.last == 0 && st.waitFor == CycleCode(|K|) && |R| == |K|)
    && |R| <= |K| && ReleasesBetween(codes, n, K, R)
  }

  lemma {:induction false} ScanKeepsInvariant(codes: seq<int>, n: nat)
    requires n <= |codes|
    ensures ScanInvariant(codes, n, Scan(codes, n))
  {
    if n > 0 {
      ScanKeepsInvariant(codes, n - 1);
      var st := Scan(codes, n - 1);
      var c := codes[n - 1];
      if c != st.waitFor {
        IgnoreStep(codes, n, st);
      } else if c in MovieCodes {
        KeepStep(codes, n, st);
      } else if c == 0 {
        ReleaseStep(codes, n, st);
      } else {
        CycleCodes(|st.kept|);
      }
    }
  }

  /** A code other than the awaited one changes nothing. */
  lemma {:induction false} IgnoreStep(codes: seq<int>, n: nat, st: ScanState)
    requires 0 < n <= |codes| && ScanInvariant(codes, n - 1, st) && codes[n - 1] != st.waitFor
    ensures ScanInvariant(codes, n, Step(st, codes[n - 1], n - 1))
  {
  }

  /** The awaited movie code is kept, and the filter then awaits the release. */
  lemma {:induction false} KeepStep(codes: seq<int>, n: nat, st: ScanState)
    requires 0 < n <= |codes| && ScanInvariant(codes, n - 1, st)
    requires codes[n - 1] == st.waitFor && codes[n - 1] in MovieCodes
    ensures ScanInvariant(codes, n, Step(st, codes[n - 1], n - 1))
  {
    var K, R := st.kept, st.released;
    CycleCodes(|K|);
    var K' := K + [n - 1];
    assert KeptCycle(codes, n, K');
    assert ReleasesBetween(codes, n, K', R);
  }

  /** The awaited release is recorded, and the filter then awaits the next code of the cycle. */
  lemma {:induction false} ReleaseStep(codes: seq<int>, n: nat, st: ScanState)
    requires 0 < n <= |codes| && ScanInvariant(codes, n - 1, st)
    requires codes[n - 1] == st.waitFor == 0
    ensures ScanInvariant(codes, n, Step(st, codes[n - 1], n - 1))
  {
    var K, R := st.kept, st.released;
    assert |K| > 0 && st.last == CycleCode(|K| - 1) && |R| == |K| - 1;
    CycleCodes(|K| - 1);
    assert NextWait(st.last, st.waitFor) == CycleCode(|K|);
    var R' := R + [n - 1];
    var st' := Step(st, codes[n - 1], n - 1);
    assert st' == st.(waitFor := CycleCode(|K|), last := 0, released := R');
    assert KeptCycle(codes, n, K) by {
      assert forall k :: 0 <= k < |K| ==> K[k] < n - 1 && codes[K[k]] == CycleCode(k);
    }
    assert ReleasesBetween(codes, n, K, R') by {
      forall k | 0 <= k < |R'| ensures K[k] < R'[k] < n && codes[R'[k]] == 0 {
        if k < |R| {
          assert R'[k] == R[k];
        } else {
          assert R'[k] == n - 1 && K[k] < n - 1;
        }
      }
      forall k | 0 <= k < |R'| && k + 1 < |K| ensures R'[k] < K[k + 1] {
        assert k < |R| && R'[k] == R[k];
      }
    }
  }

  /** Some row strictly between positions `a` and `b` carries the release code 0. */
  predicate ReleaseBetween(rows: seq<Event>, a: nat, b: nat)
  {
    exists j :: a < j < b && j < |rows| && rows[j].code == 0
  }

  lemma {:induction false} ScanKeptBelow(codes: seq<int>, n: nat)
    requires n <= |codes|
    ensures forall k :: 0 <= k < |Scan(codes, n).kept| ==> Scan(codes, n).kept[k] < n
  {
    ScanKeepsInvariant(codes, n);
  }

  /**
   * The kept rows are a subsequence of the input whose codes run through the
   * cycle 1, 2, 4, …, 128, 1, … from its start, and consecutive kept rows are
   * separated by an accepted release (a row with code 0).
   */
  lemma {:induction false} MovieEventsFollowCycle(rows: seq<Event>)
    ensures Ascending(MovieEventIndices(rows))
    ensures forall k :: 0 <= k < |MovieEvents(rows)| ==> MovieEvents(rows)[k].code == CycleCode(k)
    ensures forall k :: 0 <= k < |MovieEventIndices(rows)| - 1 ==>
      ReleaseBetween(rows, MovieEventIndices(rows)[k], MovieEventIndices(rows)[k + 1])
  {
    var codes := Codes(rows);
    ScanKeepsInvariant(codes, |rows|);
    var st := Scan(codes, |rows|);
    var K := st.kept;
    assert K == MovieEventIndices(rows);
    forall k | 0 <= k < |K| - 1
      ensures ReleaseBetween(rows, K[k], K[k + 1])
    {
      var j := st.released[k];
      assert K[k] < j < K[k + 1] && j < |rows| && rows[j].code == 0;
    }
  }

  /**
   * `process_movie_events`: keeps a row when its code is the one awaited;
   * after a kept code the filter awaits the release 0, after the release the
   * next code of the cycle.
   */
  method ProcessMovieEvents(rows: seq<Event>) returns (keep: seq<Event>)
    ensures keep == MovieEvents(rows)
  {
    var waitFor := 1;
    var last := 0;
    keep := [];
    ghost var codes := Codes(rows);
    var i := 0;
    while i < |rows|
      invariant 0 <= i <= |rows|
      invariant forall k :: 0 <= k < |Scan(codes, i).kept| ==> Scan(codes, i).kept[k] < i
      invariant waitFor == Scan(codes, i).waitFor && last == Scan(codes, i).last
      invariant keep == Gather(rows, Scan(codes, i).kept)
    {
      ghost var st := Scan(codes, i);
      ghost var next := Step(st, codes[i], i);
      assert Scan(codes, i + 1) == next;
      ScanKeptBelow(codes, i + 1);
      var code := rows[i].code;
      assert code == codes[i];
      if code != waitFor {
        assert next == st;
      } else if code in MovieCodes {
        waitFor := 0;
        assert next.kept == st.kept + [i];
        assert Gather(rows, st.kept + [i]) == Gather(rows, st.kept) + [rows[i]];
        keep := keep + [rows[i]];
        last := code;
      } else if code == 0 {
        if last == 128 {
          waitFor := 1;
        } else if last in {1, 2, 4, 8, 16, 32, 64} {
          waitFor := last * 2;
        }
        last := code;
        assert next.kept == st.kept;
      } else {
        last := code;
      }
      i := i + 1;
    }
    assert rows[..|rows|] == rows;
  }

  /**
   * The NumPy array of event rows `process_events` returns: a two-column
   * array, or, when the movie filter kept nothing, `np.array([])`, which is
   * one-dimensional and has no columns to index.
   */
  datatype EventArray = Columns(rows: seq<Event>) | Flat

  /** `np.array(keep)` of the kept rows. */
  function KeptArray(keep: seq<Event>): EventArray
  {
    if keep == [] then Flat else Columns(keep)
  }

  /** Before a code 1 arrives the filter is still in its initial state. */
  lemma {:induction false} ScanWithoutFirstCode(codes: seq<int>, n: nat)
    requires n <= |codes|
    requires forall i :: 0 <= i < n ==> codes[i] != 1
    ensures Scan(codes, n) == Initial
  {
    if n > 0 {
      ScanWithoutFirstCode(codes, n - 1);
    }
  }

  /** Rows without a code 1 give the movie filter nothing to keep. */
  lemma {:induction false} NoFirstCodeKeepsNothing(rows: seq<Event>)
    requires 1 !in Codes(rows)
    ensures MovieEvents(rows) == []
  {
    ScanWithoutFirstCode(Codes(rows), |rows|);
  }

  /**
   * `process_events`: when the screening marker 101 occurs, the movie part
   * runs from after the second-to-last code 4 that precedes the first code 8
   * up to the fifth 101 marker, and the movie filter is applied to it (a
   * filter that keeps nothing gives the one-dimensional empty array); the
   * number of 101 markers must be 4 or 8.  Without a 101 marker the packaged
   * copy passes the rows through when no code 0 occurs, and otherwise ends
   * with an unbound result; the legacy copy always takes the marker path.
   */
  function ProcessEvents(copy: Copy, rows: seq<Event>): Result<EventArray>
  {
    var codes := Codes(rows);
    if copy == Packaged && 101 !in codes then
      if 0 !in codes then Ok(Columns(rows)) else Err(UnboundResult)
    else
      var onsets := IndicesOf(codes, 101);
      var eights := IndicesOf(codes, 8);
      if |eights| == 0 then Err(IndexOutOfRange)
      else
        var fours := IndicesOf(codes[..eights[0]], 4);
        if |fours| < 2 then Err(IndexOutOfRange)
        else if |onsets| != 4 && |onsets| != 8 then Err(AssertionFailed)
        else if |onsets| <= 4 then Err(IndexOutOfRange)
        else Ok(KeptArray(MovieEvents(Slice(rows, fours[|fours| - 2] + 1, onsets[4]))))
  }

  /** The marker positions the cut is made at. */
  function MovieSegment(rows: seq<Event>): seq<Event>
    requires |IndicesOf(Codes(rows), 8)| > 0
    requires |IndicesOf(Codes(rows)[..IndicesOf(Codes(rows), 8)[0]], 4)| >= 2
    requires |IndicesOf(Codes(rows), 101)| > 4
  {
    var codes := Codes(rows);
    var fours := IndicesOf(codes[..IndicesOf(codes, 8)[0]], 4);
    Slice(rows, fours[|fours| - 2] + 1, IndicesOf(codes, 101)[4])
  }

  /**
   * A session is accepted only with exactly eight 101 markers (four of them
   * leave no fifth marker to cut at), or, in the packaged copy, as a raw pass
   * through when neither 101 nor 0 occurs.
   */
  lemma {:induction false} ProcessEventsOutcome(copy: Copy, rows: seq<Event>)
    ensures var r := ProcessEvents(copy, rows);
      r.Ok? <==>
        (copy == Packaged && 101 !in Codes(rows) && 0 !in Codes(rows))
        || ((copy != Packaged || 101 in Codes(rows))
            && |IndicesOf(Codes(rows), 101)| == 8
            && |IndicesOf(Codes(rows), 8)| > 0
            && |IndicesOf(Codes(rows)[..IndicesOf(Codes(rows), 8)[0]], 4)| >= 2)
    ensures var r := ProcessEvents(copy, rows);
      r.Ok? && (copy != Packaged || 101 in Codes(rows)) ==>
        r.value == KeptArray(MovieEvents(MovieSegment(rows)))
    ensures copy == Packaged && 101 !in Codes(rows) && 0 in Codes(rows) ==> ProcessEvents(copy, rows) == Err(UnboundResult)
    ensures copy == Packaged && 101 !in Codes(rows) && 0 !in Codes(rows) ==> ProcessEvents(copy, rows) == Ok(Columns(rows))
    ensures |IndicesOf(Codes(rows), 101)| == 4 ==> ProcessEvents(copy, rows).Err?
  {
    IndicesOfSpec(Codes(rows), 101);
  }

  /**
   * A session without a code 1 that takes the marker path gives the movie
   * filter nothing to keep, and so ends with the one-dimensional empty array.
   */
  lemma {:induction false} NoFirstCodeIsFlat(copy: Copy, rows: seq<Event>)
    requires copy != Packaged || 101 in Codes(rows)
    requires 1 !in Codes(rows)
    requires ProcessEvents(copy, rows).Ok?
    ensures ProcessEvents(copy, rows) == Ok(Flat)
  {
    ProcessEventsOutcome(copy, rows);
    MovieSegmentWithoutFirstCode(rows);
    NoFirstCodeKeepsNothing(MovieSegment(rows));
  }

  lemma {:induction false} MovieSegmentWithoutFirstCode(rows: seq<Event>)
    requires |IndicesOf(Codes(rows), 8)| > 0
    requires |IndicesOf(Codes(rows)[..IndicesOf(Codes(rows), 8)[0]], 4)| >= 2
    requires |IndicesOf(Codes(rows), 101)| > 4
    requires 1 !in Codes(rows)
    ensures 1 !in Codes(MovieSegment(rows))
  {
    var codes := Codes(rows);
    var fours := IndicesOf(codes[..IndicesOf(codes, 8)[0]], 4);
    SliceWithoutFirstCode(rows, fours[|fours| - 2] + 1, IndicesOf(codes, 101)[4]);
  }

  /** A cut of rows without a code 1 has no code 1 either. */
  lemma {:induction false} SliceWithoutFirstCode(rows: seq<Event>, lo: int, hi: int)
    requires 1 !in Codes(rows)
    ensures 1 !in Codes(Slice(rows, lo, hi))
  {
    var cut := Slice(rows, lo, hi);
    var a := SliceBound(lo, |rows|);
    forall i | 0 <= i < |cut| ensures Codes(cut)[i] != 1 {
      assert cut == rows[a..SliceBound(hi, |rows|)];
      assert Codes(cut)[i] == Codes(rows)[a + i];
    }
  }

  /** Two 4 codes, an 8 and eight 101 markers: the screening codes of a session without movie frames. */
  function ScreeningOnly(): seq<Event>
  {
    seq(11, i requires 0 <= i < 11 => Event(i, if i < 2 then 4 else if i == 2 then 8 else 101))
  }

  lemma {:induction false} ScreeningCodes()
    ensures Codes(ScreeningOnly()) == [4, 4, 8, 101, 101, 101, 101, 101, 101, 101, 101]
  {
  }

  lemma {:induction false} ScreeningMarkers()
    ensures |IndicesOf([4, 4, 8, 101, 101, 101, 101, 101, 101, 101, 101], 101)| == 8
  {
    var codes := [4, 4, 8, 101, 101, 101, 101, 101, 101, 101, 101];
    assert codes[..1][..0] == [];
    assert IndicesOf(codes[..1], 101) == [];
    assert codes[..2][..1] == codes[..1];
    assert IndicesOf(codes[..2], 101) == [];
    assert codes[..3][..2] == codes[..2];
    assert IndicesOf(codes[..3], 101) == [];
    assert codes[..4][..3] == codes[..3];
    assert IndicesOf(codes[..4], 101) == [3];
    assert codes[..5][..4] == codes[..4];
    assert IndicesOf(codes[..5], 101) == [3, 4];
    assert codes[..6][..5] == codes[..5];
    assert IndicesOf(codes[..6], 101) == [3, 4, 5];
    assert codes[..7][..6] == codes[..6];
    assert IndicesOf(codes[..7], 101) == [3, 4, 5, 6];
    assert codes[..8][..7] == codes[..7];
    assert IndicesOf(codes[..8], 101) == [3, 4, 5, 6, 7];
    assert codes[..9][..8] == codes[..8];
    assert IndicesOf(codes[..9], 101) == [3, 4, 5, 6, 7, 8];
    assert codes[..10][..9] == codes[..9];
    assert IndicesOf(codes[..10], 101) == [3, 4, 5, 6, 7, 8, 9];
    assert codes[..11][..10] == codes[..10];
    assert IndicesOf(codes[..11], 101) == [3, 4, 5, 6, 7, 8, 9, 10];
    assert codes[..11] == codes;
  }

  lemma {:induction false} ScreeningFirstEight()
    ensures IndicesOf([4, 4, 8, 101, 101, 101, 101, 101, 101, 101, 101], 8) == [2]
  {
    var codes := [4, 4, 8, 101, 101, 101, 101, 101, 101, 101, 101];
    assert codes[..1][..0] == [];
    assert IndicesOf(codes[..1], 8) == [];
    assert codes[..2][..1] == codes[..1];
    assert IndicesOf(codes[..2], 8) == [];
    assert codes[..3][..2] == codes[..2];
    assert IndicesOf(codes[..3], 8) == [2];
    assert codes[..4][..3] == codes[..3];
    assert IndicesOf(codes[..4], 8) == [2];
    assert codes[..5][..4] == codes[..4];
    assert IndicesOf(codes[..5], 8) == [2];
    assert codes[..6][..5] == codes[..5];
    assert IndicesOf(codes[..6], 8) == [2];
    assert codes[..7][..6] == codes[..6];
    assert IndicesOf(codes[..7], 8) == [2];
    assert codes[..8][..7] == codes[..7];
    assert IndicesOf(codes[..8], 8) == [2];
    assert codes[..9][..8] == codes[..8];
    assert IndicesOf(codes[..9], 8) == [2];
    assert codes[..10][..9] == codes[..9];
    assert IndicesOf(codes[..10], 8) == [2];
    assert codes[..11][..10] == codes[..10];
    assert IndicesOf(codes[..11], 8) == [2];
    assert codes[..11] == codes;
  }

  /** The session cut of `ScreeningOnly` is accepted and keeps no row. */
  lemma {:induction false} ScreeningOnlyIsFlat(copy: Copy)
    ensures ProcessEvents(copy, ScreeningOnly()) == Ok(Flat)
  {
    var rows := ScreeningOnly();
    ScreeningCodes();
    ScreeningMarkers();
    ScreeningFirstEight();
    var codes := Codes(rows);
    assert codes[..2] == [4, 4];
    assert IndicesOf(codes[..2], 4) == [0, 1] by {
      assert codes[..2][..1] == [4];
    }
    assert 101 in codes && 1 !in codes;
    ProcessEventsOutcome(copy, rows);
    NoFirstCodeIsFlat(copy, rows);
  }

  /** Without a 101 marker the copy under preprocessing/ always fails. */
  lemma {:induction false} LegacyNeedsMarkers(rows: seq<Event>)
    requires 101 !in Codes(rows)
    ensures ProcessEvents(Legacy, rows).Err?
  {
    IndicesOfSpec(Codes(rows), 101);
  }
}
