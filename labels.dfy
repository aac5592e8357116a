/**
 * Movie labels: turning segments (value, start time, stop time) into a label
 * on a reference time axis and back, writing segments as Advene annotations,
 * and reading them from an Advene JSON export.
 */
module Labels {
  import opened Common
  import opened Text
  import opened Segments
  import opened Indicators

  // ------------------------------------------------- segments to a label

  /**
   * Python's slice assignment `label[s:e+1] = [v] * (e - s + 1)`: positions
   * `s..e` take `v`; when `e < s` the slice and the list are both empty and
   * nothing changes.
   */
  function Paint(vec: seq<int>, s: nat, e: nat, v: int): (r: seq<int>)
    requires s < |vec| && e < |vec|
    ensures |r| == |vec|
  {
    if e < s then vec else vec[..s] + Times(v, e - s + 1) + vec[e + 1..]
  }

  /** One position after a slice assignment. */
  lemma {:induction false} PaintAt(vec: seq<int>, s: nat, e: nat, v: int, p: nat)
    requires s < |vec| && e < |vec| && p < |vec|
    ensures Paint(vec, s, e, v)[p] == if s <= p <= e then v else vec[p]
  {
    if s <= e {
      var mid := Times(v, e - s + 1);
      if p < s {
        assert Paint(vec, s, e, v)[p] == (vec[..s] + mid)[p];
      } else if p <= e {
        assert Paint(vec, s, e, v)[p] == (vec[..s] + mid)[p] == mid[p - s];
      } else {
        assert Paint(vec, s, e, v)[p] == vec[e + 1..][p - e - 1];
      }
    }
  }

  /** One segment located on the reference axis: positions `first..last` get `value`. */
  datatype Slot = Slot(first: nat, last: nat, value: int)

  /** Every slot lies on an axis of `m` positions. */
  predicate Fits(slots: seq<Slot>, m: nat)
  {
    forall k :: 0 <= k < |slots| ==> slots[k].first < m && slots[k].last < m
  }

  /** The slot reaches position `p`. */
  predicate Covers(slot: Slot, p: nat)
  {
    slot.first <= p <= slot.last
  }

  /** No slot after `i` among the first `n` reaches position `p`. */
  predicate LastCover(slots: seq<Slot>, i: nat, n: nat, p: nat)
    requires n <= |slots|
  {
    forall j :: i < j < n ==> !Covers(slots[j], p)
  }

  /** `base` after the first `n` slots have been written over it, one slice assignment each. */
  function Overwrite(base: seq<int>, slots: seq<Slot>, n: nat): (r: seq<int>)
    requires n <= |slots| && Fits(slots, |base|)
    ensures |r| == |base|
  {
    if n == 0 then base
    else Paint(Overwrite(base, slots, n - 1), slots[n - 1].first, slots[n - 1].last, slots[n - 1].value)
  }

  /** The last slot written decides a position it covers; elsewhere the position keeps its earlier value. */
  lemma {:induction false} OverwriteStep(base: seq<int>, slots: seq<Slot>, n: nat, p: nat)
    requires 0 < n <= |slots| && Fits(slots, |base|) && p < |base|
    ensures Overwrite(base, slots, n)[p]
      == if Covers(slots[n - 1], p) then slots[n - 1].value else Overwrite(base, slots, n - 1)[p]
  {
    PaintAt(Overwrite(base, slots, n - 1), slots[n - 1].first, slots[n - 1].last, slots[n - 1].value, p);
  }

  /** Last write wins, first half: a position no slot covers keeps its value. */
  lemma {:induction false} OverwriteUncovered(base: seq<int>, slots: seq<Slot>, n: nat, p: nat)
    requires n <= |slots| && Fits(slots, |base|) && p < |base|
    requires forall i :: 0 <= i < n ==> !Covers(slots[i], p)
    ensures Overwrite(base, slots, n)[p] == base[p]
  {
    if n > 0 {
      OverwriteUncovered(base, slots, n - 1, p);
      OverwriteStep(base, slots, n, p);
    }
  }

  /** Last write wins, second half: a covered position holds the value of the last slot covering it. */
  lemma {:induction false} OverwriteLast(base: seq<int>, slots: seq<Slot>, n: nat, i: nat, p: nat)
    requires i < n <= |slots| && Fits(slots, |base|) && p < |base|
    requires Covers(slots[i], p) && LastCover(slots, i, n, p)
    ensures Overwrite(base, slots, n)[p] == slots[i].value
  {
    OverwriteStep(base, slots, n, p);
    if i < n - 1 {
      assert !Covers(slots[n - 1], p);
      assert LastCover(slots, i, n - 1, p);
      OverwriteLast(base, slots, n - 1, i, p);
    }
  }

  /** Segment `i` as the nearest positions of its start and stop and `int()` of its value. */
  function SlotOf(copy: Copy, ref: seq<real>, values: seq<real>, starts: seq<real>, stops: seq<real>, i: nat): (slot: Slot)
    requires |ref| > 0 && i < |values| && i < |starts| && i < |stops|
    ensures slot.first < |ref| && slot.last < |ref|
  {
    Slot(NearestIndex(copy, ref, starts[i]), NearestIndex(copy, ref, stops[i]), Trunc(values[i]))
  }

  /** The slots of all segments, in order. */
  function Slots(copy: Copy, ref: seq<real>, values: seq<real>, starts: seq<real>, stops: seq<real>): (slots: seq<Slot>)
    requires |ref| > 0 && |values| == |starts| == |stops|
    ensures |slots| == |values| && Fits(slots, |ref|)
    ensures forall i :: 0 <= i < |values| ==> slots[i] == SlotOf(copy, ref, values, starts, stops, i)
  {
    seq(|values|, i requires 0 <= i < |values| => SlotOf(copy, ref, values, starts, stops, i))
  }

  /**
   * `make_label_from_start_stop_times`: values, starts and stops of different
   * lengths give `-1` (here `LengthMismatch`); segments on an empty reference
   * axis make the nearest-index search fail; otherwise every segment is
   * written, in order, over the default label.
   */
  function MakeLabel(copy: Copy, values: seq<real>, starts: seq<real>, stops: seq<real>, ref: seq<real>, default: int): (r: Result<seq<int>>)
    ensures r.Err? <==> !(|values| == |starts| == |stops|) || (|ref| == 0 && |values| > 0)
    ensures r.Err? && !(|values| == |starts| == |stops|) ==> r.error == LengthMismatch
    ensures r.Ok? ==> |r.value| == |ref|
  {
    if !(|values| == |starts| == |stops|) then Err(LengthMismatch)
    else if |values| == 0 then Ok(Times(default, |ref|))
    else if |ref| == 0 then Err(EmptyReduction)
    else Ok(Overwrite(Times(default, |ref|), Slots(copy, ref, values, starts, stops), |values|))
  }

  /**
   * Last write wins on the label: a position no segment reaches keeps the
   * default value, and a position some segment reaches holds `int(value)` of
   * the last segment reaching it.
   */
  lemma {:induction false} MakeLabelLastWriteWins(copy: Copy, values: seq<real>, starts: seq<real>, stops: seq<real>, ref: seq<real>, default: int, p: nat)
    requires MakeLabel(copy, values, starts, stops, ref, default).Ok? && p < |ref|
    ensures var r := MakeLabel(copy, values, starts, stops, ref, default).value;
      && ((forall i :: 0 <= i < |values| ==> !Covers(SlotOf(copy, ref, values, starts, stops, i), p)) ==> r[p] == default)
      && (forall i :: (0 <= i < |values| && Covers(SlotOf(copy, ref, values, starts, stops, i), p)
                       && (forall j :: i < j < |values| ==> !Covers(SlotOf(copy, ref, values, starts, stops, j), p))) ==>
            r[p] == Trunc(values[i]))
  {
    if |values| > 0 {
      var slots := Slots(copy, ref, values, starts, stops);
      var base := Times(default, |ref|);
      if forall i :: 0 <= i < |values| ==> !Covers(SlotOf(copy, ref, values, starts, stops, i), p) {
        OverwriteUncovered(base, slots, |values|, p);
      }
      forall i | 0 <= i < |values| && Covers(SlotOf(copy, ref, values, starts, stops, i), p)
          && (forall j :: i < j < |values| ==> !Covers(SlotOf(copy, ref, values, starts, stops, j), p))
        ensures Overwrite(base, slots, |values|)[p] == Trunc(values[i])
      {
        assert LastCover(slots, i, |values|, p);
        OverwriteLast(base, slots, |values|, i, p);
      }
    }
  }

  /** `make_label_from_start_stop_times` as the loop of the source, which overwrites one slice per segment. */
  method MakeLabelFromStartStopTimes(copy: Copy, values: seq<real>, starts: seq<real>, stops: seq<real>, ref: seq<real>, default: int)
    returns (r: Result<seq<int>>)
    ensures r == MakeLabel(copy, values, starts, stops, ref, default)
  {
    if !(|values| == |starts| == |stops|) {
      return Err(LengthMismatch);
    }
    var base := Times(default, |ref|);
    var vec := base;
    ghost var slots := if |ref| > 0 then Slots(copy, ref, values, starts, stops) else [];
    for i := 0 to |values|
      invariant |ref| > 0 || i == 0
      invariant vec == Overwrite(base, slots, i)
    {
      if |ref| == 0 {
        return Err(EmptyReduction);
      }
      var s := NearestIndex(copy, ref, starts[i]);
      var e := NearestIndex(copy, ref, stops[i]);
      assert slots[i] == Slot(s, e, Trunc(values[i]));
      vec := AssignSlice(vec, s, e, Trunc(values[i]));
    }
    return Ok(vec);
  }

  /** `vec[s:e+1] = [v] * (e - s + 1)`. */
  method AssignSlice(vec: seq<int>, s: nat, e: nat, v: int) returns (r: seq<int>)
    requires s < |vec| && e < |vec|
    ensures r == Paint(vec, s, e, v)
  {
    r := vec;
    if s <= e {
      r := vec[..s] + Times(v, e - s + 1) + vec[e + 1..];
    }
  }

  // ---------------------------------------------------------- round trip

  /** Integer label values as the floats the segments hold. */
  function AsReals(s: seq<int>): (r: seq<real>)
    ensures |r| == |s|
    ensures forall k :: 0 <= k < |s| ==> r[k] == s[k] as real
  {
    seq(|s|, k requires 0 <= k < |s| => s[k] as real)
  }

  lemma {:induction false} TruncOfInt(x: int)
    ensures Trunc(x as real) == x
  {
    if x < 0 {
      assert (-(x as real)).Floor == -x;
    }
  }

  /** The slots of the encoding of `L` on the axis `t` itself. */
  function RunSlots(copy: Copy, t: seq<real>, L: seq<int>): (slots: seq<Slot>)
    requires |t| == |L| > 0
    ensures |slots| == |RunsOf(t, L).values| && Fits(slots, |t|)
  {
    NoChangeBeyondFullAxis(t, L);
    var runs := RunsOf(t, L);
    Slots(copy, t, AsReals(runs.values), runs.starts, runs.stops)
  }

  /**
   * Encoding an integer label on a strictly increasing axis of the same
   * length, whose time stamps the nearest-index search finds at their own
   * positions, and writing its segments back over any default label gives
   * the label again.
   */
  lemma {:induction false} LabelRoundTrip(copy: Copy, t: seq<real>, L: seq<int>, default: int)
    requires |t| == |L| > 0 && StrictlyIncreasing(t) && ExactAxis(copy, t)
    ensures Rle(t, L).Ok?
    ensures var runs := Rle(t, L).value;
      MakeLabel(copy, AsReals(runs.values), runs.starts, runs.stops, t, default) == Ok(L)
  {
    NoChangeBeyondFullAxis(t, L);
    var slots := RunSlots(copy, t, L);
    var r := Overwrite(Times(default, |t|), slots, |slots|);
    forall p | 0 <= p < |L|
      ensures r[p] == L[p]
    {
      RoundTripAt(copy, t, L, default, p);
    }
    assert r == L;
  }

  /** One position of the round trip: the run containing it is the last segment covering it. */
  lemma {:induction false} RoundTripAt(copy: Copy, t: seq<real>, L: seq<int>, default: int, p: nat)
    requires |t| == |L| > 0 && StrictlyIncreasing(t) && ExactAxis(copy, t) && p < |L|
    ensures var slots := RunSlots(copy, t, L); Overwrite(Times(default, |t|), slots, |slots|)[p] == L[p]
  {
    NoChangeBeyondFullAxis(t, L);
    var slots := RunSlots(copy, t, L);
    var k := RunContaining(L, p);
    RunSlot(copy, t, L, k);
    RunSlotsBegin(copy, t, L);
    LaterSlotsMiss(L, slots, k, p);
    OverwriteLast(Times(default, |t|), slots, |slots|, k, p);
    RunConstant(L, k, p);
  }

  /** No slot after that of the run containing `p` reaches `p`, when every slot begins where its run does. */
  lemma {:induction false} LaterSlotsMiss<T>(L: seq<T>, slots: seq<Slot>, k: nat, p: nat)
    requires |slots| == |Changes(L, |L|)| + 1 && k < |slots| && p < RunStart(Changes(L, |L|), k + 1, |L|)
    requires forall j :: 0 <= j < |slots| ==> slots[j].first == RunStart(Changes(L, |L|), j, |L|)
    ensures LastCover(slots, k, |slots|, p)
  {
    forall j | k < j < |slots|
      ensures !Covers(slots[j], p)
    {
      RunStartsOrdered(L, k + 1, j);
    }
  }

  /** Every slot of the encoding begins where its run does. */
  lemma {:induction false} RunSlotsBegin(copy: Copy, t: seq<real>, L: seq<int>)
    requires |t| == |L| > 0 && StrictlyIncreasing(t) && ExactAxis(copy, t)
    ensures var slots := RunSlots(copy, t, L);
      |slots| == |Changes(L, |L|)| + 1
      && forall j :: 0 <= j < |slots| ==> slots[j].first == RunStart(Changes(L, |L|), j, |L|)
  {
    var slots := RunSlots(copy, t, L);
    forall j | 0 <= j < |slots|
      ensures slots[j].first == RunStart(Changes(L, |L|), j, |L|)
    {
      RunSlot(copy, t, L, j);
    }
  }

  /** Slot `k` of the encoding spans exactly run `k` and carries the value of that run. */
  lemma {:induction false} RunSlot(copy: Copy, t: seq<real>, L: seq<int>, k: nat)
    requires |t| == |L| > 0 && StrictlyIncreasing(t) && ExactAxis(copy, t)
    requires k <= |Changes(L, |L|)|
    ensures var slot, c := RunSlots(copy, t, L)[k], Changes(L, |L|);
      slot.first == RunStart(c, k, |L|) && slot.last == RunStart(c, k + 1, |L|) - 1
      && slot.value == L[RunStart(c, k, |L|)]
  {
    NoChangeBeyondFullAxis(t, L);
    var runs := RunsOf(t, L);
    RunCovers(copy, t, L, k);
    RunsOfAt(t, L, k);
    TruncOfInt(runs.values[k]);
  }

  /** Segment `k` of the encoding covers exactly the positions of run `k`. */
  lemma {:induction false} RunCovers(copy: Copy, t: seq<real>, L: seq<int>, k: nat)
    requires |t| == |L| > 0 && StrictlyIncreasing(t) && ExactAxis(copy, t) && !ChangeBeyond(t, L)
    requires k <= |Changes(L, |L|)|
    ensures var runs, c := RunsOf(t, L), Changes(L, |L|);
      NearestIndex(copy, t, runs.starts[k]) == RunStart(c, k, |L|)
      && NearestIndex(copy, t, runs.stops[k]) == RunStart(c, k + 1, |L|) - 1
  {
    var runs, c := RunsOf(t, L), Changes(L, |L|);
    var a, b := RunStart(c, k, |L|), RunStart(c, k + 1, |L|) - 1;
    RunsOfAt(t, L, k);
    RunStartsIncrease(L, k);
    assert runs.starts[k] == t[a] && runs.stops[k] == t[b];
    NearestOfAxisEntry(copy, t, a);
    NearestOfAxisEntry(copy, t, b);
  }

  /** Runs begin in the order of their numbers. */
  lemma {:induction false} RunStartsOrdered<T>(L: seq<T>, a: nat, b: nat)
    requires a <= b <= |Changes(L, |L|)|
    ensures RunStart(Changes(L, |L|), a, |L|) <= RunStart(Changes(L, |L|), b, |L|)
  {
    var c := Changes(L, |L|);
    if 0 < a < b {
      ChangesAscending(L, |L|);
      assert c[a - 1] < c[b - 1];
    }
  }

  // ------------------------------------------------------ Advene export

  /**
   * The format string of one `<annotation>` element, split at its five
   * fields: id name, id counter, label name, begin and end.
   */
  const AnnotationTemplate: seq<string> := [
    "<annotation id=\"", "", "\" type=\"#", "\"><millisecond-fragment begin=\"", "\" end=\"",
    "\"/><content>num=1</content></annotation>"]

  /** One `<annotation>` element; times are seconds and become `int(x * 1000)` milliseconds. */
  function AnnotationXml(idName: string, id: nat, labelName: string, start: real, end: real): string
  {
    Format(AnnotationTemplate,
      [idName, NatToString(id), labelName, IntToString(Trunc(start * 1000.0)), IntToString(Trunc(end * 1000.0))])
  }

  /** The elements of all pairs, numbered from 0, in order. */
  function AnnotationElements(idName: string, pairs: seq<(real, real)>, labelName: string): (es: seq<string>)
    ensures |es| == |pairs|
  {
    if pairs == [] then []
    else
      var k := |pairs| - 1;
      AnnotationElements(idName, pairs[..k], labelName) + [AnnotationXml(idName, k, labelName, pairs[k].0, pairs[k].1)]
  }

  /** Element `k` is the annotation written for pair `k` with the id counter at `k`. */
  lemma {:induction false} AnnotationElementAt(idName: string, pairs: seq<(real, real)>, labelName: string, k: nat)
    requires k < |pairs|
    ensures AnnotationElements(idName, pairs, labelName)[k] == AnnotationXml(idName, k, labelName, pairs[k].0, pairs[k].1)
  {
    var n := |pairs| - 1;
    if k < n {
      AnnotationElementAt(idName, pairs[..n], labelName, k);
      assert pairs[..n][k] == pairs[k];
    }
  }

  /** `create_xml_for_advene` as the loop of the source, with its id counter. */
  method CreateXmlForAdvene(idName: string, pairs: seq<(real, real)>, labelName: string) returns (xml: string)
    ensures xml == Concat(AnnotationElements(idName, pairs, labelName), |pairs|)
  {
    ghost var es := AnnotationElements(idName, pairs, labelName);
    xml := "";
    var id := 0;
    for i := 0 to |pairs|
      invariant id == i
      invariant xml == Concat(es, i)
    {
      var start, end := pairs[i].0, pairs[i].1;
      var element := AnnotationXml(idName, id, labelName, start, end);
      AnnotationElementAt(idName, pairs, labelName, i);
      assert Concat(es, i + 1) == Concat(es, i) + element;
      xml := xml + element;
      id := id + 1;
    }
  }

  /**
   * One element per pair, in order: the element of pair `k`, with id
   * `idName + str(k)` and begin and end `int(x * 1000)`, follows the
   * elements of the pairs before it.
   */
  lemma {:induction false} AdveneElement(idName: string, pairs: seq<(real, real)>, labelName: string, k: nat)
    requires k < |pairs|
    ensures var es := AnnotationElements(idName, pairs, labelName);
      var a, b := |Concat(es, k)|, |Concat(es, k + 1)|;
      a <= b <= |Concat(es, |pairs|)|
      && Concat(es, |pairs|)[a..b] == AnnotationXml(idName, k, labelName, pairs[k].0, pairs[k].1)
  {
    ConcatPart(AnnotationElements(idName, pairs, labelName), k, |pairs|);
    AnnotationElementAt(idName, pairs, labelName, k);
  }

  // ------------------------------------------------------- Advene import

  /** One entry of the `annotations` list of an Advene JSON export. */
  datatype JsonAnnotation = JsonAnnotation(kind: string, begin: real, end: real, title: string)

  /** The entries whose `type` is the label name, in their order. */
  function Matching(anns: seq<JsonAnnotation>, labelName: string): (m: seq<JsonAnnotation>)
    ensures |m| <= |anns|
    ensures forall k :: 0 <= k < |m| ==> m[k].kind == labelName
  {
    if anns == [] then []
    else
      var a := anns[|anns| - 1];
      Matching(anns[..|anns| - 1], labelName) + (if a.kind == labelName then [a] else [])
  }

  /** The filter distributes over concatenation, so it keeps the order of the entries. */
  lemma {:induction false} MatchingAppend(a: seq<JsonAnnotation>, b: seq<JsonAnnotation>, labelName: string)
    ensures Matching(a + b, labelName) == Matching(a, labelName) + Matching(b, labelName)
    decreases |b|
  {
    if b == [] {
      assert a + b == a;
    } else {
      assert (a + b)[..|a + b| - 1] == a + b[..|b| - 1];
      MatchingAppend(a, b[..|b| - 1], labelName);
    }
  }

  /** No entry of the label's type is dropped. */
  lemma {:induction false} MatchingComplete(anns: seq<JsonAnnotation>, labelName: string, i: nat)
    requires i < |anns| && anns[i].kind == labelName
    ensures anns[i] in Matching(anns, labelName)
    decreases |anns|
  {
    if i < |anns| - 1 {
      MatchingComplete(anns[..|anns| - 1], labelName, i);
    }
  }

  /** The loop state after the first `i` entries: one value, start and stop per matching entry, times in seconds. */
  predicate Extracted(m: seq<JsonAnnotation>, values: seq<string>, starts: seq<real>, stops: seq<real>)
  {
    |values| == |m| && |starts| == |m| && |stops| == |m|
    && forall k :: 0 <= k < |m| ==>
         values[k] == m[k].title && starts[k] == m[k].begin / 1000.0 && stops[k] == m[k].end / 1000.0
  }

  /** The filter of `start_stop_values_from_json` on the parsed annotations: titles, and begin and end divided by 1000. */
  method StartStopValuesFromJson(anns: seq<JsonAnnotation>, labelName: string)
    returns (values: seq<string>, starts: seq<real>, stops: seq<real>)
    ensures Extracted(Matching(anns, labelName), values, starts, stops)
  {
    var startMs, stopMs := [], [];
    values := [];
    for i := 0 to |anns|
      invariant |startMs| == |stopMs| == |values| == |Matching(anns[..i], labelName)|
      invariant forall k :: 0 <= k < |values| ==> var a := Matching(anns[..i], labelName)[k];
        values[k] == a.title && startMs[k] == a.begin && stopMs[k] == a.end
    {
      assert anns[..i + 1][..i] == anns[..i];
      if anns[i].kind == labelName {
        startMs := startMs + [anns[i].begin];
        stopMs := stopMs + [anns[i].end];
        values := values + [anns[i].title];
      }
    }
    assert anns[..|anns|] == anns;
    starts := seq(|startMs|, k requires 0 <= k < |startMs| => startMs[k] / 1000.0);
    stops := seq(|stopMs|, k requires 0 <= k < |stopMs| => stopMs[k] / 1000.0);
  }

  /** `export_labels_from_json_file` without its save branch: `[begin, end]` pairs in milliseconds and the titles. */
  method ExportLabelsFromJson(anns: seq<JsonAnnotation>, labelName: string)
    returns (pairs: seq<(real, real)>, values: seq<string>)
    ensures var m := Matching(anns, labelName);
      |pairs| == |values| == |m|
      && forall k :: 0 <= k < |m| ==> pairs[k] == (m[k].begin, m[k].end) && values[k] == m[k].title
  {
    pairs, values := [], [];
    for i := 0 to |anns|
      invariant |pairs| == |values| == |Matching(anns[..i], labelName)|
      invariant forall k :: 0 <= k < |values| ==> var a := Matching(anns[..i], labelName)[k];
        pairs[k] == (a.begin, a.end) && values[k] == a.title
    {
      assert anns[..i + 1][..i] == anns[..i];
      if anns[i].kind == labelName {
        pairs := pairs + [(anns[i].begin, anns[i].end)];
        values := values + [anns[i].title];
      }
    }
    assert anns[..|anns|] == anns;
  }
}
