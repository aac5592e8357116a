/**
 * Clipping a binned spike train to the continuous-watch indicator: the bins
 * whose indicator is 1 are kept, those whose indicator is 0 are set aside,
 * and both keep their original positions alongside.
 */
module ClipToCont {
  import opened Common
  import opened NdArray

  /** Some position the indicator marks 0 or 1 has no bin of the spike train. */
  predicate MissingBin(unit: seq<real>, contWatch: seq<real>)
  {
    exists i :: |unit| <= i < |contWatch| && (contWatch[i] == 1.0 || contWatch[i] == 0.0)
  }

  /**
   * `clip_array`: the bins at the positions marked 1 with those positions,
   * then the bins at the positions marked 0 with those positions; any other
   * indicator value puts its bin in neither.  An IndexError when a marked
   * position has no bin.
   */
  function Clip(unit: seq<real>, contWatch: seq<real>): Result<(seq<real>, seq<nat>, seq<real>, seq<nat>)>
  {
    if MissingBin(unit, contWatch) then Err(IndexOutOfRange)
    else
      var ic, ir := IndicesOf(contWatch, 1.0), IndicesOf(contWatch, 0.0);
      IndicesOfSpec(contWatch, 1.0);
      IndicesOfSpec(contWatch, 0.0);
      Ok((Gather(unit, ic), ic, Gather(unit, ir), ir))
  }

  /** The four lists are what `clip_array` has built after the first `i` indicator values. */
  predicate ClipSoFar(unit: seq<real>, contWatch: seq<real>, i: nat,
                      clipped: seq<real>, ic: seq<nat>, removed: seq<real>, ir: seq<nat>)
    requires i <= |contWatch|
  {
    ic == IndicesOf(contWatch[..i], 1.0) && ir == IndicesOf(contWatch[..i], 0.0) &&
    (forall k :: 0 <= k < |ic| ==> ic[k] < |unit|) && (forall k :: 0 <= k < |ir| ==> ir[k] < |unit|) &&
    clipped == Gather(unit, ic) && removed == Gather(unit, ir)
  }

  /** The positions of `x` in one more indicator value. */
  lemma {:induction false} IndicesOfSnoc(s: seq<real>, i: nat, x: real)
    requires i < |s|
    ensures IndicesOf(s[..i + 1], x) == IndicesOf(s[..i], x) + (if s[i] == x then [i] else [])
  {
    assert s[..i + 1][..i] == s[..i];
  }

  /** A position marked 1 that has a bin is kept. */
  lemma {:induction false} ClipSoFarOne(unit: seq<real>, contWatch: seq<real>, i: nat,
                                        clipped: seq<real>, ic: seq<nat>, removed: seq<real>, ir: seq<nat>)
    requires i < |contWatch| && i < |unit| && contWatch[i] == 1.0
    requires ClipSoFar(unit, contWatch, i, clipped, ic, removed, ir)
    ensures ClipSoFar(unit, contWatch, i + 1, clipped + [unit[i]], ic + [i], removed, ir)
  {
    IndicesOfSnoc(contWatch, i, 1.0);
    IndicesOfSnoc(contWatch, i, 0.0);
  }

  /** A position marked 0 that has a bin is set aside. */
  lemma {:induction false} ClipSoFarZero(unit: seq<real>, contWatch: seq<real>, i: nat,
                                         clipped: seq<real>, ic: seq<nat>, removed: seq<real>, ir: seq<nat>)
    requires i < |contWatch| && i < |unit| && contWatch[i] == 0.0
    requires ClipSoFar(unit, contWatch, i, clipped, ic, removed, ir)
    ensures ClipSoFar(unit, contWatch, i + 1, clipped, ic, removed + [unit[i]], ir + [i])
  {
    IndicesOfSnoc(contWatch, i, 1.0);
    IndicesOfSnoc(contWatch, i, 0.0);
  }

  /** A position marked anything else goes to neither list. */
  lemma {:induction false} ClipSoFarOther(unit: seq<real>, contWatch: seq<real>, i: nat,
                                          clipped: seq<real>, ic: seq<nat>, removed: seq<real>, ir: seq<nat>)
    requires i < |contWatch| && contWatch[i] != 1.0 && contWatch[i] != 0.0
    requires ClipSoFar(unit, contWatch, i, clipped, ic, removed, ir)
    ensures ClipSoFar(unit, contWatch, i + 1, clipped, ic, removed, ir)
  {
    IndicesOfSnoc(contWatch, i, 1.0);
    IndicesOfSnoc(contWatch, i, 0.0);
  }

  /** After the last indicator value the lists built are the clipping's result. */
  lemma {:induction false} ClipSoFarDone(unit: seq<real>, contWatch: seq<real>,
                                         clipped: seq<real>, ic: seq<nat>, removed: seq<real>, ir: seq<nat>)
    requires ClipSoFar(unit, contWatch, |contWatch|, clipped, ic, removed, ir)
    requires forall j :: |unit| <= j < |contWatch| ==> contWatch[j] != 1.0 && contWatch[j] != 0.0
    ensures Clip(unit, contWatch) == Ok((clipped, ic, removed, ir))
  {
    assert contWatch[..|contWatch|] == contWatch;
  }

  /** `clip_array`, looping over the indicator as the source does. */
  method ClipArray(unit: seq<real>, contWatch: seq<real>) returns (r: Result<(seq<real>, seq<nat>, seq<real>, seq<nat>)>)
    ensures r == Clip(unit, contWatch)
  {
    var clipped: seq<real> := [];
    var removed: seq<real> := [];
    var indClipped: seq<nat> := [];
    var indRemoved: seq<nat> := [];
    var i := 0;
    while i < |contWatch|
      invariant 0 <= i <= |contWatch|
      invariant forall j :: |unit| <= j < i ==> contWatch[j] != 1.0 && contWatch[j] != 0.0
      invariant ClipSoFar(unit, contWatch, i, clipped, indClipped, removed, indRemoved)
    {
      var value := contWatch[i];
      if (value == 1.0 || value == 0.0) && i >= |unit| {
        return Err(IndexOutOfRange);
      }
      if value == 1.0 {
        ClipSoFarOne(unit, contWatch, i, clipped, indClipped, removed, indRemoved);
        clipped := clipped + [unit[i]];
        indClipped := indClipped + [i];
      } else if value == 0.0 {
        ClipSoFarZero(unit, contWatch, i, clipped, indClipped, removed, indRemoved);
        removed := removed + [unit[i]];
        indRemoved := indRemoved + [i];
      } else {
        ClipSoFarOther(unit, contWatch, i, clipped, indClipped, removed, indRemoved);
      }
      i := i + 1;
    }
    ClipSoFarDone(unit, contWatch, clipped, indClipped, removed, indRemoved);
    return Ok((clipped, indClipped, removed, indRemoved));
  }

  /**
   * The two position lists ascend, hold only positions marked 1 and 0
   * respectively, and between them hold every position marked 1 or 0;
   * each kept or set-aside bin is the spike train at its position.
   */
  lemma {:induction false} ClipPartitions(unit: seq<real>, contWatch: seq<real>)
    requires Clip(unit, contWatch).Ok?
    ensures var (clipped, ic, removed, ir) := Clip(unit, contWatch).value;
            Ascending(ic) && Ascending(ir) &&
            (forall k :: 0 <= k < |ic| ==> ic[k] < |contWatch| && contWatch[ic[k]] == 1.0 && ic[k] < |unit| && clipped[k] == unit[ic[k]]) &&
            (forall k :: 0 <= k < |ir| ==> ir[k] < |contWatch| && contWatch[ir[k]] == 0.0 && ir[k] < |unit| && removed[k] == unit[ir[k]]) &&
            (forall i :: 0 <= i < |contWatch| ==> (i in ic <==> contWatch[i] == 1.0) && (i in ir <==> contWatch[i] == 0.0))
  {
    var (clipped, ic, removed, ir) := Clip(unit, contWatch).value;
    IndicesOfSpec(contWatch, 1.0);
    IndicesOfSpec(contWatch, 0.0);
    forall i | 0 <= i < |contWatch| ensures (i in ic ==> contWatch[i] == 1.0) && (i in ir ==> contWatch[i] == 0.0) {
      if i in ic {
        var k :| 0 <= k < |ic| && ic[k] == i;
      }
      if i in ir {
        var k :| 0 <= k < |ir| && ir[k] == i;
      }
    }
  }

  /** No position is both kept and set aside, and the two lists together are no longer than the indicator. */
  lemma {:induction false} ClipDisjoint(unit: seq<real>, contWatch: seq<real>)
    requires Clip(unit, contWatch).Ok?
    ensures var (clipped, ic, removed, ir) := Clip(unit, contWatch).value;
            (forall a, b :: 0 <= a < |ic| && 0 <= b < |ir| ==> ic[a] != ir[b]) &&
            |clipped| + |removed| <= |contWatch|
  {
    IndicesOfSpec(contWatch, 1.0);
    IndicesOfSpec(contWatch, 0.0);
    IndicesOfTwo(contWatch, 1.0, 0.0);
  }

  /** The positions of two different values number at most the length. */
  lemma {:induction false} IndicesOfTwo(s: seq<real>, x: real, y: real)
    requires x != y
    ensures |IndicesOf(s, x)| + |IndicesOf(s, y)| <= |s|
  {
    if s != [] {
      IndicesOfTwo(s[..|s| - 1], x, y);
    }
  }

  /** A marked position without a bin makes the clipping fail. */
  lemma {:induction false} ClipFailsOnShortTrain(unit: seq<real>, contWatch: seq<real>, i: nat)
    requires |unit| <= i < |contWatch| && (contWatch[i] == 1.0 || contWatch[i] == 0.0)
    ensures Clip(unit, contWatch) == Err(IndexOutOfRange)
  {
  }
}
