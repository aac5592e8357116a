/**
 * Removing artifact bins: the artifact vector is a binned indicator whose 0
 * entries mark troublesome bins; those bins are deleted from a spike train.
 * Loading a vector from a `.npy` file is the parameter `load`; saving the
 * cleaned array is not part of this model.
 */
module ArtifactVec {
  import opened Common
  import opened NdArray

  /** What `get_art_ind` is given: a path to a saved vector, or the vector itself. */
  datatype ArtifactVector = Path(path: string) | Vector(flags: seq<real>)

  /** The indicator a path (loaded) or a vector (used directly) stands for. */
  function ArtifactFlags(vecArt: ArtifactVector, load: string -> seq<real>): seq<real>
  {
    match vecArt
    case Path(p) => load(p)
    case Vector(v) => v
  }

  /**
   * `get_art_ind`: the positions whose indicator is 0, ascending, and no
   * others.
   */
  function GetArtInd(vecArt: ArtifactVector, load: string -> seq<real>): (ind: seq<nat>)
    ensures var flags := ArtifactFlags(vecArt, load);
            Ascending(ind) &&
            (forall k :: 0 <= k < |ind| ==> ind[k] < |flags| && flags[ind[k]] == 0.0) &&
            (forall i :: 0 <= i < |flags| && flags[i] == 0.0 ==> i in ind)
  {
    var flags := ArtifactFlags(vecArt, load);
    IndicesOfSpec(flags, 0.0);
    IndicesOf(flags, 0.0)
  }

  /** `remove_art_from_array` without saving: `np.delete(array, ind_art)`. */
  function RemoveArtFromArray(arr: seq<real>, indArt: seq<int>): (r: Result<seq<real>>)
    ensures r.Ok? <==> forall k :: 0 <= k < |indArt| ==> InRange(indArt[k], |arr|)
    ensures r.Ok? ==> |r.value| <= |arr|
  {
    Delete(arr, indArt)
  }

  /** The positions of an artifact vector marked 0. */
  function Marked(flags: seq<real>): set<int>
  {
    set i | 0 <= i < |flags| && flags[i] == 0.0
  }

  /** The array positions the found artifact indices name are exactly the marked ones. */
  lemma {:induction false} ArtIndicesNameMarked(flags: seq<real>, n: nat)
    ensures DropSet(IndicesOf(flags, 0.0), n) == Marked(flags)
  {
    var ind := IndicesOf(flags, 0.0);
    IndicesOfSpec(flags, 0.0);
    forall i | i in Marked(flags) ensures i in DropSet(ind, n) {
      var k :| 0 <= k < |ind| && ind[k] == i;
      assert Normalize(ind[k], n) == i;
    }
  }

  /**
   * Removing the artifacts found in a vector succeeds exactly when every
   * marked position lies within the array, and then leaves the array without
   * the marked positions.
   */
  lemma {:induction false} RemoveArtifactsOk(arr: seq<real>, flags: seq<real>, load: string -> seq<real>)
    ensures var r := RemoveArtFromArray(arr, GetArtInd(Vector(flags), load));
            (r.Ok? <==> forall i :: |arr| <= i < |flags| ==> flags[i] != 0.0) &&
            (r.Ok? ==> r.value == Without(arr, Marked(flags)))
  {
    var ind := GetArtInd(Vector(flags), load);
    IndicesOfSpec(flags, 0.0);
    ArtIndicesNameMarked(flags, |arr|);
    if forall k :: 0 <= k < |ind| ==> InRange(ind[k], |arr|) {
      forall i | 0 <= i < |flags| && flags[i] == 0.0 ensures i < |arr| {
        var k :| 0 <= k < |ind| && ind[k] == i;
        assert InRange(ind[k], |arr|);
      }
    }
  }

  /** Kept and removed entries of a prefix add up to its length. */
  lemma {:induction false} RemovedCountPrefix(arr: seq<real>, flags: seq<real>, n: nat)
    requires |flags| == |arr| && n <= |arr|
    ensures |Without(arr[..n], Marked(flags))| + |IndicesOf(flags[..n], 0.0)| == n
  {
    if n > 0 {
      RemovedCountPrefix(arr, flags, n - 1);
      var a, f := arr[..n], flags[..n];
      assert a[..n - 1] == arr[..n - 1];
      assert f[..n - 1] == flags[..n - 1];
      assert f[n - 1] == flags[n - 1];
      assert n - 1 in Marked(flags) <==> flags[n - 1] == 0.0;
    }
  }

  /**
   * For a vector binned like the array, removing its artifacts keeps the
   * array's entries, in order, at exactly the positions whose indicator is
   * not 0: as many as the array has, less the artifact bins.
   */
  lemma {:induction false} ArtifactsRemovedKeepsUnmarked(arr: seq<real>, flags: seq<real>, load: string -> seq<real>)
    requires |flags| == |arr|
    ensures var ind := GetArtInd(Vector(flags), load);
            var r := RemoveArtFromArray(arr, ind);
            var p := Positions(|arr|, Marked(flags));
            r.Ok? && |r.value| == |arr| - |ind| && |r.value| == |p| && Ascending(p) &&
            (forall k :: 0 <= k < |p| ==> p[k] < |arr| && flags[p[k]] != 0.0 && r.value[k] == arr[p[k]]) &&
            (forall i :: 0 <= i < |arr| && flags[i] != 0.0 ==> i in p)
  {
    var drop := Marked(flags);
    RemoveArtifactsOk(arr, flags, load);
    assert arr[..|arr|] == arr && flags[..|flags|] == flags;
    RemovedCountPrefix(arr, flags, |arr|);
    WithoutAt(arr, drop);
    PositionsSpec(|arr|, drop);
  }
}
