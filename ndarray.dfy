/**
 * The NumPy operations the pipeline is built from, on exact sequences:
 * `np.delete`, `np.where`, `argmin`, `np.max`, `np.linspace` and
 * `np.histogram` with explicit edges.
 */
module NdArray {
  import opened Common

  // ------------------------------------------------------------ np.delete

  /** An index NumPy accepts for an axis of length `n`. */
  predicate InRange(i: int, n: nat) { -(n as int) <= i < n }

  /** Negative indices count from the end. */
  function Normalize(i: int, n: nat): int { if i < 0 then i + n else i }

  /** The positions an index list names, after wrap-around. */
  function DropSet(idx: seq<int>, n: nat): set<int>
  {
    set k | 0 <= k < |idx| :: Normalize(idx[k], n)
  }

  /** The positions below `n` that are not dropped, in increasing order. */
  function Positions(n: nat, drop: set<int>): (p: seq<nat>)
    ensures |p| <= n
  {
    if n == 0 then [] else Positions(n - 1, drop) + (if n - 1 in drop then [] else [n - 1])
  }

  /** The kept positions ascend, lie below `n`, are not dropped, and include every position that is not dropped. */
  lemma {:induction false} PositionsSpec(n: nat, drop: set<int>)
    ensures Ascending(Positions(n, drop))
    ensures forall k :: 0 <= k < |Positions(n, drop)| ==> Positions(n, drop)[k] < n && Positions(n, drop)[k] !in drop
    ensures forall i :: 0 <= i < n && i !in drop ==> i in Positions(n, drop)
  {
    if n > 0 {
      PositionsSpec(n - 1, drop);
    }
  }

  /** `s` without the entries at the positions in `drop`. */
  function Without<T>(s: seq<T>, drop: set<int>): (r: seq<T>)
    ensures |r| <= |s|
  {
    if s == [] then []
    else Without(s[..|s| - 1], drop) + (if |s| - 1 in drop then [] else [s[|s| - 1]])
  }

  /** One more entry of the prefix adds one kept entry unless its position is dropped. */
  lemma {:induction false} WithoutPrefixStep<T>(s: seq<T>, drop: set<int>, n: nat)
    requires 0 < n <= |s|
    ensures |Without(s[..n], drop)| == |Without(s[..n - 1], drop)| + (if n - 1 in drop then 0 else 1)
  {
    var p := s[..n];
    assert p[..|p| - 1] == s[..n - 1];
  }

  /** What is left is, entry by entry, the array read at the kept positions. */
  lemma {:induction false} WithoutAt<T>(s: seq<T>, drop: set<int>)
    ensures |Without(s, drop)| == |Positions(|s|, drop)|
    ensures forall k :: 0 <= k < |Without(s, drop)| ==>
              k < |Positions(|s|, drop)| && Positions(|s|, drop)[k] < |s| && Without(s, drop)[k] == s[Positions(|s|, drop)[k]]
  {
    if s != [] {
      var s' := s[..|s| - 1];
      WithoutAt(s', drop);
      PositionsSpec(|s'|, drop);
      var r := Without(s, drop);
      forall k | 0 <= k < |r| ensures r[k] == s[Positions(|s|, drop)[k]] {
        if k < |Without(s', drop)| {
          assert r[k] == Without(s', drop)[k];
        }
      }
    }
  }

  /**
   * `np.delete(s, idx)`: refused with an IndexError when an index is outside
   * `[-n, n)`; otherwise every listed position (duplicates allowed, negative
   * ones counted from the end) is removed and the rest keep their order.
   */
  function Delete<T>(s: seq<T>, idx: seq<int>): (r: Result<seq<T>>)
    ensures r.Ok? <==> forall k :: 0 <= k < |idx| ==> InRange(idx[k], |s|)
    ensures r.Err? ==> r.error == IndexOutOfRange
    ensures r.Ok? ==> r.value == Without(s, DropSet(idx, |s|))
  {
    if forall k :: 0 <= k < |idx| ==> InRange(idx[k], |s|) then Ok(Without(s, DropSet(idx, |s|)))
    else Err(IndexOutOfRange)
  }

  /** Deleting nothing leaves the array as it was. */
  lemma {:induction false} WithoutNothing<T>(s: seq<T>)
    ensures Without(s, {}) == s
  {
    PositionsNothing(|s|);
    WithoutAt(s, {});
  }

  lemma {:induction false} PositionsNothing(n: nat)
    ensures Positions(n, {}) == seq(n, i => i)
  {
    if n > 0 { PositionsNothing(n - 1); }
  }

  /** Removing entries of a strictly increasing array leaves it strictly increasing. */
  lemma {:induction false} WithoutIncreasing(s: seq<real>, drop: set<int>)
    requires StrictlyIncreasing(s)
    ensures StrictlyIncreasing(Without(s, drop))
  {
    var p := Positions(|s|, drop);
    var r := Without(s, drop);
    PositionsSpec(|s|, drop);
    WithoutAt(s, drop);
    forall i, j | 0 <= i < j < |r| ensures r[i] < r[j] {
      assert p[i] < p[j];
    }
  }

  // ---------------------------------------------------- indexing by array

  /** `s[idx]`: the entries of `s` at the positions `idx`, in the order of `idx`. */
  function Gather<T>(s: seq<T>, idx: seq<nat>): (r: seq<T>)
    requires forall k :: 0 <= k < |idx| ==> idx[k] < |s|
    ensures |r| == |idx| && forall k :: 0 <= k < |idx| ==> r[k] == s[idx[k]]
  {
    seq(|idx|, k requires 0 <= k < |idx| => s[idx[k]])
  }

  // ------------------------------------------------------------- np.where

  /** `np.where(s == x)[0]`: the positions holding `x`, in increasing order. */
  function IndicesOf<T(==)>(s: seq<T>, x: T): (r: seq<nat>)
    ensures |r| <= |s|
    ensures forall k :: 0 <= k < |r| ==> r[k] < |s|
  {
    if s == [] then []
    else IndicesOf(s[..|s| - 1], x) + (if s[|s| - 1] == x then [|s| - 1] else [])
  }

  /** The positions found ascend, hold `x`, and include every position holding `x`; none are found exactly when `x` is absent. */
  lemma {:induction false} IndicesOfSpec<T>(s: seq<T>, x: T)
    ensures Ascending(IndicesOf(s, x))
    ensures forall k :: 0 <= k < |IndicesOf(s, x)| ==> IndicesOf(s, x)[k] < |s| && s[IndicesOf(s, x)[k]] == x
    ensures forall i :: 0 <= i < |s| && s[i] == x ==> i in IndicesOf(s, x)
    ensures x !in s <==> IndicesOf(s, x) == []
  {
    IndicesOfAscending(s, x);
    IndicesOfHold(s, x);
    IndicesOfComplete(s, x);
    IndicesOfEmpty(s, x);
  }

  lemma {:induction false} IndicesOfEmpty<T>(s: seq<T>, x: T)
    ensures x !in s <==> IndicesOf(s, x) == []
  {
    IndicesOfHold(s, x);
    IndicesOfComplete(s, x);
    var r := IndicesOf(s, x);
    if x in s {
      var i :| 0 <= i < |s| && s[i] == x;
      assert i in r;
    }
    if r != [] {
      assert s[r[0]] == x;
    }
  }

  lemma {:induction false} IndicesOfAscending<T>(s: seq<T>, x: T)
    ensures Ascending(IndicesOf(s, x))
  {
    if s != [] {
      var s' := s[..|s| - 1];
      IndicesOfAscending(s', x);
      var r' := IndicesOf(s', x);
      assert IndicesOf(s, x) == r' + (if s[|s| - 1] == x then [|s| - 1] else []);
    }
  }

  lemma {:induction false} IndicesOfHold<T>(s: seq<T>, x: T)
    ensures forall k :: 0 <= k < |IndicesOf(s, x)| ==> s[IndicesOf(s, x)[k]] == x
  {
    if s != [] {
      var s' := s[..|s| - 1];
      IndicesOfHold(s', x);
      var r', r := IndicesOf(s', x), IndicesOf(s, x);
      assert r == r' + (if s[|s| - 1] == x then [|s| - 1] else []);
      forall k | 0 <= k < |r| ensures s[r[k]] == x {
        if k < |r'| {
          assert s[r'[k]] == s'[r'[k]];
        }
      }
    }
  }

  lemma {:induction false} IndicesOfComplete<T>(s: seq<T>, x: T)
    ensures forall i :: 0 <= i < |s| && s[i] == x ==> i in IndicesOf(s, x)
  {
    if s != [] {
      var s' := s[..|s| - 1];
      IndicesOfComplete(s', x);
      var r', r := IndicesOf(s', x), IndicesOf(s, x);
      assert r == r' + (if s[|s| - 1] == x then [|s| - 1] else []);
      forall i | 0 <= i < |s| && s[i] == x ensures i in r {
        if i < |s'| {
          assert s'[i] == x;
        }
      }
    }
  }

  /** `np.where(s > c)[0]`: the positions holding a value above `c`, in increasing order. */
  function IndicesAbove(s: seq<real>, c: real): (r: seq<nat>)
    ensures Ascending(r)
    ensures forall k :: 0 <= k < |r| ==> r[k] < |s| && s[r[k]] > c
    ensures forall i :: 0 <= i < |s| && s[i] > c ==> i in r
  {
    if s == [] then []
    else IndicesAbove(s[..|s| - 1], c) + (if s[|s| - 1] > c then [|s| - 1] else [])
  }

  /** One more entry of the prefix adds one position exactly when it lies above `c`. */
  lemma {:induction false} IndicesAbovePrefixStep(s: seq<real>, c: real, n: nat)
    requires 0 < n <= |s|
    ensures |IndicesAbove(s[..n], c)| == |IndicesAbove(s[..n - 1], c)| + (if s[n - 1] > c then 1 else 0)
  {
    var p := s[..n];
    assert p[..|p| - 1] == s[..n - 1] && p[|p| - 1] == s[n - 1];
  }

  /** The positions of `x` in a prefix are the leading positions of `x` in the whole. */
  lemma {:induction false} IndicesOfPrefix<T>(s: seq<T>, x: T, n: nat)
    requires n <= |s|
    ensures IndicesOf(s[..n], x) == Filter(IndicesOf(s, x), n)
    decreases |s|
  {
    if n < |s| {
      assert s[..|s| - 1][..n] == s[..n];
      IndicesOfPrefix(s[..|s| - 1], x, n);
      FilterAppend(IndicesOf(s[..|s| - 1], x), if s[|s| - 1] == x then [|s| - 1] else [], n);
    } else {
      assert s[..n] == s;
      IndicesOfSpec(s, x);
      FilterAll(IndicesOf(s, x), n);
    }
  }

  /** The entries of an index list below `n`. */
  function Filter(s: seq<nat>, n: nat): seq<nat>
  {
    if s == [] then [] else Filter(s[..|s| - 1], n) + (if s[|s| - 1] < n then [s[|s| - 1]] else [])
  }

  lemma {:induction false} FilterAppend(a: seq<nat>, b: seq<nat>, n: nat)
    requires forall k :: 0 <= k < |b| ==> b[k] >= n
    ensures Filter(a + b, n) == Filter(a, n)
    decreases |b|
  {
    if b != [] {
      assert (a + b)[..|a + b| - 1] == a + b[..|b| - 1];
      FilterAppend(a, b[..|b| - 1], n);
    } else {
      assert a + b == a;
    }
  }

  lemma {:induction false} FilterAll(a: seq<nat>, n: nat)
    requires forall k :: 0 <= k < |a| ==> a[k] < n
    ensures Filter(a, n) == a
    decreases |a|
  {
    if a != [] {
      FilterAll(a[..|a| - 1], n);
      assert a[..|a| - 1] + [a[|a| - 1]] == a;
    }
  }

  // --------------------------------------------------------------- argmin

  /** `np.abs(v - t).argmin()`: the FIRST position nearest to `t`. */
  function Argmin(v: seq<real>, t: real): (k: nat)
    requires |v| > 0
    ensures k < |v|
    decreases |v|
  {
    if |v| == 1 then 0
    else
      var k := Argmin(v[..|v| - 1], t);
      if Abs(v[|v| - 1] - t) < Abs(v[k] - t) then |v| - 1 else k
  }

  /** No entry is nearer to `t` than the chosen one, and every earlier entry is farther. */
  lemma {:induction false} ArgminNearest(v: seq<real>, t: real)
    requires |v| > 0
    ensures forall j :: 0 <= j < |v| ==> Abs(v[Argmin(v, t)] - t) <= Abs(v[j] - t)
    ensures forall j :: 0 <= j < Argmin(v, t) ==> Abs(v[j] - t) > Abs(v[Argmin(v, t)] - t)
    decreases |v|
  {
    if |v| > 1 {
      ArgminNearest(v[..|v| - 1], t);
    }
  }

  /** On a strictly increasing array every entry is its own nearest position. */
  lemma {:induction false} ArgminOfEntry(v: seq<real>, i: nat)
    requires StrictlyIncreasing(v) && i < |v|
    ensures Argmin(v, v[i]) == i
  {
    ArgminNearest(v, v[i]);
  }

  /** `np.max(s)` of a non-empty array: an entry no other entry exceeds. */
  function MaxOf(s: seq<real>): (m: real)
    requires |s| > 0
    ensures m in s
    ensures forall i :: 0 <= i < |s| ==> s[i] <= m
  {
    if |s| == 1 then s[0]
    else
      var m := MaxOf(s[..|s| - 1]);
      assert forall i :: 0 <= i < |s| - 1 ==> s[..|s| - 1][i] == s[i];
      if s[|s| - 1] > m then s[|s| - 1] else m
  }

  // ------------------------------------------------------------- linspace

  /**
   * `np.linspace(on, off, num)` with its end point: `num` evenly spaced
   * samples from `on` to `off`; a negative count is refused.
   */
  function Linspace(on: real, off: real, num: int): (r: Result<seq<real>>)
    ensures r.Ok? <==> num >= 0
    ensures r.Err? ==> r.error == NegativeCount
    ensures r.Ok? ==> |r.value| == num
    ensures r.Ok? && num >= 1 ==> r.value[0] == on
    ensures r.Ok? && num >= 2 ==> r.value[num - 1] == off
    ensures r.Ok? && num >= 2 ==> forall i :: 0 <= i < num - 1 ==> r.value[i + 1] - r.value[i] == (off - on) / (num - 1) as real
  {
    if num < 0 then Err(NegativeCount)
    else if num == 0 then Ok([])
    else if num == 1 then Ok([on])
    else
      SamplesSpec(on, off, num);
      Ok(Samples(on, (off - on) / (num - 1) as real, num))
  }

  /** `num` samples from `on`, `step` apart. */
  function Samples(on: real, step: real, num: nat): (r: seq<real>)
    ensures |r| == num
  {
    seq(num, i => on + i as real * step)
  }

  /** Samples spaced `(off - on) / (num - 1)` start at `on`, end at `off` and are evenly spaced. */
  lemma {:induction false} SamplesSpec(on: real, off: real, num: nat)
    requires num >= 2
    ensures var step := (off - on) / (num - 1) as real;
            var r := Samples(on, step, num);
            r[0] == on && r[num - 1] == off &&
            forall i :: 0 <= i < num - 1 ==> r[i + 1] - r[i] == step
  {
    var step := (off - on) / (num - 1) as real;
    var r := Samples(on, step, num);
    StepReachesEnd(on, off, num - 1);
    forall i | 0 <= i < num - 1 ensures r[i + 1] - r[i] == step {
      NextSample(on, step, i);
    }
  }

  /** `n` steps of `(off - on) / n` lead from `on` to `off`. */
  lemma {:induction false} StepReachesEnd(on: real, off: real, n: nat)
    requires n > 0
    ensures on + n as real * ((off - on) / n as real) == off
  {
    var d := n as real;
    assert d * ((off - on) / d) == off - on;
  }

  /** Consecutive samples are one step apart. */
  lemma {:induction false} NextSample(on: real, step: real, i: nat)
    ensures (on + (i + 1) as real * step) - (on + i as real * step) == step
  {
    assert (i + 1) as real * step == i as real * step + step;
  }

  /** Samples of an increasing range are strictly increasing. */
  lemma {:induction false} LinspaceIncreasing(on: real, off: real, num: nat)
    requires on < off
    ensures Linspace(on, off, num).Ok? && StrictlyIncreasing(Linspace(on, off, num).value)
  {
    var r := Linspace(on, off, num).value;
    if num >= 2 {
      var step := (off - on) / (num - 1) as real;
      assert step > 0.0;
      forall i, j | 0 <= i < j < num ensures r[i] < r[j] {
        assert r[j] - r[i] == (j - i) as real * step;
        MulPositive((j - i) as real, step);
      }
    }
  }

  lemma {:induction false} MulPositive(a: real, b: real)
    requires a > 0.0 && b > 0.0
    ensures a * b > 0.0
  {
  }

  // ------------------------------------------------------------ histogram

  /** Bin `i` is `[e_i, e_{i+1})`; the last bin also holds its right edge. */
  predicate InBin(x: real, edges: seq<real>, i: nat)
    requires i + 1 < |edges|
  {
    edges[i] <= x && (x < edges[i + 1] || (i + 2 == |edges| && x == edges[i + 1]))
  }

  /** How many samples of `a` fall into bin `i`. */
  function CountInBin(a: seq<real>, edges: seq<real>, i: nat): nat
    requires i + 1 < |edges|
  {
    if a == [] then 0
    else CountInBin(a[..|a| - 1], edges, i) + (if InBin(a[|a| - 1], edges, i) then 1 else 0)
  }

  /** The counts of the first `n` bins. */
  function BinCounts(a: seq<real>, edges: seq<real>, n: nat): (r: seq<nat>)
    requires n < |edges|
    ensures |r| == n
    ensures forall i :: 0 <= i < n ==> r[i] == CountInBin(a, edges, i)
  {
    if n == 0 then [] else BinCounts(a, edges, n - 1) + [CountInBin(a, edges, n - 1)]
  }

  /**
   * `np.histogram(a, bins=edges)[0]`: one count per bin; edges that decrease
   * are refused.
   */
  function Histogram(a: seq<real>, edges: seq<real>): (r: Result<seq<nat>>)
    ensures r.Ok? <==> NonDecreasing(edges)
    ensures r.Err? ==> r.error == NotMonotonic
    ensures r.Ok? ==> |r.value| == (if |edges| == 0 then 0 else |edges| - 1)
    ensures r.Ok? ==> forall i :: 0 <= i < |r.value| ==> r.value[i] == CountInBin(a, edges, i)
  {
    if !NonDecreasing(edges) then Err(NotMonotonic)
    else if |edges| == 0 then Ok([])
    else Ok(BinCounts(a, edges, |edges| - 1))
  }

  function SumNat(s: seq<nat>): nat
  {
    if s == [] then 0 else SumNat(s[..|s| - 1]) + s[|s| - 1]
  }

  /** How many samples lie in the closed range `[lo, hi]`. */
  function CountInRange(a: seq<real>, lo: real, hi: real): nat
  {
    if a == [] then 0
    else CountInRange(a[..|a| - 1], lo, hi) + (if lo <= a[|a| - 1] <= hi then 1 else 0)
  }

  /** Number of the first `n` bins that hold `x`. */
  function BinHits(x: real, edges: seq<real>, n: nat): nat
    requires n < |edges|
  {
    if n == 0 then 0 else BinHits(x, edges, n - 1) + (if InBin(x, edges, n - 1) then 1 else 0)
  }

  /** With ordered edges a sample falls into at most one bin, and into one exactly when it is in range. */
  lemma {:induction false} BinHitsRange(x: real, edges: seq<real>, n: nat)
    requires NonDecreasing(edges) && 0 < n < |edges|
    ensures n + 1 < |edges| ==> BinHits(x, edges, n) == (if edges[0] <= x < edges[n] then 1 else 0)
    ensures n + 1 == |edges| ==> BinHits(x, edges, n) == (if edges[0] <= x <= edges[n] then 1 else 0)
  {
    if n > 1 {
      BinHitsRange(x, edges, n - 1);
    }
  }

  lemma {:induction false} BinCountsSnoc(a: seq<real>, x: real, edges: seq<real>, n: nat)
    requires n < |edges|
    ensures SumNat(BinCounts(a + [x], edges, n)) == SumNat(BinCounts(a, edges, n)) + BinHits(x, edges, n)
  {
    if n > 0 {
      BinCountsSnoc(a, x, edges, n - 1);
      assert (a + [x])[..|a + [x]| - 1] == a;
      var c := BinCounts(a + [x], edges, n);
      assert c[..n - 1] == BinCounts(a + [x], edges, n - 1);
      var d := BinCounts(a, edges, n);
      assert d[..n - 1] == BinCounts(a, edges, n - 1);
    }
  }

  /**
   * Every sample between the first and the last edge is counted exactly
   * once: the counts add up to the number of samples in range.
   */
  lemma {:induction false} HistogramTotal(a: seq<real>, edges: seq<real>)
    requires NonDecreasing(edges) && |edges| >= 2
    ensures Histogram(a, edges).Ok?
    ensures SumNat(Histogram(a, edges).value) == CountInRange(a, edges[0], edges[|edges| - 1])
    decreases |a|
  {
    var m := |edges| - 1;
    if a == [] {
      SumNatZeros(BinCounts(a, edges, m));
    } else {
      var init := a[..|a| - 1];
      var x := a[|a| - 1];
      HistogramTotal(init, edges);
      assert init + [x] == a;
      BinCountsSnoc(init, x, edges, m);
      BinHitsRange(x, edges, m);
    }
  }

  lemma {:induction false} SumNatZeros(s: seq<nat>)
    requires forall i :: 0 <= i < |s| ==> s[i] == 0
    ensures SumNat(s) == 0
  {
    if s != [] { SumNatZeros(s[..|s| - 1]); }
  }
}
