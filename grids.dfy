/** The experiment constants of the rank-selection driver: the time windows
    the recording is cut into, the grid of sample sizes drawn from each
    window, and the coarse grid of candidate ranks scored by
    cross-validation. */
module Grids {

  /** The driver's hard-wired constants, made explicit: the number of frames
      used, how many windows they are cut into, and the number of folds. */
  datatype Config = Config(tmax: nat, winDiv: nat, nFolds: nat)

  /** The values in the script: 347904 = 128·2718 of the 347973 recorded
      frames, 16 windows, 4 folds. */
  const Source: Config := Config(347904, 16, 4)

  /** Constants the model covers: positive divisors, and a frame count that
      is a multiple of 64 so that `3·Tmax/64` and `Tmax/32` (true division
      in the script) are whole numbers. */
  predicate ValidConfig(c: Config) {
    c.tmax > 0 && c.tmax % 64 == 0 && c.winDiv > 0 && c.nFolds > 0
  }

  /** `Twin = np.int(Tmax / winDiv)`: the window length, truncated, so the
      windows fit in the frames and leave fewer than `winDiv` over. */
  function WindowLength(c: Config): (w: nat)
    requires c.winDiv > 0
    ensures w * c.winDiv <= c.tmax < w * c.winDiv + c.winDiv
  {
    c.tmax / c.winDiv
  }

  /** `Tstart = idx * Twin`. */
  function WindowStart(c: Config, idx: nat): nat
    requires c.winDiv > 0
  {
    idx * WindowLength(c)
  }

  /** Frame `t` belongs to window `idx`. */
  predicate InWindow(c: Config, idx: nat, t: int)
    requires c.winDiv > 0
  {
    WindowStart(c, idx) <= t < WindowStart(c, idx) + WindowLength(c)
  }

  /** The windows are consecutive, of equal length, and all of them lie in
      the frames `[0, Tmax)`. */
  lemma {:induction false} WindowsTile(c: Config, idx: nat)
    requires c.winDiv > 0 && idx < c.winDiv
    ensures WindowStart(c, idx + 1) == WindowStart(c, idx) + WindowLength(c)
    ensures WindowStart(c, idx) + WindowLength(c) <= c.tmax
  {
    var w := WindowLength(c);
    assert (idx + 1) * w <= c.winDiv * w by {
      MulMonotone(idx + 1, c.winDiv, w);
    }
  }

  /** A frame lies in window `idx` exactly when `idx` is its frame number
      divided by the window length: so windows are pairwise disjoint. */
  lemma {:induction false} WindowOfFrame(c: Config, idx: nat, t: int)
    requires c.winDiv > 0 && WindowLength(c) > 0
    ensures InWindow(c, idx, t) <==> (t >= 0 && t / WindowLength(c) == idx)
  {
    var w := WindowLength(c);
    if InWindow(c, idx, t) {
      DivBetween(t, w, idx);
    }
    if t >= 0 && t / w == idx {
      assert t == w * (t / w) + t % w;
    }
  }

  /** Two distinct windows share no frame. */
  lemma WindowsDisjoint(c: Config, i: nat, j: nat, t: int)
    requires c.winDiv > 0 && i != j
    ensures !(InWindow(c, i, t) && InWindow(c, j, t))
  {
    if WindowLength(c) > 0 {
      WindowOfFrame(c, i, t);
      WindowOfFrame(c, j, t);
    }
  }

  lemma MulMonotone(a: nat, b: nat, w: nat)
    requires a <= b
    ensures a * w <= b * w
  {
  }

  lemma DivBetween(t: int, w: int, q: int)
    requires w > 0 && q * w <= t < q * w + w
    ensures t / w == q
  {
    DivUnique(t, w, q, t - q * w);
  }

  /** Euclidean division has one quotient: `t == q·w + r` with
      `0 <= r < w` fixes `t / w == q`. */
  lemma DivUnique(t: int, w: int, q: int, r: int)
    requires w > 0 && t == q * w + r && 0 <= r < w
    ensures t / w == q
  {
    var k := t / w - q;
    assert t == w * (t / w) + t % w;
    assert w * k == r - t % w by {
      assert w * (t / w) == w * q + w * k;
    }
    MulAwayFromZero(w, k);
  }

  lemma MulAwayFromZero(w: int, k: int)
    requires w > 0
    ensures k >= 1 ==> w * k >= w
    ensures k <= -1 ==> w * k <= -w
  {
    if k >= 1 {
      assert w * k == w + w * (k - 1);
    }
    if k <= -1 {
      assert w * k == -w + w * (k + 1);
    }
  }

  /** `np.arange(start, stop, step)` over integers with a positive step:
      every `start + k·step` below `stop`, in increasing order. */
  function Arange(start: int, stop: int, step: int): (r: seq<int>)
    requires step > 0
    ensures |r| == if stop <= start then 0 else (stop - start + step - 1) / step
    ensures forall k :: 0 <= k < |r| ==> r[k] == start + k * step
    decreases stop - start
  {
    if stop <= start then []
    else
      var rest := Arange(start + step, stop, step);
      assert (stop - start + step - 1) / step == 1 + (stop - start - 1) / step by {
        DivShift(stop - start - 1, step);
      }
      assert stop - start - step <= 0 ==> (stop - start - 1) / step == 0;
      assert forall k :: 1 <= k < |rest| + 1 ==> start + k * step == start + step + (k - 1) * step;
      [start] + rest
  }

  lemma DivShift(x: int, step: int)
    requires step > 0
    ensures (x + step) / step == 1 + x / step
  {
    assert x == (x / step) * step + x % step;
    assert x + step == (x / step + 1) * step + x % step;
    DivUnique(x + step, step, x / step + 1, x % step);
  }

  /** Every entry of `Arange` lies in `[start, stop)`, and the entries
      strictly increase. */
  lemma ArangeBounds(start: int, stop: int, step: int)
    requires step > 0
    ensures forall k :: 0 <= k < |Arange(start, stop, step)| ==>
      start <= Arange(start, stop, step)[k] < stop
    ensures StrictlyIncreasing(Arange(start, stop, step))
  {
    var r := Arange(start, stop, step);
    forall k | 0 <= k < |r| ensures start <= r[k] < stop {
      ArangeEntryBounds(start, stop, step, k);
    }
    forall i, j | 0 <= i < j < |r| ensures r[i] < r[j] {
      assert r[j] - r[i] == step * (j - i);
      MulAwayFromZero(step, j - i);
    }
  }

  lemma {:induction false} ArangeEntryBounds(start: int, stop: int, step: int, k: nat)
    requires step > 0 && k < |Arange(start, stop, step)|
    ensures start <= Arange(start, stop, step)[k] < stop
  {
    var r := Arange(start, stop, step);
    assert r[k] == start + k * step;
    assert k * step <= (|r| - 1) * step by { MulMonotone(k, |r| - 1, step); }
    LastBelow(start, stop, step);
  }

  lemma LastBelow(start: int, stop: int, step: int)
    requires step > 0 && start < stop
    ensures start + ((stop - start + step - 1) / step - 1) * step < stop
  {
    var x := stop - start - 1;
    DivShift(x, step);
    assert (x / step) * step <= x;
  }

  predicate StrictlyIncreasing(s: seq<int>) {
    forall i, j :: 0 <= i < j < |s| ==> s[i] < s[j]
  }

  /** `samples = np.arange(3*Tmax/64, Twin+1, Tmax/32)`: the sample sizes
      drawn from each window. None is zero and none exceeds the window,
      so drawing that many distinct frames from a window is possible. */
  function SampleGrid(c: Config): (ns: seq<int>)
    requires ValidConfig(c)
    ensures StrictlyIncreasing(ns)
    ensures forall i :: 0 <= i < |ns| ==> 0 < ns[i] <= WindowLength(c)
  {
    ArangeBounds(3 * c.tmax / 64, WindowLength(c) + 1, c.tmax / 32);
    Arange(3 * c.tmax / 64, WindowLength(c) + 1, c.tmax / 32)
  }

  /** With the script's constants the grid holds one sample size, 16308,
      and it is a multiple of the fold count: the divisibility check never
      raises for the script as configured. */
  lemma {:induction false} SourceSampleGrid()
    ensures ValidConfig(Source)
    ensures WindowLength(Source) == 21744
    ensures SampleGrid(Source) == [16308]
    ensures forall i :: 0 <= i < |SampleGrid(Source)| ==> SampleGrid(Source)[i] % Source.nFolds == 0
  {
    assert WindowLength(Source) == 21744;
    var g := SampleGrid(Source);
    assert |g| == (21745 - 16308 + 10872 - 1) / 10872 == 1;
    assert g[0] == 16308;
  }

  /** `ps = np.concatenate(([1], np.arange(25, 8200, 25)))`: the ranks
      scored by cross-validation. */
  function RankGrid(): (ps: seq<int>)
    ensures |ps| == 328
    ensures ps[0] == 1 && ps[327] == 8175
    ensures forall k :: 1 <= k < |ps| ==> ps[k] == 25 * k
  {
    var tail := Arange(25, 8200, 25);
    assert |tail| == 327;
    [1] + tail
  }

  /** The rank grid starts at 1 and strictly increases, so every rank in it
      is a positive integer and the grid has no repeats. */
  lemma {:induction false} RankGridIncreasing()
    ensures StrictlyIncreasing(RankGrid())
    ensures forall k :: 0 <= k < |RankGrid()| ==> 1 <= RankGrid()[k] <= 8175
  {
    var ps := RankGrid();
    forall i, j | 0 <= i < j < |ps| ensures ps[i] < ps[j] {
      if i > 0 {
        assert ps[j] - ps[i] == 25 * (j - i);
      }
    }
    forall k | 0 <= k < |ps| ensures 1 <= ps[k] <= 8175 {
      if k > 0 {
        assert 25 * k <= 25 * 327;
      }
    }
  }
}
