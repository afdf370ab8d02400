/** The evaluation subset drawn from a window, its cut into equal folds,
    and the train/test split for each held-out fold. */
module Folds {
  import opened Outcomes
  import opened Grids

  predicate Distinct(s: seq<int>) {
    forall i, j :: 0 <= i < j < |s| ==> s[i] != s[j]
  }

  /** What `np.random.choice(np.arange(Twin), n, replace=False) + Tstart`
      returns: `n` distinct frames of window `idx`. */
  predicate IsSample(c: Config, idx: nat, n: nat, perm: seq<int>)
    requires c.winDiv > 0
  {
    |perm| == n && Distinct(perm) &&
    forall k :: 0 <= k < |perm| ==> InWindow(c, idx, perm[k])
  }

  /** A draw without replacement cannot be larger than its window. */
  lemma SampleFitsWindow(c: Config, idx: nat, n: nat, perm: seq<int>)
    requires c.winDiv > 0 && IsSample(c, idx, n, perm)
    ensures n <= WindowLength(c)
  {
    var lo := WindowStart(c, idx);
    var elems := set x | x in perm;
    var window := Range(lo, lo + WindowLength(c));
    DistinctCard(perm);
    assert elems <= window;
    SubsetCard(elems, window);
  }

  lemma {:induction false} DistinctCard(s: seq<int>)
    requires Distinct(s)
    ensures |set x | x in s| == |s|
  {
    if |s| > 0 {
      var init := s[..|s| - 1];
      DistinctCard(init);
      assert (set x | x in s) == (set x | x in init) + {s[|s| - 1]};
      assert s[|s| - 1] !in init;
    } else {
      assert (set x | x in s) == {};
    }
  }

  /** The frames `lo` up to `hi`, as a set. */
  function Range(lo: int, hi: int): (r: set<int>)
    ensures forall x :: x in r <==> lo <= x < hi
    ensures |r| == if lo <= hi then hi - lo else 0
    decreases hi - lo
  {
    if hi <= lo then {} else Range(lo, hi - 1) + {hi - 1}
  }

  lemma SubsetCard(a: set<int>, b: set<int>)
    requires a <= b
    ensures |a| <= |b|
  {
    assert b == a + (b - a);
    assert a * (b - a) == {};
  }

  /** Frames drawn for window `idx < winDiv` are valid rows of the data,
      which holds at least `Tmax` frames. */
  lemma SampleInFrames(c: Config, idx: nat, n: nat, perm: seq<int>)
    requires c.winDiv > 0 && idx < c.winDiv && IsSample(c, idx, n, perm)
    ensures forall k :: 0 <= k < |perm| ==> 0 <= perm[k] < c.tmax
  {
    WindowsTile(c, idx);
  }

  /** `testSize = n/n_folds` and `trainSize = (n_folds-1)*testSize`, after
      the check that raises when `n` is not a multiple of `n_folds`. */
  function FoldSizes(n: nat, k: nat): (r: Result<(nat, nat)>)
    requires k > 0
    ensures r.Ok? <==> n % k == 0
    ensures r.Err? ==> r.error == NotMultipleOfFolds(n, k)
    ensures r.Ok? ==> r.value.0 * k == n && r.value.1 + r.value.0 == n
  {
    if n % k != 0 then Err(NotMultipleOfFolds(n, k))
    else
      var size := n / k;
      assert n == k * size + n % k;
      MulSucc(k - 1, size);
      var train: nat := (k - 1) * size;
      Ok((size, train))
  }

  /** `np.reshape(perm, (k, testSize))`: row `i` is the `i`-th block of
      `testSize` consecutive entries of `perm`. */
  function Partition(perm: seq<int>, k: nat): (folds: seq<seq<int>>)
    requires k > 0 && |perm| % k == 0
    ensures |folds| == k
    ensures forall i :: 0 <= i < k ==> |folds[i]| == |perm| / k
  {
    seq(k, i requires 0 <= i < k => Fold(perm, k, i))
  }

  /** Row `i` of the reshape. */
  function Fold(perm: seq<int>, k: nat, i: nat): (fold: seq<int>)
    requires k > 0 && |perm| % k == 0 && i < k
    ensures |fold| == |perm| / k
  {
    FoldFits(|perm|, k, i);
    perm[i * (|perm| / k)..i * (|perm| / k) + |perm| / k]
  }

  /** Fold `i < k` ends within `perm`. */
  lemma FoldFits(n: nat, k: nat, i: nat)
    requires k > 0 && n % k == 0 && i < k
    ensures 0 <= i * (n / k) && i * (n / k) + n / k <= n
  {
    var size := n / k;
    assert n == k * size + n % k;
    MulMonotone(i + 1, k, size);
    MulSucc(i, size);
  }

  lemma MulSucc(x: int, y: int)
    ensures (x + 1) * y == x * y + y
  {
  }

  /** Concatenation of a sequence of index lists, in order (`flatten`). */
  function Flatten(ss: seq<seq<int>>): seq<int> {
    if |ss| == 0 then [] else Flatten(ss[..|ss| - 1]) + ss[|ss| - 1]
  }

  lemma {:induction false} FlattenAppend(xs: seq<seq<int>>, ys: seq<seq<int>>)
    ensures Flatten(xs + ys) == Flatten(xs) + Flatten(ys)
    decreases |ys|
  {
    if |ys| == 0 {
      assert xs + ys == xs;
    } else {
      var init := ys[..|ys| - 1];
      assert (xs + ys)[..|xs + ys| - 1] == xs + init;
      FlattenAppend(xs, init);
    }
  }

  /** Folds `a` up to `b` of the partition, concatenated, are exactly the
      stretch `[lo, hi)` of `perm` they were cut from. */
  lemma {:induction false} FlattenFolds(perm: seq<int>, k: nat, a: nat, b: nat, lo: int, hi: int)
    requires k > 0 && |perm| % k == 0 && a <= b <= k
    requires lo == a * (|perm| / k) && hi == b * (|perm| / k)
    ensures 0 <= lo <= hi <= |perm|
    ensures Flatten(Partition(perm, k)[a..b]) == perm[lo..hi]
    decreases b - a
  {
    var size := |perm| / k;
    MulMonotone(a, b, size);
    if a == b {
      if b < k {
        FoldFits(|perm|, k, b);
      } else {
        FoldFits(|perm|, k, b - 1);
        MulSucc(b - 1, size);
      }
    } else {
      var mid := (b - 1) * size;
      MulSucc(b - 1, size);
      FlattenFolds(perm, k, a, b - 1, lo, mid);
      FoldSlice(perm, k, b - 1, mid, hi);
      FlattenLast(Partition(perm, k), a, b);
      assert perm[lo..hi] == perm[lo..mid] + perm[mid..hi];
    }
  }

  /** Fold `i` is the stretch `[lo, hi)` of `perm`, `lo = i·testSize`. */
  lemma FoldSlice(perm: seq<int>, k: nat, i: nat, lo: int, hi: int)
    requires k > 0 && |perm| % k == 0 && i < k
    requires lo == i * (|perm| / k) && hi == lo + |perm| / k
    ensures 0 <= lo <= hi <= |perm| && Partition(perm, k)[i] == perm[lo..hi]
  {
    FoldFits(|perm|, k, i);
  }

  lemma FlattenLast(ss: seq<seq<int>>, a: nat, b: nat)
    requires a < b <= |ss|
    ensures Flatten(ss[a..b]) == Flatten(ss[a..b - 1]) + ss[b - 1]
  {
    assert ss[a..b][..b - a - 1] == ss[a..b - 1];
  }

  /** The partition is exact: every fold holds `testSize` entries, there
      are `k` of them, and the folds in order give back `perm`. */
  lemma PartitionExact(perm: seq<int>, k: nat)
    requires k > 0 && |perm| % k == 0
    ensures |perm| == k * (|perm| / k)
    ensures |Partition(perm, k)| == k
    ensures forall i :: 0 <= i < k ==> |Partition(perm, k)[i]| == |perm| / k
    ensures Flatten(Partition(perm, k)) == perm
  {
    assert |perm| == k * (|perm| / k) + |perm| % k;
    FlattenFolds(perm, k, 0, k, 0, |perm|);
    assert Partition(perm, k)[0..k] == Partition(perm, k);
  }

  /** Position `p` of fold `i` is entry `i·testSize + p` of `perm`. */
  lemma FoldEntry(perm: seq<int>, k: nat, i: nat, p: nat)
    requires k > 0 && |perm| % k == 0 && i < k && p < |perm| / k
    ensures i * (|perm| / k) + p < |perm|
    ensures Partition(perm, k)[i][p] == perm[i * (|perm| / k) + p]
  {
    FoldFits(|perm|, k, i);
  }

  /** Two different folds of a repeat-free `perm` share no index. */
  lemma FoldsDisjoint(perm: seq<int>, k: nat, i: nat, j: nat)
    requires k > 0 && |perm| % k == 0 && Distinct(perm) && i < j < k
    ensures forall x :: x in Partition(perm, k)[i] ==> x !in Partition(perm, k)[j]
  {
    var folds := Partition(perm, k);
    var size := |perm| / k;
    MulMonotone(i + 1, j, size);
    MulSucc(i, size);
    forall p, q | 0 <= p < size && 0 <= q < size ensures folds[i][p] != folds[j][q] {
      FoldEntry(perm, k, i, p);
      FoldEntry(perm, k, j, q);
    }
  }

  /** Entry `j` of `perm` lies in fold `j / testSize`. */
  lemma EntryInFold(perm: seq<int>, k: nat, j: nat)
    requires k > 0 && |perm| % k == 0 && j < |perm|
    ensures j / (|perm| / k) < k && perm[j] in Partition(perm, k)[j / (|perm| / k)]
  {
    var size := |perm| / k;
    assert |perm| == k * size + |perm| % k;
    assert size > 0;
    var i := j / size;
    assert j == i * size + j % size;
    MulAwayFromZero(size, i - k + 1);
    assert i < k;
    FoldEntry(perm, k, i, j % size);
  }

  /** When `perm` has no repeats the folds are pairwise disjoint, each fold
      has no repeats, and their union is exactly the drawn set. */
  lemma PartitionDisjointCover(perm: seq<int>, k: nat)
    requires k > 0 && |perm| % k == 0 && Distinct(perm)
    ensures forall i :: 0 <= i < k ==> Distinct(Partition(perm, k)[i])
    ensures forall i, j, x :: 0 <= i < j < k && x in Partition(perm, k)[i] ==> x !in Partition(perm, k)[j]
    ensures forall x :: x in perm <==> exists i :: 0 <= i < k && x in Partition(perm, k)[i]
  {
    var folds := Partition(perm, k);
    forall i | 0 <= i < k ensures Distinct(folds[i]) {
      FoldDistinct(perm, k, i);
    }
    forall i, j | 0 <= i < j < k {
      FoldsDisjoint(perm, k, i, j);
    }
    forall x | x in perm ensures exists i :: 0 <= i < k && x in folds[i] {
      var j :| 0 <= j < |perm| && perm[j] == x;
      EntryInFold(perm, k, j);
    }
    forall i, x | 0 <= i < k && x in folds[i] ensures x in perm {
      FoldMemberInPerm(perm, k, i, x);
    }
  }

  lemma FoldDistinct(perm: seq<int>, k: nat, i: nat)
    requires k > 0 && |perm| % k == 0 && Distinct(perm) && i < k
    ensures Distinct(Partition(perm, k)[i])
  {
    var fold := Partition(perm, k)[i];
    forall p, q | 0 <= p < q < |fold| ensures fold[p] != fold[q] {
      FoldEntry(perm, k, i, p);
      FoldEntry(perm, k, i, q);
    }
  }

  lemma FoldMemberInPerm(perm: seq<int>, k: nat, i: nat, x: int)
    requires k > 0 && |perm| % k == 0 && i < k && x in Partition(perm, k)[i]
    ensures x in perm
  {
    var fold := Partition(perm, k)[i];
    var p :| 0 <= p < |fold| && fold[p] == x;
    FoldEntry(perm, k, i, p);
  }

  /** `trainSet`: the folds other than `i`, in increasing fold order,
      concatenated. */
  function TrainSet(folds: seq<seq<int>>, i: nat): seq<int>
    requires i < |folds|
  {
    Flatten(folds[..i] + folds[i + 1..])
  }

  /** The training set of held-out fold `i` is `perm` with the stretch of
      fold `i` cut out. */
  lemma TrainSetComplement(perm: seq<int>, k: nat, i: nat, lo: int, hi: int)
    requires k > 0 && |perm| % k == 0 && i < k
    requires lo == i * (|perm| / k) && hi == lo + |perm| / k
    ensures 0 <= lo <= hi <= |perm|
    ensures TrainSet(Partition(perm, k), i) == perm[..lo] + perm[hi..]
  {
    var folds := Partition(perm, k);
    var size := |perm| / k;
    FoldFits(|perm|, k, i);
    MulSucc(i, size);
    assert |perm| == k * size + |perm| % k;
    FlattenAppend(folds[..i], folds[i + 1..]);
    FlattenFolds(perm, k, 0, i, 0, lo);
    FlattenFolds(perm, k, i + 1, k, hi, |perm|);
    assert folds[..i] == folds[0..i];
    assert folds[i + 1..] == folds[i + 1..k];
  }

  /** For each held-out fold: the training set has `trainSize` entries and
      training plus test set is `perm` as a multiset. */
  lemma TrainTestSizes(perm: seq<int>, k: nat, i: nat)
    requires k > 0 && |perm| % k == 0 && i < k
    ensures |TrainSet(Partition(perm, k), i)| == (k - 1) * (|perm| / k)
    ensures multiset(TrainSet(Partition(perm, k), i)) + multiset(Partition(perm, k)[i]) == multiset(perm)
  {
    var size := |perm| / k;
    var lo := i * size;
    FoldFits(|perm|, k, i);
    TrainSetComplement(perm, k, i, lo, lo + size);
    var train := TrainSet(Partition(perm, k), i);
    var test := Partition(perm, k)[i];
    assert test == perm[lo..lo + size];
    SplitAround(perm, lo, lo + size);
    TrainShare(|perm|, k, size);
  }

  /** Cutting the stretch `[lo, hi)` out of `s` and putting it back keeps
      every element. */
  lemma SplitAround(s: seq<int>, lo: int, hi: int)
    requires 0 <= lo <= hi <= |s|
    ensures multiset(s[..lo] + s[hi..]) + multiset(s[lo..hi]) == multiset(s)
  {
    assert s == s[..lo] + s[lo..hi] + s[hi..];
  }

  /** `n == (k-1)·(n/k) + n/k` when `k` divides `n`. */
  lemma TrainShare(n: nat, k: nat, size: nat)
    requires k > 0 && n % k == 0 && size == n / k
    ensures n - size == (k - 1) * size
  {
    assert n == k * size + n % k;
    MulSucc(k - 1, size);
  }

  /** When `perm` has no repeats, neither has the training set, and it
      shares no index with the held-out fold. */
  lemma TrainTestDisjoint(perm: seq<int>, k: nat, i: nat)
    requires k > 0 && |perm| % k == 0 && i < k && Distinct(perm)
    ensures Distinct(TrainSet(Partition(perm, k), i))
    ensures forall x :: x in Partition(perm, k)[i] ==> x !in TrainSet(Partition(perm, k), i)
  {
    var size := |perm| / k;
    var lo := i * size;
    FoldFits(|perm|, k, i);
    TrainSetComplement(perm, k, i, lo, lo + size);
    var train := TrainSet(Partition(perm, k), i);
    var test := Partition(perm, k)[i];
    assert train == perm[..lo] + perm[lo + size..];
    assert test == perm[lo..lo + size];
    forall a | 0 <= a < |train| ensures train[a] == perm[if a < lo then a else a + size] {
    }
    forall a, b | 0 <= a < b < |train| ensures train[a] != train[b] {
      assert train[a] == perm[if a < lo then a else a + size];
      assert train[b] == perm[if b < lo then b else b + size];
    }
    forall q, a | 0 <= q < size && 0 <= a < |train| ensures test[q] != train[a] {
      assert train[a] == perm[if a < lo then a else a + size];
    }
  }
}
