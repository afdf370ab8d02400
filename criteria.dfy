/** The four ways the driver turns curves into a rank: the singular-value
    threshold, the AIC and BIC minima over the full fit, and the maximum of
    the fold-averaged held-out log-likelihood. */
module Criteria {
  import opened Outcomes
  import opened Grids

  /** `np.argmin`: the first index holding the smallest value. */
  function FirstArgMin(s: seq<real>): (k: nat)
    requires |s| > 0
    ensures k < |s|
    ensures forall j :: 0 <= j < |s| ==> s[k] <= s[j]
    ensures forall j :: 0 <= j < k ==> s[k] < s[j]
  {
    if |s| == 1 then 0
    else
      var m := FirstArgMin(s[..|s| - 1]);
      if s[|s| - 1] < s[m] then |s| - 1 else m
  }

  /** `np.argmax`: the first index holding the largest value. */
  function FirstArgMax(s: seq<real>): (k: nat)
    requires |s| > 0
    ensures k < |s|
    ensures forall j :: 0 <= j < |s| ==> s[j] <= s[k]
    ensures forall j :: 0 <= j < k ==> s[j] < s[k]
  {
    if |s| == 1 then 0
    else
      var m := FirstArgMax(s[..|s| - 1]);
      if s[m] < s[|s| - 1] then |s| - 1 else m
  }

  /** The two contracts above pick one index: any index that holds the
      minimum and beats every earlier entry is `FirstArgMin`. */
  lemma ArgMinUnique(s: seq<real>, k: nat)
    requires k < |s|
    requires forall j :: 0 <= j < |s| ==> s[k] <= s[j]
    requires forall j :: 0 <= j < k ==> s[k] < s[j]
    ensures FirstArgMin(s) == k
  {
  }

  // ---------------------------------------------------------------------
  // Threshold rank

  /** `np.where(s < tau)[0][0]` when that array is non-empty: the first
      index whose value falls below the cutoff. */
  function FirstBelow(s: seq<real>, tau: real): (r: Option<nat>)
    ensures r.Some? ==> r.value < |s| && s[r.value] < tau
    ensures r.Some? ==> forall j :: 0 <= j < r.value ==> s[j] >= tau
    ensures r.None? <==> forall j :: 0 <= j < |s| ==> s[j] >= tau
  {
    if |s| == 0 then None
    else if s[0] < tau then Some(0)
    else match FirstBelow(s[1..], tau)
      case None => None
      case Some(j) => Some(j + 1)
  }

  /** `p_threshold = np.where(s < tau)[0][0] - 1`. Indexing the empty
      array raises when no singular value is below the cutoff; otherwise
      the rank is one less than the first index below it, so it is at
      least -1 and every value up to index `rank` is at or above `tau`. */
  function ThresholdRank(s: seq<real>, tau: real): (r: Result<int>)
    ensures r.Err? <==> forall j :: 0 <= j < |s| ==> s[j] >= tau
    ensures r.Err? ==> r.error == NoValueBelowCutoff
    ensures r.Ok? ==> -1 <= r.value <= |s| - 2
    ensures r.Ok? ==> s[r.value + 1] < tau && forall j :: 0 <= j <= r.value ==> s[j] >= tau
  {
    match FirstBelow(s, tau)
    case None => Err(NoValueBelowCutoff)
    case Some(j) => Ok(j - 1)
  }

  ghost predicate Descending(s: seq<real>) {
    forall i, j :: 0 <= i < j < |s| ==> s[i] >= s[j]
  }

  /** How many values are at or above the cutoff. */
  function CountAtLeast(s: seq<real>, tau: real): (n: nat)
    ensures n <= |s|
  {
    if |s| == 0 then 0
    else (if s[0] >= tau then 1 else 0) + CountAtLeast(s[1..], tau)
  }

  lemma {:induction false} CountAtLeastNone(s: seq<real>, tau: real)
    requires forall j :: 0 <= j < |s| ==> s[j] < tau
    ensures CountAtLeast(s, tau) == 0
  {
    if |s| > 0 {
      CountAtLeastNone(s[1..], tau);
    }
  }

  /** For singular values sorted in descending order, the first index
      below the cutoff is the number of values at or above it. */
  lemma {:induction false} FirstBelowCounts(s: seq<real>, tau: real)
    requires Descending(s)
    ensures FirstBelow(s, tau).Some? ==> FirstBelow(s, tau).value == CountAtLeast(s, tau)
    ensures FirstBelow(s, tau).None? ==> CountAtLeast(s, tau) == |s|
  {
    if |s| > 0 {
      if s[0] < tau {
        CountAtLeastNone(s, tau);
      } else {
        FirstBelowCounts(s[1..], tau);
      }
    }
  }

  /** So the threshold rank of a descending spectrum is the count of
      singular values at or above `tau`, minus one. */
  lemma {:induction false} ThresholdRankIsCount(s: seq<real>, tau: real)
    requires Descending(s)
    ensures ThresholdRank(s, tau).Ok? ==> ThresholdRank(s, tau).value == CountAtLeast(s, tau) - 1
    ensures ThresholdRank(s, tau).Err? <==> CountAtLeast(s, tau) == |s|
  {
    FirstBelowCounts(s, tau);
  }

  // ---------------------------------------------------------------------
  // AIC and BIC

  /** `m = n_features*p + 1. - 0.5*p*(p-1.)`: free parameters of a rank-`p`
      factor model on `d` features, as the script evaluates it. */
  function ParamCount(d: int, p: int): real {
    (d * p) as real + 1.0 - 0.5 * ((p * (p - 1)) as real)
  }

  /** The parameter count is a whole number for every integer rank, since
      `p·(p-1)` is even. */
  lemma ParamCountWhole(d: int, p: int)
    ensures (p * (p - 1)) % 2 == 0
    ensures ParamCount(d, p) == (d * p + 1 - p * (p - 1) / 2) as real
  {
    var h := Half(p);
    assert p * (p - 1) / 2 == h by {
      DivUnique(p * (p - 1), 2, h, 0);
    }
    assert 0.5 * ((p * (p - 1)) as real) == h as real;
  }

  /** `p·(p-1) == 2·h` for a whole `h`. */
  function Half(p: int): (h: int)
    ensures p * (p - 1) == 2 * h
  {
    var q := p / 2;
    if p % 2 == 0 then
      assert p == 2 * q;
      assert p * (p - 1) == 2 * (q * (p - 1));
      q * (p - 1)
    else
      assert p == 2 * q + 1;
      assert p - 1 == 2 * q;
      assert p * (p - 1) == 2 * (p * q);
      p * q
  }

  /** Adding a rank adds `d - p` parameters, so below `d` every step up in
      rank strictly increases the count. */
  lemma {:induction false} ParamCountIncreasing(d: int, p: int, q: int)
    requires p <= q <= d
    ensures p < q ==> ParamCount(d, p) < ParamCount(d, q)
    decreases q - p
  {
    if p < q {
      assert ParamCount(d, q) - ParamCount(d, q - 1) == (d - q + 1) as real by {
        assert q * (q - 1) - (q - 1) * (q - 2) == 2 * (q - 1);
      }
      ParamCountIncreasing(d, p, q - 1);
    }
  }

  /** `aic = -2.*ll_all + m*2.`, entry `k` for rank `k + 1`. */
  function Aic(ll: seq<real>, d: int): (aic: seq<real>)
    ensures |aic| == |ll|
  {
    seq(|ll|, k requires 0 <= k < |ll| => -2.0 * ll[k] + ParamCount(d, k + 1) * 2.0)
  }

  /** `bic = -2.*ll_all + m*np.log(n_samples)`, with `log(n_samples)`
      given as `logN`. */
  function Bic(ll: seq<real>, d: int, logN: real): (bic: seq<real>)
    ensures |bic| == |ll|
  {
    seq(|ll|, k requires 0 <= k < |ll| => -2.0 * ll[k] + ParamCount(d, k + 1) * logN)
  }

  /** `np.argmin(curve) + 1`: the rank with the lowest criterion, the
      lowest such rank on ties. */
  function InfoRank(curve: seq<real>): (p: int)
    requires |curve| > 0
    ensures 1 <= p <= |curve|
    ensures forall j :: 0 <= j < |curve| ==> curve[p - 1] <= curve[j]
    ensures forall j :: 0 <= j < p - 1 ==> curve[p - 1] < curve[j]
  {
    FirstArgMin(curve) + 1
  }

  /** BIC penalises each parameter by `log n`, AIC by 2. Once `log n >= 2`
      (at least 8 samples) and the curve covers ranks up to `d` at most,
      the BIC rank never exceeds the AIC rank. */
  lemma BicRankAtMostAicRank(ll: seq<real>, d: int, logN: real)
    requires 0 < |ll| <= d && logN >= 2.0
    ensures InfoRank(Bic(ll, d, logN)) <= InfoRank(Aic(ll, d))
  {
    var weights := Weights(d, |ll|);
    BicIsAicPlusPenalty(ll, d, logN);
    WeightsIncreasing(d, |ll|);
    ScaledKeepsOrder(weights, logN - 2.0);
    PenaltyMovesMinimumDown(Aic(ll, d), Bic(ll, d, logN), Scaled(weights, logN - 2.0));
  }

  /** `m` for the ranks `p = 1..n`. */
  function Weights(d: int, n: nat): (w: seq<real>)
    ensures |w| == n
  {
    seq(n, k requires 0 <= k < n => ParamCount(d, k + 1))
  }

  /** Every weight times the same price. */
  function Scaled(w: seq<real>, price: real): (pen: seq<real>)
    ensures |pen| == |w|
  {
    seq(|w|, k requires 0 <= k < |w| => w[k] * price)
  }

  /** Up to rank `d` the parameter count strictly increases with the rank. */
  lemma {:induction false} WeightsIncreasing(d: int, n: nat)
    requires n <= d
    ensures forall i, j :: 0 <= i < j < n ==> Weights(d, n)[i] < Weights(d, n)[j]
  {
    forall i, j | 0 <= i < j < n ensures Weights(d, n)[i] < Weights(d, n)[j] {
      ParamCountIncreasing(d, i + 1, j + 1);
    }
  }

  /** A non-negative price keeps increasing weights in order. */
  lemma {:induction false} ScaledKeepsOrder(w: seq<real>, price: real)
    requires price >= 0.0
    requires forall i, j :: 0 <= i < j < |w| ==> w[i] < w[j]
    ensures forall i, j :: 0 <= i < j < |w| ==> Scaled(w, price)[i] <= Scaled(w, price)[j]
  {
    forall i, j | 0 <= i < j < |w| ensures Scaled(w, price)[i] <= Scaled(w, price)[j] {
      PenaltyKeepsOrder(w[i], w[j], price);
    }
  }

  /** Adding to a curve a penalty that never decreases along it can only
      move its first minimum to an earlier index. */
  lemma PenaltyMovesMinimumDown(f: seq<real>, g: seq<real>, extra: seq<real>)
    requires 0 < |f| == |g| == |extra|
    requires forall k :: 0 <= k < |f| ==> g[k] == f[k] + extra[k]
    requires forall i, j :: 0 <= i < j < |extra| ==> extra[i] <= extra[j]
    ensures FirstArgMin(g) <= FirstArgMin(f)
  {
    var a, b := FirstArgMin(f), FirstArgMin(g);
    if a < b {
      assert false;
    }
  }

  /** A larger parameter count costs at least as much under a non-negative
      per-parameter price. */
  lemma PenaltyKeepsOrder(ma: real, mb: real, price: real)
    requires ma < mb && price >= 0.0
    ensures ma * price <= mb * price
  {
    MulNonNeg(mb - ma, price);
    assert (mb - ma) * price == mb * price - ma * price;
  }

  /** `bic = aic + m·(log n - 2)`, entry by entry. */
  lemma BicIsAicPlusPenalty(ll: seq<real>, d: int, logN: real)
    ensures forall k :: 0 <= k < |ll| ==>
      Bic(ll, d, logN)[k] == Aic(ll, d)[k] + Scaled(Weights(d, |ll|), logN - 2.0)[k]
  {
  }

  lemma MulNonNeg(x: real, y: real)
    requires y >= 0.0
    ensures x >= 0.0 ==> x * y >= 0.0
  {
  }

  // ---------------------------------------------------------------------
  // Cross-validated rank

  /** Sum of column `j` over the rows of a table. */
  function ColumnSum(t: seq<seq<real>>, j: nat): real
    requires forall i :: 0 <= i < |t| ==> j < |t[i]|
  {
    if |t| == 0 then 0.0 else ColumnSum(t[..|t| - 1], j) + t[|t| - 1][j]
  }

  /** `np.mean(LLs_xval, axis=0)`: the per-rank average over folds. */
  function ColumnMeans(t: seq<seq<real>>, w: nat): (mean: seq<real>)
    requires |t| > 0 && forall i :: 0 <= i < |t| ==> |t[i]| == w
    ensures |mean| == w
  {
    seq(w, j requires 0 <= j < w => ColumnSum(t, j) / (|t| as real))
  }

  lemma {:induction false} ColumnSumWithin(t: seq<seq<real>>, j: nat, lo: real, hi: real)
    requires forall i :: 0 <= i < |t| ==> j < |t[i]| && lo <= t[i][j] <= hi
    ensures (|t| as real) * lo <= ColumnSum(t, j) <= (|t| as real) * hi
  {
    if |t| > 0 {
      ColumnSumWithin(t[..|t| - 1], j, lo, hi);
      assert (|t| as real) * lo == ((|t| - 1) as real) * lo + lo;
      assert (|t| as real) * hi == ((|t| - 1) as real) * hi + hi;
    }
  }

  /** Each averaged entry lies between the smallest and the largest fold
      value for that rank. */
  lemma MeanWithin(t: seq<seq<real>>, w: nat, j: nat, lo: real, hi: real)
    requires |t| > 0 && forall i :: 0 <= i < |t| ==> |t[i]| == w
    requires j < w && forall i :: 0 <= i < |t| ==> lo <= t[i][j] <= hi
    ensures lo <= ColumnMeans(t, w)[j] <= hi
  {
    var n := |t| as real;
    var sum := ColumnSum(t, j);
    ColumnSumWithin(t, j, lo, hi);
    assert ColumnMeans(t, w)[j] == sum / n;
    assert (sum / n) * n == sum;
    assert n * (sum / n - lo) == sum - n * lo;
    assert n * (hi - sum / n) == n * hi - sum;
  }

  /** When every fold produced the same curve, averaging gives that curve
      back. */
  lemma MeanOfEqualRows(t: seq<seq<real>>, w: nat, row: seq<real>)
    requires |t| > 0 && |row| == w && forall i :: 0 <= i < |t| ==> t[i] == row
    ensures ColumnMeans(t, w) == row
  {
    forall j | 0 <= j < w ensures ColumnMeans(t, w)[j] == row[j] {
      MeanWithin(t, w, j, row[j], row[j]);
    }
  }

  /** `ps[np.argmax(curve)]`: the grid rank whose score is highest. */
  function CvRank(curve: seq<real>, ps: seq<int>): (p: int)
    requires 0 < |curve| == |ps|
    ensures p in ps
  {
    ps[FirstArgMax(curve)]
  }

  /** On the strictly increasing rank grid the chosen rank scores the
      maximum, and every other rank scoring the maximum is larger: ties go
      to the lowest rank. */
  lemma {:induction false} CvRankLowestBest(curve: seq<real>, ps: seq<int>)
    requires 0 < |curve| == |ps| && StrictlyIncreasing(ps)
    ensures forall j :: 0 <= j < |ps| && ps[j] == CvRank(curve, ps) ==>
      forall i :: 0 <= i < |curve| ==> curve[i] <= curve[j]
    ensures forall j :: 0 <= j < |ps| && ps[j] < CvRank(curve, ps) ==>
      exists i :: 0 <= i < |curve| && curve[j] < curve[i]
  {
    var k := FirstArgMax(curve);
    forall j | 0 <= j < |ps| && ps[j] == CvRank(curve, ps)
      ensures forall i :: 0 <= i < |curve| ==> curve[i] <= curve[j]
    {
      IncreasingAt(ps, j, k);
      IncreasingAt(ps, k, j);
    }
    forall j | 0 <= j < |ps| && ps[j] < CvRank(curve, ps)
      ensures exists i :: 0 <= i < |curve| && curve[j] < curve[i]
    {
      IncreasingAt(ps, k, j);
      assert curve[j] < curve[k];
    }
  }

  lemma IncreasingAt(ps: seq<int>, i: nat, j: nat)
    requires StrictlyIncreasing(ps) && i < |ps| && j < |ps|
    ensures i < j ==> ps[i] < ps[j]
    ensures i <= j ==> ps[i] <= ps[j]
  {
  }
}
