/** The rank-selection driver: for every window and every sample size of the
    grid, draw the sample, split it into folds, and select a rank four ways
    (threshold, AIC, BIC, cross-validation). The numerical work it delegates
    to the PPCA code (the fit, its eigenvalues and log-likelihoods, the SVHT
    coefficient, `log`) and the random draw are given as oracles. */
module Driver {
  import opened Outcomes
  import opened Grids
  import opened Folds
  import opened Criteria

  /** What the script reads off `ppca_model(X[perm, :])`: the singular
      values `s`, the cutoff `tau` built from them, and `LLtrain`. */
  datatype FullFit = FullFit(svs: seq<real>, tau: real, llTrain: seq<real>)

  /** The computations the driver does not define.
      `draw(idx, n)`: `np.random.choice(np.arange(Twin), n, replace=False)`
      for window `idx`; `fit(perm)`: the full fit on the sampled rows;
      `score(train, test, p)`: `ppca_model(X[train]).logLikelihood(X[test], p)`;
      `logOf(n)`: `np.log(n)`. */
  datatype Oracles = Oracles(
    draw: (nat, nat) -> seq<int>,
    fit: seq<int> -> FullFit,
    score: (seq<int>, seq<int>, int) -> real,
    logOf: nat -> real)

  /** What `np.random.choice(np.arange(w), n, replace=False)` promises:
      `n` distinct offsets in `[0, w)`. */
  predicate DrawOk(offsets: seq<int>, n: nat, w: nat) {
    |offsets| == n && Distinct(offsets) &&
    forall k :: 0 <= k < |offsets| ==> 0 <= offsets[k] < w
  }

  /** The draw oracle behaves like `np.random.choice` whenever the sample
      fits in the window. */
  ghost predicate DrawsValid(c: Config, o: Oracles)
    requires c.winDiv > 0
  {
    forall idx: nat, n: nat :: n <= WindowLength(c) ==> DrawOk(o.draw(idx, n), n, WindowLength(c))
  }

  /** `offsets + Tstart`. */
  function Shift(offsets: seq<int>, start: int): (perm: seq<int>)
    ensures |perm| == |offsets|
    ensures forall k :: 0 <= k < |perm| ==> perm[k] - start == offsets[k]
  {
    seq(|offsets|, k requires 0 <= k < |offsets| => offsets[k] + start)
  }

  /** The drawn rows, moved to the window, are a sample of that window:
      distinct frames, all of them in `[Tstart, Tstart + Twin)`. */
  lemma {:induction false} DrawIsSample(c: Config, idx: nat, n: nat, offsets: seq<int>)
    requires c.winDiv > 0 && DrawOk(offsets, n, WindowLength(c))
    ensures IsSample(c, idx, n, Shift(offsets, WindowStart(c, idx)))
  {
    var perm := Shift(offsets, WindowStart(c, idx));
    forall i, j | 0 <= i < j < |perm| ensures perm[i] != perm[j] {
      assert offsets[i] != offsets[j];
    }
  }

  /** `perm`: the draw of window `idx`, moved to the window's frames. */
  function UnitPerm(c: Config, idx: nat, n: nat, o: Oracles): (perm: seq<int>)
    requires ValidConfig(c) && DrawsValid(c, o) && n <= WindowLength(c)
    ensures IsSample(c, idx, n, perm)
  {
    DrawIsSample(c, idx, n, o.draw(idx, n));
    Shift(o.draw(idx, n), WindowStart(c, idx))
  }

  function Min(a: int, b: int): (m: int)
    ensures m <= a && m <= b && (m == a || m == b)
  {
    if a <= b then a else b
  }

  /** Row `i` of `LLs_xval`: the held-out score of each grid rank for one
      train/test split. */
  function FoldScores(trainSet: seq<int>, testSet: seq<int>, ps: seq<int>, score: (seq<int>, seq<int>, int) -> real): (row: seq<real>)
    ensures |row| == |ps|
  {
    seq(|ps|, j requires 0 <= j < |ps| => score(trainSet, testSet, ps[j]))
  }

  /** `LLs_xval`: row `i` holds, for every grid rank, the held-out score of
      fold `i` under a fit on the other folds. */
  function CvTable(folds: seq<seq<int>>, ps: seq<int>, score: (seq<int>, seq<int>, int) -> real): (t: seq<seq<real>>)
    ensures |t| == |folds|
    ensures forall i :: 0 <= i < |t| ==> |t[i]| == |ps|
  {
    seq(|folds|, i requires 0 <= i < |folds| => FoldScores(TrainSet(folds, i), folds[i], ps, score))
  }

  /** `err_xval`: the best grid rank of each fold. */
  function FoldBests(t: seq<seq<real>>, ps: seq<int>): (e: seq<int>)
    requires |ps| > 0 && forall i :: 0 <= i < |t| ==> |t[i]| == |ps|
    ensures |e| == |t|
    ensures forall i :: 0 <= i < |t| ==> e[i] in ps
  {
    seq(|t|, i requires 0 <= i < |t| => CvRank(t[i], ps))
  }

  /** Everything the script computes for one (window, sample size) pair:
      the pickled values and the three ranks kept only in arrays. */
  datatype Selection = Selection(
    window: nat,
    nSamples: nat,
    perm: seq<int>,
    svs: seq<real>,
    pThreshold: int,
    llAll: seq<real>,
    aic: seq<real>,
    bic: seq<real>,
    pAic: int,
    pBic: int,
    errXval: seq<int>,
    llXval: seq<real>,
    pXval: int)

  /** One pass of the inner loop body, lines 32-77 of the script, as a
      value: the selection, or the error that the first failing step
      raises. */
  function UnitSpec(c: Config, d: nat, idx: nat, n: nat, o: Oracles): (r: Result<Selection>)
    requires ValidConfig(c) && DrawsValid(c, o)
    ensures n % c.nFolds != 0 ==> r == Err(NotMultipleOfFolds(n, c.nFolds))
    ensures n % c.nFolds == 0 && n > WindowLength(c) ==> r == Err(SampleExceedsWindow(n, WindowLength(c)))
  {
    match FoldSizes(n, c.nFolds)
    case Err(e) => Err(e)
    case Ok(_) =>
      if n > WindowLength(c) then Err(SampleExceedsWindow(n, WindowLength(c)))
      else
        var perm := UnitPerm(c, idx, n, o);
        var folds := Partition(perm, c.nFolds);
        var full := o.fit(perm);
        match ThresholdRank(full.svs, full.tau)
        case Err(e) => Err(e)
        case Ok(pThreshold) =>
          var K := Min(d, n);
          if |full.llTrain| != K then Err(CurveShapeMismatch)
          else if K == 0 then Err(EmptyCurve)
          else
            var aic := Aic(full.llTrain, d);
            var bic := Bic(full.llTrain, d, o.logOf(n));
            var ps := RankGrid();
            var table := CvTable(folds, ps, o.score);
            var llXval := ColumnMeans(table, |ps|);
            Ok(Selection(idx, n, perm, full.svs, pThreshold, full.llTrain, aic, bic,
                         InfoRank(aic), InfoRank(bic), FoldBests(table, ps), llXval, CvRank(llXval, ps)))
  }

  /** A unit completes exactly when the sample size passes both checks, some
      singular value falls below the cutoff, and the training curve has one
      entry per rank `1..min(d, n)`, of which there is at least one. */
  lemma {:induction false} UnitSucceeds(c: Config, d: nat, idx: nat, n: nat, o: Oracles)
    requires ValidConfig(c) && DrawsValid(c, o)
    ensures UnitSpec(c, d, idx, n, o).Ok? <==>
      n % c.nFolds == 0 && n <= WindowLength(c) &&
      (exists j :: 0 <= j < |o.fit(UnitPerm(c, idx, n, o)).svs| &&
         o.fit(UnitPerm(c, idx, n, o)).svs[j] < o.fit(UnitPerm(c, idx, n, o)).tau) &&
      |o.fit(UnitPerm(c, idx, n, o)).llTrain| == Min(d, n) && Min(d, n) > 0
  {
    if n % c.nFolds == 0 && n <= WindowLength(c) {
      var full := o.fit(UnitPerm(c, idx, n, o));
      var th := ThresholdRank(full.svs, full.tau);
      if th.Ok? {
        assert full.svs[th.value + 1] < full.tau;
      }
    }
  }

  /** What a completed unit holds: a sample of its window, a threshold rank
      of at least -1 whose next singular value is below the cutoff, AIC and
      BIC ranks in `1..min(d, n)`, and a cross-validated rank and per-fold
      ranks taken from the rank grid. */
  lemma UnitSelectionRanges(c: Config, d: nat, idx: nat, n: nat, o: Oracles)
    requires ValidConfig(c) && DrawsValid(c, o) && UnitSpec(c, d, idx, n, o).Ok?
    ensures var s := UnitSpec(c, d, idx, n, o).value;
      s.window == idx && s.nSamples == n && IsSample(c, idx, n, s.perm) &&
      -1 <= s.pThreshold && s.pThreshold + 1 < |s.svs| &&
      s.svs[s.pThreshold + 1] < o.fit(s.perm).tau &&
      |s.aic| == |s.bic| == |s.llAll| == Min(d, n) &&
      1 <= s.pAic <= Min(d, n) && 1 <= s.pBic <= Min(d, n) &&
      |s.errXval| == c.nFolds && (forall i :: 0 <= i < |s.errXval| ==> s.errXval[i] in RankGrid()) &&
      |s.llXval| == |RankGrid()| && s.pXval in RankGrid()
  {
    var s := UnitSpec(c, d, idx, n, o).value;
    assert s.perm == UnitPerm(c, idx, n, o);
  }

  /** The cross-validated rank of a completed unit scores the highest mean
      held-out log-likelihood, and every lower grid rank scores strictly
      less. */
  lemma UnitXvalBest(c: Config, d: nat, idx: nat, n: nat, o: Oracles)
    requires ValidConfig(c) && DrawsValid(c, o) && UnitSpec(c, d, idx, n, o).Ok?
    ensures var s := UnitSpec(c, d, idx, n, o).value;
      |s.llXval| == |RankGrid()| &&
      (forall j :: 0 <= j < |s.llXval| && RankGrid()[j] == s.pXval ==>
        forall i :: 0 <= i < |s.llXval| ==> s.llXval[i] <= s.llXval[j]) &&
      (forall j :: 0 <= j < |s.llXval| && RankGrid()[j] < s.pXval ==>
        exists i :: 0 <= i < |s.llXval| && s.llXval[j] < s.llXval[i])
  {
    var s := UnitSpec(c, d, idx, n, o).value;
    RankGridIncreasing();
    CvRankLowestBest(s.llXval, RankGrid());
  }

  /** Once `log n >= 2` the BIC rank of a completed unit is at most its AIC
      rank. */
  lemma UnitBicAtMostAic(c: Config, d: nat, idx: nat, n: nat, o: Oracles)
    requires ValidConfig(c) && DrawsValid(c, o) && UnitSpec(c, d, idx, n, o).Ok?
    requires o.logOf(n) >= 2.0
    ensures UnitSpec(c, d, idx, n, o).value.pBic <= UnitSpec(c, d, idx, n, o).value.pAic
  {
    var s := UnitSpec(c, d, idx, n, o).value;
    BicRankAtMostAicRank(s.llAll, d, o.logOf(n));
  }

  /** Every held-out split a completed unit scores: the test fold has
      `n / k` rows, the training set the `(k - 1)·(n / k)` others, the two
      share no row, and together they are the drawn sample. */
  lemma UnitSplitsSound(c: Config, d: nat, idx: nat, n: nat, o: Oracles, i: nat)
    requires ValidConfig(c) && DrawsValid(c, o) && UnitSpec(c, d, idx, n, o).Ok? && i < c.nFolds
    ensures var perm := UnitSpec(c, d, idx, n, o).value.perm;
      var folds := Partition(perm, c.nFolds);
      |folds[i]| == n / c.nFolds &&
      |TrainSet(folds, i)| == (c.nFolds - 1) * (n / c.nFolds) &&
      (forall x :: x in folds[i] ==> x !in TrainSet(folds, i)) &&
      multiset(TrainSet(folds, i)) + multiset(folds[i]) == multiset(perm)
  {
    var perm := UnitSpec(c, d, idx, n, o).value.perm;
    assert perm == UnitPerm(c, idx, n, o);
    TrainTestSizes(perm, c.nFolds, i);
    TrainTestDisjoint(perm, c.nFolds, i);
  }

  /** With the script's constants the two sample-size checks always pass:
      every unit reaches the draw. */
  lemma {:induction false} SourceUnitsPassChecks(d: nat, idx: nat, o: Oracles, n: nat)
    requires DrawsValid(Source, o) && n in SampleGrid(Source)
    ensures !UnitSpec(Source, d, idx, n, o).Err? || (
      !UnitSpec(Source, d, idx, n, o).error.NotMultipleOfFolds? &&
      !UnitSpec(Source, d, idx, n, o).error.SampleExceedsWindow?)
  {
    SourceSampleGrid();
  }

  // ---------------------------------------------------------------------
  // The loops of the script

  /** The contents of a two-dimensional array, row by row. */
  function Rows(table: array2<real>): (t: seq<seq<real>>)
    reads table
    ensures |t| == table.Length0
    ensures forall i :: 0 <= i < |t| ==> |t[i]| == table.Length1
  {
    seq(table.Length0, i requires 0 <= i < table.Length0 reads table =>
      seq(table.Length1, j requires 0 <= j < table.Length1 reads table => table[i, j]))
  }

  /** Lines 67-68: fill row `i` of `LLs_xval`, one grid rank at a time;
      the other rows are left as they were. */
  method FillRow(table: array2<real>, i: nat, trainSet: seq<int>, testSet: seq<int>, ps: seq<int>,
                 score: (seq<int>, seq<int>, int) -> real) returns (row: seq<real>)
    requires i < table.Length0 && table.Length1 == |ps|
    modifies table
    ensures row == FoldScores(trainSet, testSet, ps, score)
    ensures forall b :: 0 <= b < |ps| ==> table[i, b] == row[b]
    ensures forall a, b :: 0 <= a < table.Length0 && a != i && 0 <= b < |ps| ==> table[a, b] == old(table[a, b])
  {
    row := [];
    var j := 0;
    while j < |ps|
      invariant 0 <= j <= |ps| && |row| == j
      invariant forall b :: 0 <= b < j ==> row[b] == table[i, b] == score(trainSet, testSet, ps[b])
      invariant forall a, b :: 0 <= a < table.Length0 && a != i && 0 <= b < |ps| ==> table[a, b] == old(table[a, b])
    {
      table[i, j] := score(trainSet, testSet, ps[j]);
      row := row + [table[i, j]];
      j := j + 1;
    }
  }

  /** Lines 56-69: fill `LLs_xval` fold by fold, and after each row store
      the row's best grid rank in `err_xval`. */
  method CrossValidate(folds: seq<seq<int>>, ps: seq<int>, score: (seq<int>, seq<int>, int) -> real)
    returns (table: array2<real>, errXval: array<int>)
    requires |ps| > 0
    ensures fresh(table) && fresh(errXval)
    ensures Rows(table) == CvTable(folds, ps, score)
    ensures errXval[..] == FoldBests(CvTable(folds, ps, score), ps)
  {
    ghost var spec := CvTable(folds, ps, score);
    table := new real[|folds|, |ps|];
    errXval := new int[|folds|];
    var i := 0;
    while i < |folds|
      invariant 0 <= i <= |folds|
      invariant forall a, b :: 0 <= a < i && 0 <= b < |ps| ==> table[a, b] == spec[a][b]
      invariant forall a :: 0 <= a < i ==> errXval[a] == CvRank(spec[a], ps)
    {
      var testSet := folds[i];
      var trainSet := TrainSet(folds, i);
      var row := FillRow(table, i, trainSet, testSet, ps, score);
      errXval[i] := ps[FirstArgMax(row)];
      i := i + 1;
    }
    forall a | 0 <= a < |folds| ensures Rows(table)[a] == spec[a] {
      assert forall b :: 0 <= b < |ps| ==> Rows(table)[a][b] == spec[a][b];
    }
  }

  /** Lines 32-77 for one sample size: the checks, the draw, the fits and
      the four selections, in the script's order. */
  method SelectUnit(c: Config, d: nat, idx: nat, n: nat, o: Oracles) returns (r: Result<Selection>)
    requires ValidConfig(c) && DrawsValid(c, o)
    ensures r == UnitSpec(c, d, idx, n, o)
  {
    var sizes := FoldSizes(n, c.nFolds);
    if sizes.Err? {
      return Err(sizes.error);
    }
    if n > WindowLength(c) {
      return Err(SampleExceedsWindow(n, WindowLength(c)));
    }
    var perm := UnitPerm(c, idx, n, o);
    var folds := Partition(perm, c.nFolds);
    var full := o.fit(perm);
    var threshold := ThresholdRank(full.svs, full.tau);
    if threshold.Err? {
      return Err(threshold.error);
    }
    var pThreshold := threshold.value;
    var K := Min(d, n);
    if |full.llTrain| != K {
      return Err(CurveShapeMismatch);
    }
    if K == 0 {
      return Err(EmptyCurve);
    }
    var aic := Aic(full.llTrain, d);
    var bic := Bic(full.llTrain, d, o.logOf(n));
    var pBic := InfoRank(bic);
    var pAic := InfoRank(aic);
    var ps := RankGrid();
    var table, errXval := CrossValidate(folds, ps, o.score);
    var llXval := ColumnMeans(Rows(table), |ps|);
    var pXval := CvRank(llXval, ps);
    r := Ok(Selection(idx, n, perm, full.svs, pThreshold, full.llTrain, aic, bic,
                      pAic, pBic, errXval[..], llXval, pXval));
  }

  /** The units of window `idx`, one per sample size of the grid. */
  function WindowUnits(c: Config, d: nat, idx: nat, o: Oracles): (us: seq<Result<Selection>>)
    requires ValidConfig(c) && DrawsValid(c, o)
    ensures |us| == |SampleGrid(c)|
  {
    seq(|SampleGrid(c)|, i requires 0 <= i < |SampleGrid(c)| => UnitSpec(c, d, idx, SampleGrid(c)[i], o))
  }

  /** The four per-window rank arrays of the script. */
  datatype RankKind = Threshold | Xval | BicRank | AicRank

  function RankOf(s: Selection, kind: RankKind): int {
    match kind
    case Threshold => s.pThreshold
    case Xval => s.pXval
    case BicRank => s.pBic
    case AicRank => s.pAic
  }

  /** One kind of rank of each completed unit, in order. */
  function Ranks(done: seq<Selection>, kind: RankKind): (rs: seq<int>)
    ensures |rs| == |done|
    ensures forall a :: 0 <= a < |done| ==> rs[a] == RankOf(done[a], kind)
  {
    seq(|done|, a requires 0 <= a < |done| => RankOf(done[a], kind))
  }

  /** `m` zeros, as `np.zeros(m)` starts. */
  function Zeros(m: nat): (z: seq<int>)
    ensures |z| == m && forall a :: 0 <= a < m ==> z[a] == 0
  {
    seq(m, _ => 0)
  }

  /** The array holds `vals` at its front and its initial zeros after. */
  predicate Recorded(arr: array<int>, vals: seq<int>)
    reads arr
  {
    |vals| <= arr.Length && arr[..] == vals + Zeros(arr.Length - |vals|)
  }

  /** `p_x[i_samples] = value`, the store that follows the next unit. */
  method Record(arr: array<int>, vals: seq<int>, v: int)
    requires Recorded(arr, vals) && |vals| < arr.Length
    modifies arr
    ensures Recorded(arr, vals + [v])
  {
    arr[|vals|] := v;
    assert arr[..] == (vals + [v]) + Zeros(arr.Length - |vals| - 1);
  }

  /** `np.zeros((m,))`. */
  method NewZeros(m: nat) returns (arr: array<int>)
    ensures fresh(arr) && arr.Length == m && Recorded(arr, [])
  {
    arr := new int[m](_ => 0);
    assert arr[..] == [] + Zeros(m);
  }

  /** Lines 46, 53, 54 and 72: store the four ranks of a completed unit. */
  method RecordUnit(pThreshold: array<int>, pXval: array<int>, pBic: array<int>, pAic: array<int>,
                    done: seq<Selection>, s: Selection)
    requires pThreshold != pXval && pThreshold != pBic && pThreshold != pAic
    requires pXval != pBic && pXval != pAic && pBic != pAic
    requires |done| < pThreshold.Length
    requires Recorded(pThreshold, Ranks(done, Threshold)) && Recorded(pXval, Ranks(done, Xval))
    requires Recorded(pBic, Ranks(done, BicRank)) && Recorded(pAic, Ranks(done, AicRank))
    requires pThreshold.Length == pXval.Length == pBic.Length == pAic.Length
    modifies pThreshold, pXval, pBic, pAic
    ensures Recorded(pThreshold, Ranks(done + [s], Threshold)) && Recorded(pXval, Ranks(done + [s], Xval))
    ensures Recorded(pBic, Ranks(done + [s], BicRank)) && Recorded(pAic, Ranks(done + [s], AicRank))
  {
    RanksAppend(done, s, Threshold);
    RanksAppend(done, s, Xval);
    RanksAppend(done, s, BicRank);
    RanksAppend(done, s, AicRank);
    Record(pThreshold, Ranks(done, Threshold), s.pThreshold);
    Record(pBic, Ranks(done, BicRank), s.pBic);
    Record(pAic, Ranks(done, AicRank), s.pAic);
    Record(pXval, Ranks(done, Xval), s.pXval);
  }

  lemma RanksAppend(done: seq<Selection>, s: Selection, kind: RankKind)
    ensures Ranks(done + [s], kind) == Ranks(done, kind) + [RankOf(s, kind)]
  {
    assert forall a :: 0 <= a < |done| ==> (done + [s])[a] == done[a];
  }

  /** One unit followed by the stores of its four ranks. */
  method SelectAndRecord(c: Config, d: nat, idx: nat, n: nat, o: Oracles,
                         pThreshold: array<int>, pXval: array<int>, pBic: array<int>, pAic: array<int>,
                         done: seq<Selection>) returns (r: Result<Selection>)
    requires ValidConfig(c) && DrawsValid(c, o)
    requires pThreshold != pXval && pThreshold != pBic && pThreshold != pAic
    requires pXval != pBic && pXval != pAic && pBic != pAic
    requires |done| < pThreshold.Length
    requires Recorded(pThreshold, Ranks(done, Threshold)) && Recorded(pXval, Ranks(done, Xval))
    requires Recorded(pBic, Ranks(done, BicRank)) && Recorded(pAic, Ranks(done, AicRank))
    requires pThreshold.Length == pXval.Length == pBic.Length == pAic.Length
    modifies pThreshold, pXval, pBic, pAic
    ensures r == UnitSpec(c, d, idx, n, o)
    ensures r.Ok? ==> Recorded(pThreshold, Ranks(done + [r.value], Threshold)) && Recorded(pXval, Ranks(done + [r.value], Xval))
    ensures r.Ok? ==> Recorded(pBic, Ranks(done + [r.value], BicRank)) && Recorded(pAic, Ranks(done + [r.value], AicRank))
    ensures r.Err? ==> Recorded(pThreshold, Ranks(done, Threshold)) && Recorded(pXval, Ranks(done, Xval))
    ensures r.Err? ==> Recorded(pBic, Ranks(done, BicRank)) && Recorded(pAic, Ranks(done, AicRank))
  {
    r := SelectUnit(c, d, idx, n, o);
    if r.Ok? {
      RecordUnit(pThreshold, pXval, pBic, pAic, done, r.value);
    }
  }

  /** Lines 21-77 for one window: run the units in grid order, storing the
      ranks of each completed unit in `p_threshold`, `p_xval`, `p_bic` and
      `p_aic`, and stop at the first error. Entries of units that did not
      complete keep their initial 0. */
  method RunWindow(c: Config, d: nat, idx: nat, o: Oracles)
    returns (trace: Trace<Selection>, pThreshold: array<int>, pXval: array<int>, pBic: array<int>, pAic: array<int>)
    requires ValidConfig(c) && DrawsValid(c, o)
    ensures fresh(pThreshold) && fresh(pXval) && fresh(pBic) && fresh(pAic)
    ensures trace == Stop(WindowUnits(c, d, idx, o))
    ensures pThreshold.Length == pXval.Length == pBic.Length == pAic.Length == |SampleGrid(c)|
    ensures Recorded(pThreshold, Ranks(trace.done, Threshold))
    ensures Recorded(pXval, Ranks(trace.done, Xval))
    ensures Recorded(pBic, Ranks(trace.done, BicRank))
    ensures Recorded(pAic, Ranks(trace.done, AicRank))
  {
    var samples := SampleGrid(c);
    ghost var units := WindowUnits(c, d, idx, o);
    pThreshold := NewZeros(|samples|);
    pXval := NewZeros(|samples|);
    pBic := NewZeros(|samples|);
    pAic := NewZeros(|samples|);
    var done: seq<Selection> := [];
    var i := 0;
    while i < |samples|
      invariant 0 <= i <= |samples| && |done| == i
      invariant forall a :: 0 <= a < i ==> units[a] == Ok(done[a])
      invariant Recorded(pThreshold, Ranks(done, Threshold))
      invariant Recorded(pXval, Ranks(done, Xval))
      invariant Recorded(pBic, Ranks(done, BicRank))
      invariant Recorded(pAic, Ranks(done, AicRank))
    {
      var r := SelectAndRecord(c, d, idx, samples[i], o, pThreshold, pXval, pBic, pAic, done);
      if r.Err? {
        StopAt(units, i, done);
        trace := Trace(done, Some(r.error));
        return;
      }
      done := done + [r.value];
      i := i + 1;
    }
    StopAt(units, i, done);
    trace := Trace(done, None);
  }

  /** The units of windows `0..w-1`, in the order the script runs them. */
  function RunUnits(c: Config, d: nat, o: Oracles, w: nat): seq<Result<Selection>>
    requires ValidConfig(c) && DrawsValid(c, o)
  {
    if w == 0 then [] else RunUnits(c, d, o, w - 1) + WindowUnits(c, d, w - 1, o)
  }

  /** Once a window raises, later windows change nothing: the trace of the
      whole run is the trace up to that error. */
  lemma {:induction false} StopStays(c: Config, d: nat, o: Oracles, w: nat, v: nat)
    requires ValidConfig(c) && DrawsValid(c, o) && w <= v
    requires Stop(RunUnits(c, d, o, w)).failure.Some?
    ensures Stop(RunUnits(c, d, o, v)) == Stop(RunUnits(c, d, o, w))
    decreases v - w
  {
    if w < v {
      StopStays(c, d, o, w, v - 1);
      StopAppend(RunUnits(c, d, o, v - 1), WindowUnits(c, d, v - 1, o));
    }
  }

  /** Running window `w` after windows `0..w-1` completed without error. */
  lemma NextWindow(c: Config, d: nat, o: Oracles, w: nat, done: seq<Selection>)
    requires ValidConfig(c) && DrawsValid(c, o)
    requires Stop(RunUnits(c, d, o, w)) == Trace(done, None)
    ensures Stop(RunUnits(c, d, o, w + 1)) ==
      Trace(done + Stop(WindowUnits(c, d, w, o)).done, Stop(WindowUnits(c, d, w, o)).failure)
  {
    StopAppend(RunUnits(c, d, o, w), WindowUnits(c, d, w, o));
  }

  /** Lines 20-81: the windows in order. The run produces the selections of
      every unit up to the first error, and that error. */
  method Run(c: Config, d: nat, o: Oracles) returns (trace: Trace<Selection>)
    requires ValidConfig(c) && DrawsValid(c, o)
    ensures trace == Stop(RunUnits(c, d, o, c.winDiv))
  {
    var done: seq<Selection> := [];
    var idx := 0;
    while idx < c.winDiv
      invariant 0 <= idx <= c.winDiv
      invariant Stop(RunUnits(c, d, o, idx)) == Trace(done, None)
    {
      var t, _, _, _, _ := RunWindow(c, d, idx, o);
      NextWindow(c, d, o, idx, done);
      if t.failure.Some? {
        StopStays(c, d, o, idx + 1, c.winDiv);
        return Trace(done + t.done, t.failure);
      }
      done := done + t.done;
      idx := idx + 1;
    }
    trace := Trace(done, None);
  }
}
