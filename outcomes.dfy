/** Error values of the rank-selection driver and the trace of a run that
    stops at the first raised error. */
module Outcomes {

  /** The exceptions the driver can raise, one constructor per raise site. */
  datatype Error =
    | NotMultipleOfFolds(nSamples: int, nFolds: int)  // the explicit ValueError
    | SampleExceedsWindow(nSamples: int, window: int) // ValueError of `np.random.choice(..., replace=False)`
    | NoValueBelowCutoff                              // IndexError of `np.where(s < tau)[0][0]`
    | CurveShapeMismatch                              // numpy cannot broadcast the LL curve against m
    | EmptyCurve                                      // argmin of an empty AIC/BIC curve

  datatype Option<T> = None | Some(value: T)

  datatype Result<T> = Ok(value: T) | Err(error: Error)

  /** What a run leaves behind: the results produced, in order, before the
      first error, and that error if there was one. */
  datatype Trace<T> = Trace(done: seq<T>, failure: Option<Error>)

  /** Runs the steps `rs` in order and stops at the first failing one. */
  function Stop<T>(rs: seq<Result<T>>): (t: Trace<T>)
  {
    if |rs| == 0 then Trace([], None)
    else match rs[0]
      case Err(e) => Trace([], Some(e))
      case Ok(v) =>
        var t := Stop(rs[1..]);
        Trace([v] + t.done, t.failure)
  }

  /** The trace is pinned down completely: `done` is the longest prefix of
      successes, and `failure` is the error of the step right after it. */
  lemma {:induction false} StopSpec<T>(rs: seq<Result<T>>)
    ensures |Stop(rs).done| <= |rs|
    ensures forall i :: 0 <= i < |Stop(rs).done| ==> rs[i] == Ok(Stop(rs).done[i])
    ensures Stop(rs).failure.None? <==> |Stop(rs).done| == |rs|
    ensures Stop(rs).failure.Some? ==> rs[|Stop(rs).done|] == Err(Stop(rs).failure.value)
  {
    if |rs| > 0 {
      StopSpec(rs[1..]);
    }
  }

  /** When the first `k` steps succeed and step `k` fails (or there is none),
      the trace is exactly those `k` results and that failure. */
  lemma StopAt<T>(rs: seq<Result<T>>, k: nat, done: seq<T>)
    requires k <= |rs| && |done| == k
    requires forall i :: 0 <= i < k ==> rs[i] == Ok(done[i])
    requires k < |rs| ==> rs[k].Err?
    ensures Stop(rs) == Trace(done, if k < |rs| then Some(rs[k].error) else None)
  {
    var t := Stop(rs);
    StopSpec(rs);
    assert |t.done| == k;
    assert t.done == done;
  }

  /** Running two batches of steps one after the other: the second batch
      only runs when the first finished without error. */
  lemma {:induction false} StopAppend<T>(xs: seq<Result<T>>, ys: seq<Result<T>>)
    ensures Stop(xs + ys) ==
      if Stop(xs).failure.Some? then Stop(xs)
      else Trace(Stop(xs).done + Stop(ys).done, Stop(ys).failure)
  {
    if |xs| > 0 {
      assert (xs + ys)[1..] == xs[1..] + ys;
      StopAppend(xs[1..], ys);
      match xs[0]
      case Err(e) =>
      case Ok(v) =>
        assert [v] + Stop(xs[1..]).done + Stop(ys).done == [v] + (Stop(xs[1..]).done + Stop(ys).done);
    } else {
      assert xs + ys == ys;
    }
  }
}
