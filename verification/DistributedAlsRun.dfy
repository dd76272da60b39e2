/** The whole ALS loop on a grid: sweeps, norms and fits from reduced sums, and the stopping rule. The models
    of the ranks together are a run of the serial loop. */
module DistributedAlsRun {
  import opened Arithmetic
  import opened Vectors
  import opened ProcessGrid
  import opened Sums
  import opened Mttkrp
  import opened Records
  import opened ColumnMax
  import opened KtensorAlgebra
  import opened FactorMatrix
  import opened LeastSquares
  import opened RowOwnership
  import opened RowSplit
  import opened TwoSidedUpdate
  import opened SparseDistribution
  import opened DistributedMttkrp
  import opened DistributedRun
  import opened AlsRuns
  import opened DistributedAls

  // ----- the start

  /** Pieces cut from a matrix make it up again. */
  lemma WholeOfOwned(g: Grid, m: nat, a: Mat, nc: nat, parts: seq<Mat>)
    requires g.Valid() && m < |g.procs| && IsMat(a, g.dims[m], nc) && |parts| == g.Size()
    requires forall t: nat :: t < |parts| ==> parts[t] == OwnedRows(g, m, a, t)
    ensures var sp := GridSplit(g, m); sp.Valid() && sp.Pieces(parts, nc) && sp.Whole(parts, nc) == a
  {
    var sp := GridSplit(g, m);
    GridSplitValid(g, m);
    forall t: nat | t < |parts| ensures IsMat(parts[t], sp.lens[t], nc) {
      RowsInMatrix(g, m, t);
    }
    hide RowOffset, RowCount, Grid.Valid, GridSplit, Split.Valid, Split.Whole;
    forall row: nat | row < sp.rows ensures sp.Whole(parts, nc)[row] == a[row] {
      var t := sp.OwnerOf(row);
      RowsInMatrix(g, m, t);
      sp.WholeRow(parts, nc, t, row - sp.offs[t]);
    }
  }

  /** Weights one, and reduced Gram matrices of every mode but the first. */
  method StartOnGrid(problem: AlsProblem, job: Job, factors: seq<seq<Mat>>, gamma: seq<Mat>, full: bool)
    returns (st: GridState)
    requires problem.Valid() && OnGrid(problem, job) && FactorsSpread(job, factors) && |gamma| == |problem.dims|
    ensures GridHolds(problem, job, st, 0, full) && st.lambda == Ones(job.nc)
  {
    var grams := gamma;
    var n := 1;
    while n < |problem.dims|
      invariant 1 <= n <= |problem.dims| == |grams|
      invariant forall k: nat :: 0 < k < n ==> KeptEqual(grams[k], GramOf(job.u[k]), job.nc, full)
    {
      var gram := GramOnAll(job, n, factors[n], grams[n], full);
      grams := grams[n := gram];
      n := n + 1;
    }
    st := GridState(factors, grams, Ones(job.nc), [], []);
  }

  method GramOnAll(job: Job, n: nat, parts: seq<Mat>, before: Mat, full: bool) returns (gram: Mat)
    requires job.Valid() && n < |job.g.dims| && ModeSpread(job, n, parts)
    ensures KeptEqual(gram, GramOf(job.u[n]), job.nc, full)
  {
    hide OwnedRows;
    WholeOfOwned(job.g, n, job.u[n], job.nc, parts);
    gram := GramOnGrid(GridSplit(job.g, n), parts, job.nc, before, full);
  }

  // ----- a sweep

  /** The update that would come next on the grid ends with s. */
  ghost predicate GridNextEnds(problem: AlsProblem, job: Job, hist: seq<Iterate>, s: Status)
    requires problem.Valid() && OnGrid(problem, job)
  {
    var i := |hist| - 1;
    i >= 0 && hist[i].u == job.u && s == GridEnds(problem, job, i % |problem.dims|, i < |problem.dims|)
  }

  /** Sweep k of the loop on the grid: a stretch of a serial run, until an update fails. */
  method SweepOnGrid(problem: AlsProblem, job: Job, st: GridState, ghost k: nat, first: bool, full: bool,
      locals: seq<seq<Entry>>, path: MapPath, ghost before: seq<Iterate>)
    returns (s: Status, after: GridState, next: Job, ghost hist: seq<Iterate>)
    requires problem.Valid() && OnGrid(problem, job) && NonzerosSpread(job, locals) && first == (k == 0)
    requires GridHolds(problem, job, st, 0, full) && problem.IsRun(before) && |before| == k * |problem.dims| + 1
    requires before[|before| - 1] == Iterate(job.u, st.lambda)
    ensures problem.IsRun(hist) && |before| <= |hist| && hist[..|before|] == before
    ensures OnGrid(problem, next) && next.g == job.g && NonzerosSpread(next, locals)
    ensures hist[|hist| - 1] == Iterate(next.u, after.lambda)
    ensures s.Success? ==> GridHolds(problem, next, after, |problem.dims|, full)
    ensures s.Success? ==> SweepEnded(problem, next, after, full)
    ensures s.Success? ==> |hist| == (k + 1) * |problem.dims| + 1
    ensures !s.Success? ==> |hist| <= (k + 1) * |problem.dims| && GridNextEnds(problem, next, hist, s)
    ensures s.ZeroColumn? ==> first
  {
    hide AlsProblem.IsRun, AlsProblem.ModeUpdate, NonzerosSpread, FactorsSpread, KeptEqual, GridEnds, SweepEnded;
    after, next, hist := st, job, before;
    Distribute(k, 1, |problem.dims|);
    var n := 0;
    while n < |problem.dims|
      invariant 0 <= n <= |problem.dims| && OnGrid(problem, next) && next.g == job.g
      invariant NonzerosSpread(next, locals)
      invariant GridHolds(problem, next, after, if n == 0 then 0 else |problem.dims|, full)
      invariant problem.IsRun(hist) && |hist| == k * |problem.dims| + n + 1 && hist[..|before|] == before
      invariant hist[|hist| - 1] == Iterate(next.u, after.lambda)
      invariant n == |problem.dims| ==> SweepEnded(problem, next, after, full)
    {
      problem.StepIndex(k, n);
      var updated;
      var moved;
      s, updated, moved := UpdateModeOnGrid(problem, next, after, n, first, full, locals, path);
      if !s.Success? {
        return;
      }
      problem.RunExtended(hist, Iterate(moved.u, updated.lambda), k, n);
      hist := hist + [Iterate(moved.u, updated.lambda)];
      after, next := updated, moved;
      n := n + 1;
    }
    s := Success;
  }

  // ----- the end of a sweep

  /** Weighted products of the rows that the ranks own. */
  function LocalInner(un: seq<Mat>, u: seq<Mat>, v: Vec, nc: nat): (nat, nat) -> real
  {
    (t: nat, k: nat) => if t < |un| && t < |u| then RowSums(nc, WeightedTerm(un[t], u[t], v))(k) else 0.0
  }

  lemma RowOfInner(un: Mat, u: Mat, un': Mat, u': Mat, v: Vec, nc: nat, k: nat, i: nat)
    requires k < |un| && k < |u| && i < |un'| && i < |u'| && un[k] == un'[i] && u[k] == u'[i]
    ensures RowSums(nc, WeightedTerm(un, u, v))(k) == RowSums(nc, WeightedTerm(un', u', v))(i)
  {
    var f, f' := Row(WeightedTerm(un, u, v), k), Row(WeightedTerm(un', u', v), i);
    forall r: nat | r < nc ensures f(r) == f'(r) {
      assert At(un, k, r) == At(un', i, r) && At(u, k, r) == At(u', i, r);
    }
    SumExt(nc, f, f');
  }

  /** Reduced over the ranks, the weighted inner product is that of the whole matrices. */
  lemma ReducedInner(g: Grid, m: nat, un: Mat, u: Mat, v: Vec, nc: nat, uns: seq<Mat>, us: seq<Mat>)
    requires g.Valid() && m < |g.procs| && IsMat(un, g.dims[m], nc) && IsMat(u, g.dims[m], nc)
    requires |uns| == |us| == g.Size()
    requires forall t: nat :: t < g.Size() ==> uns[t] == OwnedRows(g, m, un, t) && us[t] == OwnedRows(g, m, u, t)
    ensures Sum(g.Size(), GridSplit(g, m).PieceSums(LocalInner(uns, us, v, nc))) == InnerProd(un, u, v, nc)
  {
    var sp := GridSplit(g, m);
    GridSplitValid(g, m);
    var f, locals := RowSums(nc, WeightedTerm(un, u, v)), LocalInner(uns, us, v, nc);
    hide GridSplit, Split.Valid, Grid.Valid, OwnedRows, LocalInner, WeightedTerm, IsMat;
    forall t: nat, k: nat | t < |sp.lens| && k < sp.lens[t] ensures locals(t, k) == f(sp.offs[t] + k) {
      LocalInnerRow(g, m, un, u, v, nc, uns, us, t, k);
    }
    sp.ReducedSum(f, locals);
  }

  lemma LocalInnerRow(g: Grid, m: nat, un: Mat, u: Mat, v: Vec, nc: nat, uns: seq<Mat>, us: seq<Mat>, t: nat, k: nat)
    requires g.Valid() && m < |g.procs| && |un| == |u| == g.dims[m] && t < g.Size() == |uns| == |us|
    requires uns[t] == OwnedRows(g, m, un, t) && us[t] == OwnedRows(g, m, u, t) && k < GridSplit(g, m).lens[t]
    ensures LocalInner(uns, us, v, nc)(t, k)
         == RowSums(nc, WeightedTerm(un, u, v))(GridSplit(g, m).offs[t] + k)
  {
    RowsInMatrix(g, m, t);
    hide RowOffset, RowCount, Grid.Valid, WeightedTerm;
    RowOfInner(uns[t], us[t], un, u, v, nc, k, RowOffset(g, m, t) + k);
  }

  /** The fit after a sweep, from the reduced inner product and what every rank holds. */
  method FinishOnGrid(problem: AlsProblem, job: Job, st: GridState, full: bool) returns (fit: real)
    requires problem.Valid() && OnGrid(problem, job) && GridHolds(problem, job, st, |problem.dims|, full)
    requires SweepEnded(problem, job, st, full)
    ensures problem.IsFit(fit, problem.DistanceOf(Iterate(job.u, st.lambda)))
    ensures fit <= 1.0
    ensures (1.0 - fit) * (1.0 - fit) * SumOfSquares(problem.x) == problem.DistanceOf(Iterate(job.u, st.lambda))
  {
    var last := |problem.dims| - 1;
    var xpip := ReducedInnerProd(job, st);
    InnerOnGrid(problem, job, st, full);
    hide AlsProblem.IsFit, AlsProblem.DistanceOf, AlsProblem.DataTimesModel;
    var y, pNorm, resNorm;
    y, pNorm, resNorm, fit :=
      problem.Finish(Iterate(job.u, st.lambda), st.lambda, st.gamma[last], st.upsilon, xpip, full);
  }

  /** MPI_Allreduce of the ranks' weighted inner products. */
  function ReducedInnerProd(job: Job, st: GridState): real
    requires job.Valid() && |job.g.dims| > 0 && |st.factors| == |job.g.dims|
  {
    var last := |job.g.dims| - 1;
    Sum(job.g.Size(), GridSplit(job.g, last).PieceSums(LocalInner(st.un, st.factors[last], st.lambda, job.nc)))
  }

  lemma InnerOnGrid(problem: AlsProblem, job: Job, st: GridState, full: bool)
    requires problem.Valid() && OnGrid(problem, job) && GridHolds(problem, job, st, |problem.dims|, full)
    requires SweepEnded(problem, job, st, full)
    ensures ReducedInnerProd(job, st) == problem.DataTimesModel(Iterate(job.u, st.lambda))
  {
    var last := |problem.dims| - 1;
    var un := MttkrpMat(problem.x, job.u, Ones(job.nc), last, problem.dims[last], job.nc);
    assert ModeSpread(job, last, st.factors[last]);
    hide GridSplit, LocalInner, OwnedRows, InnerProd, EntrySum, MttkrpMat;
    ReducedInner(job.g, last, un, job.u[last], st.lambda, job.nc, st.un, st.factors[last]);
    InnerFromLastMode(problem.x, problem.dims, job.u, st.lambda, un, job.nc);
  }

  // ----- the main loop

  /** Between two sweeps: what the ranks hold together is the last model of a run with these fits. */
  ghost predicate BetweenSweeps(problem: AlsProblem, job: Job, st: GridState, full: bool, locals: seq<seq<Entry>>,
      hist: seq<Iterate>, fits: seq<real>)
    requires problem.Valid()
  {
    && OnGrid(problem, job) && NonzerosSpread(job, locals) && GridHolds(problem, job, st, 0, full)
    && problem.Traced(hist, fits) && |hist| == |fits| * |problem.dims| + 1
    && hist[|hist| - 1] == Iterate(job.u, st.lambda)
  }

  lemma BeforeSweeps(problem: AlsProblem, job: Job, st: GridState, full: bool, locals: seq<seq<Entry>>)
    requires problem.Valid() && OnGrid(problem, job) && NonzerosSpread(job, locals)
    requires GridHolds(problem, job, st, 0, full)
    ensures BetweenSweeps(problem, job, st, full, locals, [Iterate(job.u, st.lambda)], [])
  {
  }

  /** One sweep on the grid and its fit. */
  method SweepAndFitOnGrid(problem: AlsProblem, job: Job, st: GridState, full: bool, locals: seq<seq<Entry>>,
      path: MapPath, first: bool, fit: real, ghost before: seq<Iterate>, ghost fits: seq<real>)
    returns (s: Status, after: GridState, next: Job, newFit: real, ghost hist: seq<Iterate>)
    requires problem.Valid() && BetweenSweeps(problem, job, st, full, locals, before, fits)
    requires first == (|fits| == 0)
    ensures OnGrid(problem, next) && next.g == job.g && |hist| > 0 && hist[0] == before[0]
    ensures hist[|hist| - 1] == Iterate(next.u, after.lambda)
    ensures s.Success? ==> BetweenSweeps(problem, next, after, full, locals, hist, fits + [newFit])
    ensures !s.Success? ==> problem.Traced(hist, fits) && |hist| <= (|fits| + 1) * |problem.dims|
    ensures !s.Success? ==> GridNextEnds(problem, next, hist, s)
    ensures s.ZeroColumn? ==> first
  {
    hide AlsProblem.IsRun, AlsProblem.IsFit, AlsProblem.DistanceOf, NonzerosSpread, FactorsSpread, KeptEqual;
    hide GridNextEnds, SweepEnded, FitOf;
    newFit := fit;
    s, after, next, hist := SweepOnGrid(problem, job, st, |fits|, first, full, locals, path, before);
    assert hist[0] == hist[..|before|][0];
    if s.Success? {
      newFit := FinishOnGrid(problem, next, after, full);
    }
    problem.FitAppended(before, hist, fits, newFit);
  }

  /** The main loop on the grid: a run of the serial loop, with the same stopping rule. It stops early only
      by that rule, or because the next update fails: some rank's solver does, or a reduced column norm is
      zero. */
  method RunOnGrid(problem: AlsProblem, job: Job, st: GridState, full: bool, locals: seq<seq<Entry>>, path: MapPath,
      maxIters: nat, tol: real, timeUp: nat -> bool)
    returns (s: Status, after: GridState, next: Job, sweeps: nat, ghost hist: seq<Iterate>, ghost fits: seq<real>)
    requires problem.Valid() && OnGrid(problem, job) && NonzerosSpread(job, locals)
    requires GridHolds(problem, job, st, 0, full)
    ensures OnGrid(problem, next) && next.g == job.g
    ensures problem.LoopEnds(s, sweeps, hist, fits, maxIters, tol, timeUp)
    ensures hist[0] == Iterate(job.u, st.lambda) && hist[|hist| - 1] == Iterate(next.u, after.lambda)
    ensures s.Success? ==> GridHolds(problem, next, after, 0, full)
    ensures !s.Success? ==> GridNextEnds(problem, next, hist, s)
    ensures problem.Improves(sweeps, hist, fits, tol)
    ensures forall k: nat :: k < |fits| ==> problem.FitIsRight(hist, fits, k)
  {
    hide AlsProblem.LoopEnds, AlsProblem.Improves, GridHolds, GridNextEnds, NonzerosSpread, AlsProblem.FitIsRight;
    s, after, next, sweeps, hist, fits := LoopOnGrid(problem, job, st, full, locals, path, maxIters, tol, timeUp);
    problem.FitsAreRight(s, sweeps, hist, fits, maxIters, tol, timeUp);
    problem.LoopImproves(s, sweeps, hist, fits, maxIters, tol, timeUp);
  }

  method LoopOnGrid(problem: AlsProblem, job: Job, st: GridState, full: bool, locals: seq<seq<Entry>>, path: MapPath,
      maxIters: nat, tol: real, timeUp: nat -> bool)
    returns (s: Status, after: GridState, next: Job, sweeps: nat, ghost hist: seq<Iterate>, ghost fits: seq<real>)
    requires problem.Valid() && OnGrid(problem, job) && NonzerosSpread(job, locals)
    requires GridHolds(problem, job, st, 0, full)
    ensures OnGrid(problem, next) && next.g == job.g
    ensures problem.LoopEnds(s, sweeps, hist, fits, maxIters, tol, timeUp)
    ensures hist[0] == Iterate(job.u, st.lambda) && hist[|hist| - 1] == Iterate(next.u, after.lambda)
    ensures s.Success? ==> GridHolds(problem, next, after, 0, full)
    ensures !s.Success? ==> GridNextEnds(problem, next, hist, s)
  {
    hide AlsProblem.Traced, AlsProblem.RanOn, Abs, GridHolds, GridNextEnds, NonzerosSpread, AlsProblem.Valid;
    hide OnGrid;
    after, next, hist, fits, sweeps := st, job, [Iterate(job.u, st.lambda)], [], 0;
    BeforeSweeps(problem, job, st, full, locals);
    problem.RanOnNone(tol, timeUp);
    var fit := 0.0;
    var numIters := 0;
    while numIters < maxIters
      invariant 0 <= numIters <= maxIters && sweeps == numIters == |fits|
      invariant BetweenSweeps(problem, next, after, full, locals, hist, fits)
      invariant next.g == job.g && hist[0] == Iterate(job.u, st.lambda)
      invariant |fits| > 0 ==> fits[|fits| - 1] == fit
      invariant problem.RanOn(fits, numIters, tol, timeUp)
      invariant numIters > 0 ==> problem.RanOn(fits, numIters - 1, tol, timeUp)
    {
      var fitold := fit;
      sweeps := numIters + 1;
      s, after, next, fit, hist :=
        SweepAndFitOnGrid(problem, next, after, full, locals, path, numIters == 0, fit, hist, fits);
      if !s.Success? {
        return;
      }
      problem.RanOnStep(fits, fit, tol, timeUp);
      fits := fits + [fit];
      var fitchange := Abs(fitold - fit);
      if (numIters > 0 && fitchange < tol) || timeUp(numIters) {
        return;
      }
      numIters := numIters + 1;
    }
    s := Success;
  }

  // ----- from rank 0 to the fitted model

  /** How a whole run from rank 0's tensor and initial guess ends. */
  datatype Fitted = Fitted(status: Status, held: GridState, model: Job, sweeps: nat)

  /** Nonzeros and initial factors are spread over the ranks, and the loop runs on the grid. It starts
      exactly when the nonzeros can be distributed. */
  method CpAlsOnGrid(problem: AlsProblem, job: Job, gamma: seq<Mat>, full: bool, path: MapPath, garbage: Record,
      maxIters: nat, tol: real, timeUp: nat -> bool)
    returns (r: Outcome<Fitted>, ghost hist: seq<Iterate>, ghost fits: seq<real>)
    requires problem.Valid() && OnGrid(problem, job) && |gamma| == |problem.dims|
    ensures r.Done? <==> Distributable(problem.x, problem.dims)
    ensures r.Done? ==> problem.LoopEnds(r.value.status, r.value.sweeps, hist, fits, maxIters, tol, timeUp)
    ensures r.Done? ==> problem.Improves(r.value.sweeps, hist, fits, tol) && hist[0] == Iterate(job.u, Ones(job.nc))
    ensures r.Done? ==> OnGrid(problem, r.value.model) && r.value.model.g == job.g
    ensures r.Done? ==> hist[|hist| - 1] == Iterate(r.value.model.u, r.value.held.lambda)
    ensures r.Done? && r.value.status.Success? ==> GridHolds(problem, r.value.model, r.value.held, 0, full)
    ensures r.Done? && !r.value.status.Success? ==> GridNextEnds(problem, r.value.model, hist, r.value.status)
    ensures r.Done? ==> forall k: nat :: k < |fits| ==> problem.FitIsRight(hist, fits, k)
  {
    hide AlsProblem.FitIsRight, AlsProblem.LoopEnds;
    hide GridHolds, FactorsSpread, NonzerosSpread, AlsProblem.Improves, GridNextEnds;
    hist, fits := [], [];
    var locals := SplitNonzeros(job, garbage);
    if locals.Failed? {
      r := Failed;
    } else if locals.Undefined? {
      r := Undefined;
    } else {
      var factors := SpreadFactors(job);
      var start := StartOnGrid(problem, job, factors, gamma, full);
      var s, after, next, sweeps;
      s, after, next, sweeps, hist, fits :=
        RunOnGrid(problem, job, start, full, locals.value, path, maxIters, tol, timeUp);
      r := Outcome.Done(Fitted(s, after, next, sweeps));
    }
  }
}
