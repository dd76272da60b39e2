/** Alternating least squares for the CP model: the main loop with its incrementally maintained Gram
    matrices and its cheap residual. */
module CpAls {
  import opened Arithmetic
  import opened Vectors
  import opened Mttkrp
  import opened KtensorAlgebra
  import opened FactorMatrix
  import opened LeastSquares
  import opened UniformBlocking
  import opened ColumnMax
  import opened Sums
  import opened AlsRuns

  class CpAls {
    const problem: AlsProblem
    const full: bool

    var u: seq<Mat>
    var lambda: Vec
    var gamma: seq<Mat>
    var upsilon: Mat
    var un: Mat
    var fit: real

    ghost predicate Valid()
      reads this
    {
      && problem.Valid() && FactorsFit(u, problem.dims, problem.nc)
      && |lambda| == problem.nc && |gamma| == |problem.dims|
    }

    /** Every gamma but that of mode n belongs to its current factor. */
    ghost predicate GammaReady(n: nat)
      requires Valid()
      reads this
    {
      GramsKept(gamma, u, n, problem.nc, full)
    }

    ghost function Current(): Iterate
      reads this
    {
      Iterate(u, lambda)
    }

    /** Weights one, and the Gram matrices of every mode but the first. */
    constructor (problem: AlsProblem, u: seq<Mat>, gamma: seq<Mat>, full: bool)
      requires problem.Valid() && FactorsFit(u, problem.dims, problem.nc) && |gamma| == |problem.dims|
      ensures Valid() && GammaReady(0) && Current() == Iterate(u, Ones(problem.nc)) && fit == 0.0
      ensures this.problem == problem && this.full == full
    {
      this.problem, this.full, this.u := problem, full, u;
      this.lambda := Ones(problem.nc);
      this.gamma := gamma;
      this.upsilon := [];
      this.un := [];
      this.fit := 0.0;
      new;
      var n := 1;
      while n < |problem.dims|
        invariant 1 <= n <= |problem.dims| && Valid() && Current() == Iterate(u, Ones(problem.nc)) && fit == 0.0
        invariant forall k: nat :: 0 < k < n ==> KeptEqual(this.gamma[k], GramOf(u[k]), problem.nc, full)
      {
        this.gamma := this.gamma[n := GramInto(this.gamma[n], u[n], problem.nc, full)];
        n := n + 1;
      }
    }

    /** Hadamard product of the Gram matrices of the other modes. */
    method MakeUpsilon(n: nat) returns (y: Mat)
      requires Valid() && n < |u| && GammaReady(n)
      ensures KeptEqual(y, PartialProduct(u, n, |u|), problem.nc, full)
    {
      y := ProductOfOthers(gamma, u, n, problem.nc, full);
    }

    /** Solve for factor n; the penalty is put on the diagonal for the solve and taken off again. The
        solver sees the normal equations of the tensor and nothing else. */
    method SolveMode(n: nat, b: Mat) returns (r: Result<Mat>)
      requires Valid() && n < |u| && GammaReady(n)
      requires b == MttkrpMat(problem.x, u, Ones(problem.nc), n, problem.dims[n], problem.nc)
      modifies `upsilon
      ensures r == problem.SolveFor(u, n)
      ensures r.Ok? ==> Solves(r.value, problem.x, u, n, problem.dims, problem.nc, problem.penalty)
      ensures KeptEqual(upsilon, PartialProduct(u, n, |u|), problem.nc, full)
    {
      upsilon := MakeUpsilon(n);
      ghost var y := upsilon;
      if problem.penalty != 0.0 {
        upsilon := DiagonalShift(upsilon, problem.nc, problem.penalty);
      }
      ShiftZero(y, problem.nc);
      SystemIsDetermined(y, u, n, problem.nc, problem.penalty, full);
      r := problem.numerics.solve(MirroredMat(upsilon, problem.nc, full), b, problem.nc);
      if problem.penalty != 0.0 {
        upsilon := DiagonalShift(upsilon, problem.nc, -problem.penalty);
      }
      ShiftBack(y, problem.nc, problem.penalty);
      if r.Ok? {
        SystemIsNormalEquations(r.value, y, b, problem.x, u, n, problem.dims, problem.nc, problem.penalty, full);
      }
    }

    /** One update: MTTKRP, solve, split off the column norms, refresh the Gram matrix of mode n. It fails
        exactly when the solver does or when a column norm of its solution is zero. */
    method UpdateMode(n: nat, first: bool) returns (s: Status)
      requires Valid() && n < |u| && GammaReady(n)
      modifies `u, `lambda, `gamma, `upsilon, `un
      ensures Valid() && s == problem.Ends(old(u), n, first)
      ensures s.Success? ==> GammaReady(|u|) && problem.ModeUpdate(old(Current()), Current(), n, first)
      ensures s.Success? ==> ColScaled(u[n], lambda) == problem.SolveFor(old(u), n).value
      ensures s.Success? && n == |u| - 1 ==> SweepEnds()
      ensures !s.Success? ==> Current() == old(Current())
      ensures s.ZeroColumn? ==> first
    {
      hide MttkrpMat, ColNorms, GramInto, KeptEqual, SumOfSquares, Residual, Square, ColScaled, MttkrpAt;
      hide GramsKept, PartialProduct, AlsProblem.SolveFor;
      var b := MttkrpMat(problem.x, u, Ones(problem.nc), n, problem.dims[n], problem.nc);
      if n == |problem.dims| - 1 {
        un := b;
      }
      var solved := SolveMode(n, b);
      if solved.Error? {
        return SolveFailed;
      }
      var a := solved.value;
      var norms := ColNorms(a, problem.nc, first, problem.numerics.sqrt);
      ClampedNormsNotZero(a, problem.nc, problem.numerics.sqrt);
      var scaled := ColScaleInverse(a, norms);
      if scaled.Error? {
        return ZeroColumn;
      }
      ghost var before := u;
      u := u[n := scaled.value];
      lambda := norms;
      gamma := gamma[n := GramInto(gamma[n], u[n], problem.nc, full)];
      GramsAfterUpdate(old(gamma), before, n, scaled.value, problem.nc, full);
      ScaleRoundTrip(a, norms);
      SameOtherGrams(before, scaled.value, n, upsilon, problem.nc, full);
      SameOtherMttkrp(problem.x, before, scaled.value, Ones(problem.nc), n, problem.dims[n], problem.nc);
      s := Success;
    }

    /** What the last mode update leaves for the norms: its MTTKRP, and the product of the other Grams. */
    ghost predicate SweepEnds()
      requires Valid()
      reads this
    {
      && un == MttkrpMat(problem.x, u, Ones(problem.nc), |u| - 1, problem.dims[|u| - 1], problem.nc)
      && KeptEqual(upsilon, PartialProduct(u, |u| - 1, |u|), problem.nc, full)
    }

    /** The norm of the model, its inner product with the data, the residual and the fit, all exact. */
    method FinishSweep() returns (pNorm: real, xpip: real, resNorm: Result<real>)
      requires Valid() && GammaReady(|u|) && SweepEnds()
      modifies `upsilon, `fit
      ensures Valid() && GammaReady(|u|)
      ensures pNorm >= 0.0 && Square(pNorm) == problem.ModelNormSq(Current())
      ensures xpip == problem.DataTimesModel(Current())
      ensures resNorm.Ok? && resNorm.value >= 0.0 && Square(resNorm.value) == problem.DistanceOf(Current())
      ensures fit == FitOf(resNorm.value, problem.xNorm) && problem.IsFit(fit, problem.DistanceOf(Current()))
      ensures fit <= 1.0
      ensures (1.0 - fit) * (1.0 - fit) * SumOfSquares(problem.x) == problem.DistanceOf(Current())
    {
      hide Model, Residual, EntrySum, InnerProd, AlsProblem.IsFit, FitOf, Numerics.Valid, SumOfSquares, KeptEqual;
      var last := |problem.dims| - 1;
      InnerFromLastMode(problem.x, problem.dims, u, lambda, un, problem.nc);
      xpip := InnerProd(un, u[last], lambda, problem.nc);
      upsilon, pNorm, resNorm, fit := problem.Finish(Current(), lambda, gamma[last], upsilon, xpip, full);
    }

    /** Fit of the initial guess, bounded at zero. */
    method InitialFit() returns (ghost resNorm: real)
      requires Valid()
      modifies `fit
      ensures Valid() && resNorm >= 0.0 && Square(resNorm) == problem.DistanceOf(Current())
      ensures fit == if FitOf(resNorm, problem.xNorm) < 0.0 then 0.0 else FitOf(resNorm, problem.xNorm)
      ensures 0.0 <= fit <= 1.0
      ensures fit > 0.0 ==>
                (1.0 - fit) * (1.0 - fit) * SumOfSquares(problem.x) == problem.DistanceOf(Current())
      ensures fit == 0.0 <==> problem.DistanceOf(Current()) >= SumOfSquares(problem.x)
    {
      hide Square, Model, Residual, FitOf;
      InnerSquare(problem.dims, Model(u, lambda, problem.nc));
      var uNorm := problem.numerics.sqrt(problem.ModelNormSq(Iterate(u, lambda)));
      var r := problem.ResidualNorm(Current(), uNorm, problem.DataTimesModel(Iterate(u, lambda)));
      resNorm := r.value;
      problem.FitAtMostOne(r.value);
      fit := FitOf(r.value, problem.xNorm);
      assert problem.IsFit(fit, problem.DistanceOf(Current()));
      problem.FitMeans(fit, problem.DistanceOf(Current()));
      problem.FitBelowZero(fit, problem.DistanceOf(Current()));
      if fit < 0.0 {
        fit := 0.0;
      }
    }

    /** Sweep k of a run: one update of every mode, each a step from the model before it, until one fails. */
    method Sweep(ghost k: nat, first: bool, ghost before: seq<Iterate>) returns (s: Status, ghost hist: seq<Iterate>)
      requires Valid() && GammaReady(0) && first == (k == 0)
      requires problem.IsRun(before) && |before| == k * |problem.dims| + 1 && before[|before| - 1] == Current()
      requires problem.BySolver(before)
      modifies `u, `lambda, `gamma, `upsilon, `un
      ensures Valid() && problem.IsRun(hist) && |before| <= |hist| && hist[..|before|] == before
      ensures problem.BySolver(hist) && hist[|hist| - 1] == Current()
      ensures s.Success? ==> GammaReady(|u|) && SweepEnds() && |hist| == (k + 1) * |problem.dims| + 1
      ensures !s.Success? ==> |hist| <= (k + 1) * |problem.dims| && problem.NextEnds(hist, s)
      ensures s.ZeroColumn? ==> first
    {
      hide AlsProblem.IsRun, AlsProblem.ModeUpdate, KeptEqual, AlsProblem.BySolver, AlsProblem.Ends, ColScaled;
      hide AlsProblem.SolveFor;
      Distribute(k, 1, |problem.dims|);
      hist := before;
      var n := 0;
      while n < |problem.dims|
        invariant 0 <= n <= |problem.dims| && Valid() && GammaReady(if n == 0 then 0 else |u|)
        invariant problem.IsRun(hist) && |hist| == k * |problem.dims| + n + 1 && hist[..|before|] == before
        invariant problem.BySolver(hist) && hist[|hist| - 1] == Current()
        invariant n == |problem.dims| ==> SweepEnds()
      {
        problem.StepIndex(k, n);
        ghost var before_u := u;
        s := UpdateMode(n, first);
        if !s.Success? {
          return;
        }
        problem.EndsOk(before_u, n, first);
        problem.RunExtended(hist, Current(), k, n);
        problem.SolverExtended(hist, Current(), k, n);
        hist := hist + [Current()];
        n := n + 1;
      }
      s := Success;
    }

    /** One sweep and its fit. */
    method SweepAndFit(first: bool, ghost before: seq<Iterate>, ghost fits: seq<real>)
      returns (s: Status, ghost hist: seq<Iterate>)
      requires Valid() && GammaReady(0) && first == (|fits| == 0)
      requires |before| == |fits| * |problem.dims| + 1 && problem.Traced(before, fits)
      requires problem.BySolver(before) && before[|before| - 1] == Current()
      modifies this
      ensures Valid() && problem.Traced(hist, fits) && |before| <= |hist| && hist[0] == before[0]
      ensures problem.BySolver(hist) && hist[|hist| - 1] == Current()
      ensures s.Success? ==> GammaReady(0) && problem.Traced(hist, fits + [fit])
      ensures s.Success? ==> |hist| == (|fits| + 1) * |problem.dims| + 1
      ensures !s.Success? ==> |hist| <= (|fits| + 1) * |problem.dims| && fit == old(fit)
      ensures !s.Success? ==> problem.NextEnds(hist, s)
      ensures s.ZeroColumn? ==> first
    {
      hide Square, Residual, FitOf, AlsProblem.IsRun, KeptEqual, FactorsFit, AlsProblem.BySolver, AlsProblem.NextEnds;
      s, hist := Sweep(|fits|, first, before);
      assert hist[0] == hist[..|before|][0];
      if s.Success? {
        var pNorm, xpip, r := FinishSweep();
      }
      problem.FitAppended(before, hist, fits, fit);
    }

    /** The main loop. Its updates are what the solver returns, and it stops early only by the stopping
        rule, or because the next update fails: the solver does, or a column norm is zero. */
    method Run(maxIters: nat, tol: real, timeUp: nat -> bool, perf: bool)
      returns (s: Status, sweeps: nat, ghost hist: seq<Iterate>, ghost fits: seq<real>)
      requires Valid() && GammaReady(0) && fit == 0.0
      modifies this
      ensures Valid() && problem.LoopEnds(s, sweeps, hist, fits, maxIters, tol, timeUp)
      ensures hist[0] == old(Current()) && hist[|hist| - 1] == Current()
      ensures |fits| > 0 ==> fits[|fits| - 1] == fit
      ensures problem.BySolver(hist) && (!s.Success? ==> problem.NextEnds(hist, s))
      ensures problem.Improves(sweeps, hist, fits, tol)
      ensures forall k: nat :: k < |fits| ==> problem.FitIsRight(hist, fits, k)
    {
      assert problem.Valid();
      hide *;
      s, sweeps, hist, fits := MainLoop(maxIters, tol, timeUp, perf);
      problem.FitsAreRight(s, sweeps, hist, fits, maxIters, tol, timeUp);
      problem.LoopImproves(s, sweeps, hist, fits, maxIters, tol, timeUp);
    }

    method MainLoop(maxIters: nat, tol: real, timeUp: nat -> bool, perf: bool)
      returns (s: Status, sweeps: nat, ghost hist: seq<Iterate>, ghost fits: seq<real>)
      requires Valid() && GammaReady(0) && fit == 0.0
      modifies this
      ensures Valid() && problem.LoopEnds(s, sweeps, hist, fits, maxIters, tol, timeUp)
      ensures hist[0] == old(Current()) && hist[|hist| - 1] == Current()
      ensures |fits| > 0 ==> fits[|fits| - 1] == fit
      ensures problem.BySolver(hist) && (!s.Success? ==> problem.NextEnds(hist, s))
    {
      hide Residual, Square, FitOf, KeptEqual, FactorsFit, SumOfSquares, GramsKept, Abs, AlsProblem.IsFit;
      hide AlsProblem.Traced, AlsProblem.RanOn, AlsProblem.BySolver, AlsProblem.NextEnds, Numerics.Valid;
      hist, fits, sweeps := [Current()], [], 0;
      problem.NothingRun(Current());
      if perf {
        ghost var resNorm := InitialFit();
      }
      problem.RanOnNone(tol, timeUp);
      var numIters := 0;
      while numIters < maxIters
        invariant 0 <= numIters <= maxIters && sweeps == numIters == |fits|
        invariant Valid() && GammaReady(0) && problem.Traced(hist, fits)
        invariant 0 < |hist| == numIters * |problem.dims| + 1 && problem.BySolver(hist)
        invariant hist[0] == old(Current()) && hist[|hist| - 1] == Current()
        invariant |fits| > 0 ==> fits[|fits| - 1] == fit
        invariant problem.RanOn(fits, numIters, tol, timeUp)
        invariant numIters > 0 ==> problem.RanOn(fits, numIters - 1, tol, timeUp)
      {
        var fitold := fit;
        sweeps := numIters + 1;
        s, hist := SweepAndFit(numIters == 0, hist, fits);
        if !s.Success? {
          return;
        }
        problem.RanOnStep(fits, fit, tol, timeUp);
        fits := fits + [fit];
        var fitchange := Abs(fitold - fit);
        if (numIters > 0 && fitchange < tol) || timeUp(numIters) {
          return;
        }
        numIters := numIters + 1;
      }
      s := Success;
    }
  }
}
