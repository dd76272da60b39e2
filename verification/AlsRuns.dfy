/** What a run of alternating least squares is: mode updates, sweeps, fits and the stopping rule, and what
    every run keeps. */
module AlsRuns {
  import opened Layout
  import opened Vectors
  import opened Sums
  import opened Mttkrp
  import opened KtensorAlgebra
  import opened FactorMatrix
  import opened LeastSquares
  import opened Arithmetic
  import opened UniformBlocking
  import opened ColumnMax

  /** The symmetric matrix that the solver sees: all of it, or the mirrored upper triangle. */
  function Mirrored(y: Mat, full: bool): (nat, nat) -> real
  {
    (r: nat, q: nat) => if full || r <= q then At(y, r, q) else At(y, q, r)
  }

  function MirroredMat(y: Mat, nc: nat, full: bool): (m: Mat)
    ensures IsMat(m, nc, nc)
  {
    Tabulate(nc, nc, Mirrored(y, full))
  }

  function Square(a: real): real
  {
    a * a
  }

  /** Square root and linear solver with their contracts over exact reals. */
  datatype Numerics = Numerics(sqrt: real -> real, sqrtEps: real, solve: (Mat, Mat, nat) -> Result<Mat>) {

    ghost predicate Valid()
    {
      && sqrtEps > 0.0
      && (forall a: real :: a >= 0.0 ==> sqrt(a) >= 0.0 && Square(sqrt(a)) == a)
      && (forall s: Mat, b: Mat, nc: nat :: solve(s, b, nc).Ok? ==> SolvesSystem(solve(s, b, nc).value, s, b, nc))
    }
  }

  /** a s = b. */
  ghost predicate SolvesSystem(a: Mat, s: Mat, b: Mat, nc: nat)
  {
    && IsMat(a, |b|, nc)
    && forall i: nat, q: nat :: i < |b| && q < nc ==> At(MatMul(a, Entries(s), nc), i, q) == At(b, i, q)
  }

  // ----- column norms

  function ColSquares(a: Mat, r: nat): nat -> real
  {
    (i: nat) => At(a, i, r) * At(a, i, r)
  }

  function ColNormTwo(a: Mat, r: nat, sqrt: real -> real): real
  {
    sqrt(Sum(|a|, ColSquares(a, r)))
  }

  function AtLeast(v: real, least: real): real
  {
    if v < least then least else v
  }

  /** Column norms: Euclidean on the first sweep, largest entry but at least one on the others. */
  function ColNorms(a: Mat, nc: nat, first: bool, sqrt: real -> real): (v: Vec)
    ensures |v| == nc
  {
    seq(nc, (r: nat) => if first then ColNormTwo(a, r, sqrt) else AtLeast(ColMax(a, r, |a|), 1.0))
  }

  /** Division by the column norms; an error when one is zero. */
  method ColScaleInverse(a: Mat, v: Vec) returns (r: Result<Mat>)
    ensures r.Ok? <==> forall j :: 0 <= j < |v| ==> v[j] != 0.0
    ensures r.Ok? ==> r.value == ColScaled(a, Inverse(v))
    ensures r.Ok? ==> |r.value| == |a| && forall i: nat, k: nat :: i < |a| && k < |v| ==>
              At(r.value, i, k) * v[k] == At(a, i, k)
  {
    var j := 0;
    while j < |v|
      invariant 0 <= j <= |v| && forall k :: 0 <= k < j ==> v[k] != 0.0
    {
      if v[j] == 0.0 {
        return Error;
      }
      j := j + 1;
    }
    r := Ok(ColScaled(a, Inverse(v)));
    forall i: nat, k: nat | i < |a| && k < |v| ensures At(r.value, i, k) * v[k] == At(a, i, k) {
      ScaleBack(At(a, i, k), v[k]);
    }
  }

  /** Written out: Euclidean norms on the first sweep, and on the others the largest entry up to its sign,
      but at least one. */
  lemma NormsArePlain(a: Mat, nc: nat, first: bool, numerics: Numerics, r: nat)
    requires numerics.Valid() && (forall i :: 0 <= i < |a| ==> |a[i]| == nc) && r < nc
    ensures var v := ColNorms(a, nc, first, numerics.sqrt)[r];
            if first then v >= 0.0 && v * v == Total(seq(|a|, i requires 0 <= i < |a| => a[i][r] * a[i][r]))
            else
              && v >= 1.0 && (forall i :: 0 <= i < |a| ==> -v <= a[i][r] <= v)
              && (v == 1.0 || exists i :: 0 <= i < |a| && (a[i][r] == v || a[i][r] == -v))
  {
    if first {
      var s := seq(|a|, i requires 0 <= i < |a| => a[i][r] * a[i][r]);
      SumIsTotal(|a|, ColSquares(a, r), s);
      SumNonNegative(|a|, ColSquares(a, r));
      assert numerics.sqrt(Sum(|a|, ColSquares(a, r))) >= 0.0;
    } else {
      ColMaxSpec(a, r, |a|);
      MaxIsPlain(ColMax(a, r, |a|), a, r, 0, |a|);
      assert forall i :: 0 <= i < |a| ==> At(a, i, r) == a[i][r];
    }
  }

  // ----- the residual from norms and an inner product

  /** A tiny or slightly negative square counts as zero, a clearly negative one is an error. */
  function ComputeResNorm(xNorm: real, mNorm: real, xDotm: real, numerics: Numerics): Result<real>
  {
    var d := Square(xNorm) + Square(mNorm) - 2.0 * xDotm;
    if d > 0.0 then Ok(numerics.sqrt(d))
    else if d > -(xDotm * numerics.sqrtEps * 1000.0) then Ok(0.0)
    else Error
  }

  /** Written out for any three numbers: the root of a positive square, zero for one that is at most a little
      negative, and an error otherwise. */
  lemma ResNormIsPlain(xNorm: real, mNorm: real, xDotm: real, numerics: Numerics)
    requires numerics.Valid()
    ensures var d, r := xNorm * xNorm + mNorm * mNorm - 2.0 * xDotm, ComputeResNorm(xNorm, mNorm, xDotm, numerics);
            && (d > 0.0 ==> r.Ok? && r.value >= 0.0 && r.value * r.value == d)
            && (d <= 0.0 && d > -(xDotm * numerics.sqrtEps * 1000.0) ==> r == Ok(0.0))
            && (d <= 0.0 && d <= -(xDotm * numerics.sqrtEps * 1000.0) ==> r == Error)
  {
    var d := xNorm * xNorm + mNorm * mNorm - 2.0 * xDotm;
    assert d > 0.0 ==> Square(numerics.sqrt(d)) == d;
  }

  lemma NonNegativeSquare(a: real, square: real)
    requires square == a * a
    ensures square >= 0.0
  {
  }

  /** Zero residual with non-zero data: the inner product is positive, so the threshold is negative. */
  lemma ZeroResidual(xx: real, mm: real, xDotm: real, eps: real)
    requires xx > 0.0 && mm >= 0.0 && eps > 0.0 && xx + mm - 2.0 * xDotm == 0.0
    ensures 0.0 > -(xDotm * eps * 1000.0)
  {
    assert xDotm > 0.0;
    PositiveProduct(xDotm, eps, xDotm * eps);
  }

  /** Over exact reals the residual of actual data and model is never in the error branch. */
  lemma ResNormIsExact(xNorm: real, mNorm: real, xDotm: real, numerics: Numerics, residual: real)
    requires numerics.Valid() && xNorm > 0.0 && residual >= 0.0
    requires Square(xNorm) + Square(mNorm) - 2.0 * xDotm == residual
    ensures ComputeResNorm(xNorm, mNorm, xDotm, numerics).Ok?
    ensures ComputeResNorm(xNorm, mNorm, xDotm, numerics).value >= 0.0
    ensures Square(ComputeResNorm(xNorm, mNorm, xDotm, numerics).value) == residual
  {
    if residual == 0.0 {
      PositiveProduct(xNorm, xNorm, Square(xNorm));
      NonNegativeSquare(mNorm, Square(mNorm));
      ZeroResidual(Square(xNorm), Square(mNorm), xDotm, numerics.sqrtEps);
    }
  }

  // ----- the Hadamard product of the other Gram matrices

  /** Entries that the chosen formulation keeps: all of them or the upper triangle. */
  ghost predicate Kept(r: nat, q: nat, nc: nat, full: bool)
  {
    r < nc && q < nc && (full || r <= q)
  }

  ghost predicate KeptEqual(y: Mat, f: (nat, nat) -> real, nc: nat, full: bool)
  {
    IsMat(y, nc, nc) && forall r: nat, q: nat :: Kept(r, q, nc, full) ==> At(y, r, q) == f(r, q)
  }

  function PartialProduct(u: seq<Mat>, n: nat, k: nat): (nat, nat) -> real
    requires k <= |u|
  {
    (r: nat, q: nat) => GramProd(u, u, n, r, q, k)
  }

  function GramOf(a: Mat): (nat, nat) -> real
  {
    (r: nat, q: nat) => Cross(a, a, r, q)
  }

  lemma TimesGram(y: Mat, g: Mat, u: seq<Mat>, n: nat, k: nat, nc: nat, full: bool)
    requires k < |u| && k != n && KeptEqual(y, PartialProduct(u, n, k), nc, full)
    requires KeptEqual(g, GramOf(u[k]), nc, full)
    ensures KeptEqual(Hadamard(y, g, nc), PartialProduct(u, n, k + 1), nc, full)
  {
    var next := k + 1;
    forall r: nat, q: nat | Kept(r, q, nc, full)
      ensures At(Hadamard(y, g, nc), r, q) == PartialProduct(u, n, next)(r, q)
    {
      assert At(y, r, q) == PartialProduct(u, n, k)(r, q) && At(g, r, q) == GramOf(u[k])(r, q);
    }
  }

  /** The normal equations in the form the solver receives are those of the tensor. */
  lemma SystemIsNormalEquations(a: Mat, y: Mat, b: Mat, x: seq<Entry>, u: seq<Mat>, n: nat, dims: Coord, nc: nat,
      penalty: real, full: bool)
    requires FactorsFit(u, dims, nc) && n < |u|
    requires KeptEqual(y, PartialProduct(u, n, |u|), nc, full)
    requires b == MttkrpMat(x, u, Ones(nc), n, dims[n], nc)
    requires SolvesSystem(a, MirroredMat(DiagonalShift(y, nc, penalty), nc, full), b, nc)
    ensures Solves(a, x, u, n, dims, nc, penalty)
  {
    var s := MirroredMat(DiagonalShift(y, nc, penalty), nc, full);
    var h := Regularised(Hada(u, Ones(nc), n), penalty);
    forall r: nat, q: nat | r < nc && q < nc ensures At(s, r, q) == h(r, q) {
      MirroredEntry(y, u, n, nc, penalty, full, r, q);
    }
    forall i: nat, q: nat | i < dims[n] && q < nc
      ensures At(MatMul(a, h, nc), i, q) == MttkrpAt(x, u, Ones(nc), n, i, q)
    {
      SumExt(nc, MulTerm(a, h, i, q), MulTerm(a, Entries(s), i, q));
      assert At(MatMul(a, Entries(s), nc), i, q) == At(b, i, q);
    }
  }

  function DiagonalShift(y: Mat, nc: nat, shift: real): (m: Mat)
    ensures IsMat(m, nc, nc)
  {
    Tabulate(nc, nc, (r: nat, q: nat) => At(y, r, q) + if r == q then shift else 0.0)
  }

  lemma MirroredEntry(y: Mat, u: seq<Mat>, n: nat, nc: nat, penalty: real, full: bool, r: nat, q: nat)
    requires KeptEqual(y, PartialProduct(u, n, |u|), nc, full) && r < nc && q < nc
    ensures At(MirroredMat(DiagonalShift(y, nc, penalty), nc, full), r, q)
         == Regularised(Hada(u, Ones(nc), n), penalty)(r, q)
  {
    GramProdSymmetric(u, n, r, q, |u|);
    assert Hada(u, Ones(nc), n)(r, q) == GramProd(u, u, n, r, q, |u|);
    if full || r <= q {
      assert Kept(r, q, nc, full);
    } else {
      assert Kept(q, r, nc, full);
    }
  }

  /** The matrix of the normal equations for mode n. */
  function SystemMat(u: seq<Mat>, n: nat, nc: nat, penalty: real): (m: Mat)
    requires n < |u|
    ensures IsMat(m, nc, nc)
  {
    Tabulate(nc, nc, Regularised(Hada(u, Ones(nc), n), penalty))
  }

  /** Written out: the product of the other Gram matrices, with the penalty on the diagonal. */
  lemma SystemIsPlain(u: seq<Mat>, n: nat, nc: nat, penalty: real, r: nat, q: nat)
    requires n < |u| && r < nc && q < nc
    ensures |SystemMat(u, n, nc, penalty)| == nc && |SystemMat(u, n, nc, penalty)[r]| == nc
    ensures SystemMat(u, n, nc, penalty)[r][q] == Hada(u, Ones(nc), n)(r, q) + if r == q then penalty else 0.0
  {
    hide Hada;
    assert At(SystemMat(u, n, nc, penalty), r, q) == SystemMat(u, n, nc, penalty)[r][q];
  }

  /** Full or symmetric, the solver is given that matrix. */
  lemma SystemIsDetermined(y: Mat, u: seq<Mat>, n: nat, nc: nat, penalty: real, full: bool)
    requires n < |u| && KeptEqual(y, PartialProduct(u, n, |u|), nc, full)
    ensures MirroredMat(DiagonalShift(y, nc, penalty), nc, full) == SystemMat(u, n, nc, penalty)
  {
    var s, m := MirroredMat(DiagonalShift(y, nc, penalty), nc, full), SystemMat(u, n, nc, penalty);
    forall r: nat, q: nat | r < nc && q < nc ensures At(s, r, q) == At(m, r, q) {
      MirroredEntry(y, u, n, nc, penalty, full, r, q);
    }
    SameEntries(s, m, nc, nc);
  }

  // ----- the relative fit

  /** The fit is one minus the residual norm over the data norm. */
  function FitOf(resNorm: real, xNorm: real): real
    requires xNorm > 0.0
  {
    1.0 - resNorm / xNorm
  }

  /** Written out: what is missing from a fit of one, times the norm of the data, is the residual norm. */
  lemma FitIsPlain(resNorm: real, xNorm: real)
    requires xNorm > 0.0
    ensures (1.0 - FitOf(resNorm, xNorm)) * xNorm == resNorm
  {
    var p := resNorm / xNorm;
    assert p * xNorm == resNorm;
  }

  lemma SquaredFit(f: real, r: real, xNorm: real, distance: real, squares: real)
    requires xNorm > 0.0 && r >= 0.0 && (1.0 - f) * xNorm == r && r * r == distance && xNorm * xNorm == squares
    ensures f <= 1.0 && (1.0 - f) * (1.0 - f) * squares == distance
  {
    var g := 1.0 - f;
    assert g < 0.0 ==> (-g) * xNorm > 0.0;
    assert g * g * (xNorm * xNorm) == (g * xNorm) * (g * xNorm);
  }

  lemma SquareMonotone(a: real, b: real)
    requires a > b >= 0.0
    ensures a * a > b * b
  {
    PositiveProduct(a - b, a + b, (a - b) * (a + b));
    assert a * a - b * b == (a - b) * (a + b);
  }

  lemma QuotientMonotone(a: real, b: real, d: real)
    requires d > 0.0 && a <= b
    ensures a / d <= b / d
  {
    var p, q := a / d, b / d;
    assert p * d == a && q * d == b;
    assert p > q ==> (p - q) * d > 0.0;
  }

  /** A smaller residual gives a larger fit. */
  lemma FitMonotone(a: real, b: real, xNorm: real)
    requires xNorm > 0.0 && a >= 0.0 && b >= 0.0 && Square(a) <= Square(b)
    ensures FitOf(a, xNorm) >= FitOf(b, xNorm)
  {
    if a > b {
      SquareMonotone(a, b);
    }
    QuotientMonotone(a, b, xNorm);
  }

  lemma FitInRange(resNorm: real, xNorm: real)
    requires xNorm > 0.0 && resNorm >= 0.0 && Square(resNorm) <= Square(xNorm)
    ensures 0.0 <= FitOf(resNorm, xNorm) <= 1.0
  {
    FitMonotone(resNorm, xNorm, xNorm);
    QuotientMonotone(0.0, resNorm, xNorm);
    assert 0.0 / xNorm == 0.0 && xNorm / xNorm == 1.0;
  }

  lemma ShiftZero(y: Mat, nc: nat)
    requires IsMat(y, nc, nc)
    ensures DiagonalShift(y, nc, 0.0) == y
  {
    SameEntries(DiagonalShift(y, nc, 0.0), y, nc, nc);
  }

  lemma ShiftBack(y: Mat, nc: nat, shift: real)
    requires IsMat(y, nc, nc)
    ensures DiagonalShift(DiagonalShift(y, nc, shift), nc, -shift) == y
  {
    SameEntries(DiagonalShift(DiagonalShift(y, nc, shift), nc, -shift), y, nc, nc);
  }

  lemma SameOtherGrams(u: seq<Mat>, a: Mat, n: nat, y: Mat, nc: nat, full: bool)
    requires n < |u| && KeptEqual(y, PartialProduct(u, n, |u|), nc, full)
    ensures KeptEqual(y, PartialProduct(u[n := a], n, |u|), nc, full)
  {
    forall r: nat, q: nat | Kept(r, q, nc, full) ensures At(y, r, q) == PartialProduct(u[n := a], n, |u|)(r, q) {
      GramProdReplace(u, a, a, n, r, q, |u|);
    }
  }

  lemma SameOtherMttkrp(x: seq<Entry>, u: seq<Mat>, a: Mat, w: Vec, n: nat, rows: nat, nc: nat)
    requires n < |u|
    ensures MttkrpMat(x, u[n := a], w, n, rows, nc) == MttkrpMat(x, u, w, n, rows, nc)
  {
    forall i: nat, r: nat | i < rows && r < nc
      ensures At(MttkrpMat(x, u[n := a], w, n, rows, nc), i, r) == At(MttkrpMat(x, u, w, n, rows, nc), i, r)
    {
      SameMttkrpAt(x, u, a, w, n, i, r);
    }
    SameEntries(MttkrpMat(x, u[n := a], w, n, rows, nc), MttkrpMat(x, u, w, n, rows, nc), rows, nc);
  }

  lemma {:induction false} SameMttkrpAt(x: seq<Entry>, u: seq<Mat>, a: Mat, w: Vec, n: nat, i: nat, r: nat)
    requires n < |u|
    ensures MttkrpAt(x, u[n := a], w, n, i, r) == MttkrpAt(x, u, w, n, i, r)
  {
    if |x| > 0 {
      SameMttkrpAt(x[..|x| - 1], u, a, w, n, i, r);
      SkipProdReplace(u, a, x[|x| - 1].coo, n, r, |u|);
    }
  }

  lemma ClampedNormsNotZero(a: Mat, nc: nat, sqrt: real -> real)
    ensures forall j :: 0 <= j < nc ==> ColNorms(a, nc, false, sqrt)[j] >= 1.0
  {
  }

  /** The last products of a sweep turn upsilon into gram * hada * weights on the upper triangle. */
  lemma UpperIsNorm(y: Mat, g: Mat, u: seq<Mat>, w: Vec, nc: nat, full: bool)
    requires |u| > 0 && |w| == nc && KeptEqual(y, PartialProduct(u, |u| - 1, |u|), nc, full)
    requires KeptEqual(g, GramOf(u[|u| - 1]), nc, full)
    ensures forall r: nat, q: nat :: r <= q < nc ==>
              At(Hadamard(Hadamard(y, g, nc), Oprod(w), nc), r, q) == GramTimesHada(u, w, |u| - 1)(r, q)
  {
    var n := |u| - 1;
    forall r: nat, q: nat | r <= q < nc
      ensures At(Hadamard(Hadamard(y, g, nc), Oprod(w), nc), r, q) == GramTimesHada(u, w, n)(r, q)
    {
      assert Kept(r, q, nc, full);
      assert At(y, r, q) == GramProd(u, u, n, r, q, |u|) && At(g, r, q) == Cross(u[n], u[n], r, q);
      assert At(Hadamard(y, g, nc), r, q) == At(y, r, q) * At(g, r, q);
      assert At(Oprod(w), r, q) == Weight(w, r) * Weight(w, q);
      assert Hada(u, w, n)(r, q) == (Weight(w, r) * Weight(w, q)) * GramProd(u, u, n, r, q, |u|);
      assert GramTimesHada(u, w, n)(r, q) == Cross(u[n], u[n], r, q) * Hada(u, w, n)(r, q);
      Reorder(GramProd(u, u, n, r, q, |u|), Cross(u[n], u[n], r, q), Weight(w, r) * Weight(w, q));
    }
  }

  lemma Reorder(a: real, b: real, c: real)
    ensures (a * b) * c == b * (c * a)
  {
  }

  lemma FloorBound(k: nat, tol: real)
    requires tol > 0.0 && k as real * tol <= 1.0
    ensures k <= (1.0 / tol).Floor
  {
    var p := 1.0 / tol;
    assert p * tol == 1.0;
    assert k as real > p ==> (k as real - p) * tol > 0.0;
  }

  datatype Status = Success | SolveFailed | ZeroColumn

  ghost predicate NonDecreasing(s: seq<real>)
  {
    forall i, j :: 0 <= i < j < |s| ==> s[i] <= s[j]
  }

  ghost predicate InUnit(s: seq<real>)
  {
    forall i :: 0 <= i < |s| ==> 0.0 <= s[i] <= 1.0
  }

  /** gamma[k] is the Gram matrix of factor k, in the entries that the formulation keeps, for every
      mode but n. */
  ghost predicate GramsKept(gamma: seq<Mat>, u: seq<Mat>, n: nat, nc: nat, full: bool)
  {
    |gamma| == |u| && forall k: nat :: k < |u| && k != n ==> KeptEqual(gamma[k], GramOf(u[k]), nc, full)
  }

  lemma GramsAfterUpdate(gamma: seq<Mat>, u: seq<Mat>, n: nat, a: Mat, nc: nat, full: bool)
    requires n < |u| && GramsKept(gamma, u, n, nc, full)
    ensures GramsKept(gamma[n := GramInto(gamma[n], a, nc, full)], u[n := a], |u|, nc, full)
  {
  }

  /** Entrywise product of all Gram matrices but that of mode n. */
  method ProductOfOthers(gamma: seq<Mat>, ghost u: seq<Mat>, n: nat, nc: nat, full: bool) returns (y: Mat)
    requires n < |u| && GramsKept(gamma, u, n, nc, full)
    ensures KeptEqual(y, PartialProduct(u, n, |u|), nc, full)
  {
    y := Tabulate(nc, nc, (r: nat, q: nat) => 1.0);
    var k := 0;
    while k < |gamma|
      invariant 0 <= k <= |gamma| && KeptEqual(y, PartialProduct(u, n, k), nc, full)
    {
      if k != n {
        TimesGram(y, gamma[k], u, n, k, nc, full);
        y := Hadamard(y, gamma[k], nc);
      }
      k := k + 1;
    }
  }

  /** A model between two mode updates: its factors and weights. */
  datatype Iterate = Iterate(u: seq<Mat>, lambda: Vec)

  /** The data, the number of components, the penalty, the norm of the data, and the numerics. */
  datatype AlsProblem = AlsProblem(x: seq<Entry>, dims: Coord, nc: nat, penalty: real, xNorm: real,
                                   numerics: Numerics) {

    ghost predicate Valid()
    {
      && CoordsFit(x, dims) && Distinct(x) && |dims| > 0 && numerics.Valid()
      && xNorm > 0.0 && Square(xNorm) == SumOfSquares(x) && penalty >= 0.0
    }

    /** Squared distance between the data and a model, over the full tensor. */
    function DistanceOf(m: Iterate): real
    {
      Residual(x, dims, m.u, m.lambda, nc)
    }

    /** b is a with factor n replaced: with its weights it solves the normal equations of a, and its
        weights are the column norms of that solution. */
    ghost predicate ModeUpdate(a: Iterate, b: Iterate, n: nat, first: bool)
    {
      && FactorsFit(a.u, dims, nc) && |a.lambda| == |b.lambda| == nc && n < |dims|
      && FactorsFit(b.u, dims, nc) && b.u == a.u[n := b.u[n]]
      && Solves(ColScaled(b.u[n], b.lambda), x, a.u, n, dims, nc, penalty)
      && b.lambda == ColNorms(ColScaled(b.u[n], b.lambda), nc, first, numerics.sqrt)
      && forall r :: 0 <= r < nc ==> b.lambda[r] != 0.0
    }

    /** Step i of a run updates mode i modulo the number of modes. */
    ghost predicate StepOf(hist: seq<Iterate>, i: nat)
      requires i + 1 < |hist| && |dims| > 0
    {
      ModeUpdate(hist[i], hist[i + 1], i % |dims|, i < |dims|)
    }

    /** The models of a run, from the initial guess on. */
    ghost predicate IsRun(hist: seq<Iterate>)
      requires |dims| > 0
    {
      |hist| > 0 && forall i: nat :: i + 1 < |hist| ==> StepOf(hist, i)
    }

    /** The fit of a model with the given squared distance. */
    ghost predicate IsFit(f: real, distance: real)
      requires xNorm > 0.0
    {
      exists r: real :: r >= 0.0 && Square(r) == distance && f == FitOf(r, xNorm)
    }

    /** Written out: the square of what is missing from one, times that of the norm of the data, is the
        squared distance. */
    lemma FitMeans(f: real, distance: real)
      requires Valid() && IsFit(f, distance)
      ensures f <= 1.0 && (1.0 - f) * (1.0 - f) * SumOfSquares(x) == distance
    {
      var r :| r >= 0.0 && Square(r) == distance && f == FitOf(r, xNorm);
      FitIsPlain(r, xNorm);
      SquaredFit(f, r, xNorm, distance, SumOfSquares(x));
    }

    /** It is at most zero exactly when the model is no nearer to the data than the zero tensor. */
    lemma FitBelowZero(f: real, distance: real)
      requires Valid() && f <= 1.0 && (1.0 - f) * (1.0 - f) * SumOfSquares(x) == distance
      ensures f <= 0.0 <==> distance >= SumOfSquares(x)
    {
      PositiveProduct(xNorm, xNorm, xNorm * xNorm);
      MissingAtLeastOne(1.0 - f, SumOfSquares(x), distance);
    }

    lemma MissingAtLeastOne(g: real, squares: real, distance: real)
      requires g >= 0.0 && squares > 0.0 && g * g * squares == distance
      ensures g >= 1.0 <==> distance >= squares
    {
      if g >= 1.0 {
        assert g * g >= 1.0;
        assert (g * g - 1.0) * squares >= 0.0;
      } else {
        SquareMonotone(1.0, g);
        PositiveProduct(1.0 - g * g, squares, (1.0 - g * g) * squares);
      }
    }

    /** A run together with the fits after each of its complete sweeps. */
    ghost predicate Traced(hist: seq<Iterate>, fits: seq<real>)
      requires Valid()
    {
      && IsRun(hist) && |fits| * |dims| < |hist|
      && forall k: nat :: k < |fits| ==> FitAfter(hist, fits, k)
    }

    ghost predicate FitAfter(hist: seq<Iterate>, fits: seq<real>, k: nat)
      requires Valid() && k < |fits|
    {
      (k + 1) * |dims| < |hist| && IsFit(fits[k], DistanceOf(hist[(k + 1) * |dims|]))
    }

    /** Without penalty a mode update does not move the model away from the data. */
    lemma ModeUpdateImproves(a: Iterate, b: Iterate, n: nat, first: bool)
      requires Valid() && penalty == 0.0 && ModeUpdate(a, b, n, first)
      ensures DistanceOf(b) <= DistanceOf(a) && DistanceOf(b) <= SumOfSquares(x)
    {
      UpdateImproves(x, dims, a.u, a.lambda, n, b.u, b.lambda, nc);
    }

    /** When the normal equations have only one solution there is only one mode update. */
    lemma ModeUpdateUnique(a: Iterate, b: Iterate, c: Iterate, n: nat, first: bool)
      requires ModeUpdate(a, b, n, first) && ModeUpdate(a, c, n, first)
      requires forall s, t ::
                 Solves(s, x, a.u, n, dims, nc, penalty) && Solves(t, x, a.u, n, dims, nc, penalty) ==> s == t
      ensures b == c
    {
      hide Solves, ColNorms, ColScaled;
      assert ColScaled(b.u[n], b.lambda) == ColScaled(c.u[n], c.lambda) && b.lambda == c.lambda;
      SameBeforeScaling(b.u[n], c.u[n], b.lambda, dims[n]);
    }

    /** With a positive penalty there is always only one: any two ways of making the update, serial or
        spread over ranks, have the same result. */
    lemma PenaltyMakesUnique(a: Iterate, b: Iterate, c: Iterate, n: nat, first: bool)
      requires penalty > 0.0 && ModeUpdate(a, b, n, first) && ModeUpdate(a, c, n, first)
      ensures b == c
    {
      forall s, t | Solves(s, x, a.u, n, dims, nc, penalty) && Solves(t, x, a.u, n, dims, nc, penalty)
        ensures s == t
      {
        PenaltyDetermines(s, t, x, a.u, n, dims, nc, penalty);
      }
      hide Solves;
      ModeUpdateUnique(a, b, c, n, first);
    }

    /** So with a positive penalty two runs from the same guess agree as far as both go, whether they are
        serial or on a grid. */
    lemma {:induction false} RunsAgree(hist: seq<Iterate>, other: seq<Iterate>, i: nat)
      requires |dims| > 0 && penalty > 0.0 && IsRun(hist) && IsRun(other) && hist[0] == other[0]
      requires i < |hist| && i < |other|
      ensures hist[i] == other[i]
    {
      hide AlsProblem.ModeUpdate;
      if i > 0 {
        RunsAgree(hist, other, i - 1);
        assert StepOf(hist, i - 1) && StepOf(other, i - 1);
        PenaltyMakesUnique(hist[i - 1], hist[i], other[i], (i - 1) % |dims|, i - 1 < |dims|);
      }
    }

    lemma SameBeforeScaling(v: Mat, w: Mat, k: Vec, rows: nat)
      requires IsMat(v, rows, |k|) && IsMat(w, rows, |k|) && ColScaled(v, k) == ColScaled(w, k)
      requires forall r :: 0 <= r < |k| ==> k[r] != 0.0
      ensures v == w
    {
      forall i: nat, r: nat | i < rows && r < |k| ensures At(v, i, r) == At(w, i, r) {
        assert At(ColScaled(v, k), i, r) == At(v, i, r) * k[r];
        assert At(ColScaled(w, k), i, r) == At(w, i, r) * k[r];
        CancelWeight(At(v, i, r), At(w, i, r), k[r]);
      }
      SameEntries(v, w, rows, |k|);
    }

    lemma CancelWeight(v: real, w: real, k: real)
      requires k != 0.0 && v * k == w * k
      ensures v == w
    {
      assert (v - w) * k == 0.0;
    }

    /** Without penalty the distance to the data never goes up over a run, and after the first update
        it is at most that of the zero tensor. */
    lemma {:induction false} RunImproves(hist: seq<Iterate>, i: nat, j: nat)
      requires Valid() && penalty == 0.0 && IsRun(hist) && i <= j < |hist|
      ensures DistanceOf(hist[j]) <= DistanceOf(hist[i])
      ensures j > 0 ==> DistanceOf(hist[j]) <= SumOfSquares(x)
    {
      hide Residual, AlsProblem.ModeUpdate;
      if j > 0 {
        assert StepOf(hist, j - 1);
        ModeUpdateImproves(hist[j - 1], hist[j], (j - 1) % |dims|, j - 1 < |dims|);
        if i < j {
          RunImproves(hist, i, j - 1);
        }
      }
    }

    /** Written out: an update replaces one factor. With the weights multiplied in, the new factor minimises
        the squared distance plus the penalty among all factors of that mode, and the weights are its norms. */
    lemma UpdateIsPlain(m: Iterate, next: Iterate, n: nat, first: bool, c: Mat) returns (a: Mat)
      requires Valid() && ModeUpdate(m, next, n, first) && IsMat(c, dims[n], nc)
      ensures |m.u| == |next.u| == |dims| && |next.lambda| == nc && n < |dims| && next.u == m.u[n := next.u[n]]
      ensures IsMat(a, dims[n], nc) && IsMat(next.u[n], dims[n], nc)
      ensures forall k: nat, r: nat :: k < dims[n] && r < nc ==> a[k][r] == next.u[n][k][r] * next.lambda[r]
      ensures next.lambda == ColNorms(a, nc, first, numerics.sqrt)
      ensures forall r: real :: r in next.lambda ==> r != 0.0
      ensures DistanceOf(next) == Residual(x, dims, m.u[n := a], Ones(nc), nc)
      ensures Residual(x, dims, m.u[n := a], Ones(nc), nc) + penalty * Frob(a, a, nc)
           <= Residual(x, dims, m.u[n := c], Ones(nc), nc) + penalty * Frob(c, c, nc)
    {
      hide ColNorms, ColScaled, Solves, Numerics.Valid, CoordsFit, Distinct, SumOfSquares, Residual, Frob;
      a := ColScaled(next.u[n], next.lambda);
      ScaledEntries(next.u[n], next.lambda, dims[n]);
      assert FactorsFit(m.u, dims, nc) && FactorsFit(next.u, dims, nc);
      hide *;
      UpdateIsOptimal(m, next, n, first, c, a);
    }

    lemma ScaledEntries(v: Mat, w: Vec, rows: nat)
      requires IsMat(v, rows, |w|)
      ensures IsMat(ColScaled(v, w), rows, |w|)
      ensures forall k: nat, r: nat :: k < rows && r < |w| ==> ColScaled(v, w)[k][r] == v[k][r] * w[r]
    {
      hide ColScaled;
      forall k: nat, r: nat | k < rows && r < |w| ensures ColScaled(v, w)[k][r] == v[k][r] * w[r] {
        ColScaledEntry(v, w, k, r);
      }
    }

    lemma UpdateIsOptimal(m: Iterate, next: Iterate, n: nat, first: bool, c: Mat, a: Mat)
      requires Valid() && ModeUpdate(m, next, n, first) && n < |dims| && IsMat(c, dims[n], nc)
      requires |next.u| == |m.u| == |dims| && a == ColScaled(next.u[n], next.lambda)
      ensures DistanceOf(next) == Residual(x, dims, m.u[n := a], Ones(nc), nc)
      ensures Residual(x, dims, m.u[n := a], Ones(nc), nc) + penalty * Frob(a, a, nc)
           <= Residual(x, dims, m.u[n := c], Ones(nc), nc) + penalty * Frob(c, c, nc)
    {
      hide Residual, ColNorms, Solves, Frob, Numerics.Valid, ColScaled;
      ResidualWithWeights(x, next.u, next.lambda, n, dims, nc);
      assert next.u[n := a] == m.u[n := a];
      SolutionIsOptimal(x, dims, m.u, n, a, c, nc, penalty);
    }

    /** A smaller distance gives a larger fit. */
    lemma FitsOrdered(f: real, d: real, f': real, d': real)
      requires xNorm > 0.0 && IsFit(f, d) && IsFit(f', d') && d' <= d
      ensures f <= f'
    {
      var r :| r >= 0.0 && Square(r) == d && f == FitOf(r, xNorm);
      var r' :| r' >= 0.0 && Square(r') == d' && f' == FitOf(r', xNorm);
      hide Square, FitOf;
      FitMonotone(r', r, xNorm);
    }

    lemma FitInUnit(f: real, d: real)
      requires xNorm > 0.0 && IsFit(f, d) && d <= Square(xNorm)
      ensures 0.0 <= f <= 1.0
    {
      var r :| r >= 0.0 && Square(r) == d && f == FitOf(r, xNorm);
      hide Square, FitOf;
      FitInRange(r, xNorm);
    }

    /** Without penalty the fits of a run are in [0,1] and never go down. */
    lemma FitsImprove(hist: seq<Iterate>, fits: seq<real>)
      requires Valid() && penalty == 0.0 && Traced(hist, fits)
      ensures NonDecreasing(fits) && InUnit(fits)
    {
      hide AlsProblem.IsFit, AlsProblem.IsRun, Residual, Square;
      forall k: nat | k < |fits| ensures 0.0 <= fits[k] <= 1.0 {
        var j := (k + 1) * |dims|;
        assert FitAfter(hist, fits, k);
        RunImproves(hist, j, j);
        FitInUnit(fits[k], DistanceOf(hist[j]));
      }
      forall k: nat, m: nat | k < m < |fits| ensures fits[k] <= fits[m] {
        assert FitAfter(hist, fits, k) && FitAfter(hist, fits, m);
        MulMono(k + 1, m + 1, |dims|);
        RunImproves(hist, (k + 1) * |dims|, (m + 1) * |dims|);
        FitsOrdered(fits[k], DistanceOf(hist[(k + 1) * |dims|]), fits[m], DistanceOf(hist[(m + 1) * |dims|]));
      }
    }

    /** Before the first update. */
    lemma NothingRun(m: Iterate)
      requires Valid()
      ensures Traced([m], []) && BySolver([m])
    {
    }

    lemma RunExtended(hist: seq<Iterate>, next: Iterate, k: nat, n: nat)
      requires |dims| > 0 && IsRun(hist) && n < |dims| && |hist| == k * |dims| + n + 1
      requires ModeUpdate(hist[|hist| - 1], next, n, k == 0)
      ensures IsRun(hist + [next])
    {
      hide AlsProblem.ModeUpdate;
      var i := |hist| - 1;
      QuotientUnique(i, |dims|, k, n);
      if k > 0 {
        MulMono(1, k, |dims|);
      }
      var longer := hist + [next];
      forall j: nat | j + 1 < |longer| ensures StepOf(longer, j) {
        if j < i {
          assert StepOf(hist, j);
        }
      }
    }

    lemma FitAppended(before: seq<Iterate>, hist: seq<Iterate>, fits: seq<real>, f: real)
      requires Valid() && |before| == |fits| * |dims| + 1 && Traced(before, fits)
      requires IsRun(hist) && |before| <= |hist| && hist[..|before|] == before
      ensures Traced(hist, fits) && (|fits| + 1) * |dims| == |fits| * |dims| + |dims|
      ensures |hist| == (|fits| + 1) * |dims| + 1 && IsFit(f, DistanceOf(hist[(|fits| + 1) * |dims|])) ==>
                Traced(hist, fits + [f])
    {
      hide AlsProblem.IsFit, AlsProblem.IsRun, Residual;
      var m := (|fits| + 1) * |dims|;
      Distribute(|fits|, 1, |dims|);
      forall k: nat | k < |fits| ensures FitAfter(hist, fits, k) && FitAfter(hist, fits + [f], k) {
        assert FitAfter(before, fits, k);
      }
      if |hist| == m + 1 && IsFit(f, DistanceOf(hist[m])) {
        assert FitAfter(hist, fits + [f], |fits|);
      }
    }

    // ----- what the solver decides

    /** What the solver returns for mode n. */
    function SolveFor(u: seq<Mat>, n: nat): Result<Mat>
      requires n < |u| == |dims|
    {
      numerics.solve(SystemMat(u, n, nc, penalty), MttkrpMat(x, u, Ones(nc), n, dims[n], nc), nc)
    }

    /** How an update of mode n ends: the solver fails, or some column of its solution has norm zero, or
        all is well. */
    ghost function Ends(u: seq<Mat>, n: nat, first: bool): Status
      requires n < |u| == |dims|
    {
      if SolveFor(u, n).Error? then SolveFailed
      else NormsEnd(ColNorms(SolveFor(u, n).value, nc, first, numerics.sqrt))
    }

    /** Written out: the solver is asked for the system of mode n and its MTTKRP without weights; the update
        fails when it does, and when some column norm of its solution is zero. */
    lemma EndsIsPlain(u: seq<Mat>, n: nat, first: bool)
      requires n < |u| == |dims|
      ensures var r := numerics.solve(SystemMat(u, n, nc, penalty), MttkrpMat(x, u, Ones(nc), n, dims[n], nc), nc);
              && SolveFor(u, n) == r
              && (Ends(u, n, first).SolveFailed? <==> r.Error?)
              && (Ends(u, n, first).ZeroColumn? <==> r.Ok? && 0.0 in ColNorms(r.value, nc, first, numerics.sqrt))
    {
    }

    lemma EndsOk(u: seq<Mat>, n: nat, first: bool)
      requires n < |u| == |dims| && Ends(u, n, first).Success?
      ensures SolveFor(u, n).Ok?
    {
    }

    /** The scaled factor of step i is what the solver returned. */
    ghost predicate SolverStep(hist: seq<Iterate>, i: nat)
      requires i + 1 < |hist| && |dims| > 0
    {
      var n := i % |dims|;
      && |hist[i].u| == |hist[i + 1].u| == |dims| && SolveFor(hist[i].u, n).Ok?
      && ColScaled(hist[i + 1].u[n], hist[i + 1].lambda) == SolveFor(hist[i].u, n).value
    }

    ghost predicate BySolver(hist: seq<Iterate>)
      requires |dims| > 0
    {
      forall i: nat :: i + 1 < |hist| ==> SolverStep(hist, i)
    }

    /** The update that would come next ends with s. */
    ghost predicate NextEnds(hist: seq<Iterate>, s: Status)
      requires |dims| > 0
    {
      var i := |hist| - 1;
      i >= 0 && |hist[i].u| == |dims| && s == Ends(hist[i].u, i % |dims|, i < |dims|)
    }

    /** Step n of sweep k is step k * |dims| + n of the run. */
    lemma StepIndex(k: nat, n: nat)
      requires n < |dims|
      ensures (k * |dims| + n) % |dims| == n && (k * |dims| + n < |dims| <==> k == 0)
    {
      QuotientUnique(k * |dims| + n, |dims|, k, n);
      if k > 0 {
        MulMono(1, k, |dims|);
      }
    }

    lemma SolverExtended(hist: seq<Iterate>, next: Iterate, k: nat, n: nat)
      requires n < |dims| && |hist| == k * |dims| + n + 1 && BySolver(hist)
      requires |hist[|hist| - 1].u| == |next.u| == |dims| && SolveFor(hist[|hist| - 1].u, n).Ok?
      requires ColScaled(next.u[n], next.lambda) == SolveFor(hist[|hist| - 1].u, n).value
      ensures BySolver(hist + [next])
    {
      hide ColScaled, AlsProblem.SolveFor;
      StepIndex(k, n);
      var longer := hist + [next];
      forall i: nat | i + 1 < |longer| ensures SolverStep(longer, i) {
        if i + 1 < |hist| {
          assert SolverStep(hist, i);
        }
      }
    }

    // ----- the end of a sweep

    ghost predicate IsModel(m: Iterate)
    {
      FactorsFit(m.u, dims, nc) && |m.lambda| == nc
    }

    /** The squared norm of a model. */
    function ModelNormSq(m: Iterate): real
    {
      Inner(dims, Model(m.u, m.lambda, nc), Model(m.u, m.lambda, nc))
    }

    /** <X,M> for a model. */
    function DataTimesModel(m: Iterate): real
    {
      EntrySum(x, Model(m.u, m.lambda, nc))
    }

    lemma DistanceFromNorms(m: Iterate, pNorm: real, xpip: real)
      requires Valid() && IsModel(m) && Square(pNorm) == ModelNormSq(m) && xpip == DataTimesModel(m)
      ensures DistanceOf(m) >= 0.0 && Square(xNorm) + Square(pNorm) - 2.0 * xpip == DistanceOf(m)
    {
      ResidualExpand(x, dims, m.u, m.lambda, nc);
      InnerSquare(dims, Minus(Data(x), Model(m.u, m.lambda, nc)));
    }

    /** The residual norm of a model from its norm and its inner product with the data. */
    method ResidualNorm(ghost m: Iterate, mNorm: real, xDotm: real) returns (r: Result<real>)
      requires Valid() && IsModel(m) && Square(mNorm) == ModelNormSq(m) && xDotm == DataTimesModel(m)
      ensures r.Ok? && r.value >= 0.0 && Square(r.value) == DistanceOf(m)
    {
      hide Square, AlsProblem.ModelNormSq, AlsProblem.DataTimesModel, AlsProblem.DistanceOf, ComputeResNorm;
      r := ComputeResNorm(xNorm, mNorm, xDotm, numerics);
      DistanceFromNorms(m, mNorm, xDotm);
      ResNormIsExact(xNorm, mNorm, xDotm, numerics, DistanceOf(m));
    }

    lemma UpperSum(m: Iterate, gram: Mat, upsilon: Mat, full: bool, y: Mat)
      requires Valid() && IsModel(m) && KeptEqual(gram, GramOf(m.u[|m.u| - 1]), nc, full)
      requires KeptEqual(upsilon, PartialProduct(m.u, |m.u| - 1, |m.u|), nc, full)
      requires y == Hadamard(Hadamard(upsilon, gram, nc), Oprod(m.lambda), nc)
      ensures SumUpper(y, nc) == ModelNormSq(m) >= 0.0
    {
      UpperIsNorm(upsilon, gram, m.u, m.lambda, nc, full);
      NormFromUpper(m.u, m.lambda, y, dims, nc);
      InnerSquare(dims, Model(m.u, m.lambda, nc));
    }

    /** At the end of a sweep the cheap quantities are the real ones: the norm of the model, the residual
        and the fit, from the product of the other Gram matrices, the last Gram matrix, the weights, and
        the inner product of data and model. */
    method Finish(ghost m: Iterate, lambda: Vec, gram: Mat, upsilon: Mat, xpip: real, full: bool)
      returns (y: Mat, pNorm: real, resNorm: Result<real>, fit: real)
      requires Valid() && IsModel(m) && lambda == m.lambda && xpip == DataTimesModel(m)
      requires KeptEqual(gram, GramOf(m.u[|m.u| - 1]), nc, full)
      requires KeptEqual(upsilon, PartialProduct(m.u, |m.u| - 1, |m.u|), nc, full)
      ensures pNorm >= 0.0 && Square(pNorm) == ModelNormSq(m)
      ensures resNorm.Ok? && resNorm.value >= 0.0 && Square(resNorm.value) == DistanceOf(m)
      ensures fit == FitOf(resNorm.value, xNorm) && IsFit(fit, DistanceOf(m))
      ensures fit <= 1.0 && (1.0 - fit) * (1.0 - fit) * SumOfSquares(x) == DistanceOf(m)
      ensures pNorm * pNorm == ModelNormSq(m) && resNorm.value * resNorm.value == DistanceOf(m)
    {
      hide Model, Residual, Hadamard, KeptEqual, SumUpper;
      y := Hadamard(Hadamard(upsilon, gram, nc), Oprod(lambda), nc);
      UpperSum(m, gram, upsilon, full, y);
      pNorm := numerics.sqrt(Abs(SumUpper(y, nc)));
      resNorm := ResidualNorm(m, pNorm, xpip);
      fit := FitOf(resNorm.value, xNorm);
      hide AlsProblem.DistanceOf, FitOf;
      FitMeans(fit, DistanceOf(m));
    }

    lemma FitAtMostOne(r: real)
      requires Valid() && r >= 0.0
      ensures FitOf(r, xNorm) <= 1.0
    {
      QuotientMonotone(0.0, r, xNorm);
    }

    // ----- the stopping rule

    /** The rule stops the run after sweep k, counting from zero. */
    predicate StopsAfter(fits: seq<real>, k: nat, tol: real, timeUp: nat -> bool)
      requires k < |fits|
    {
      (k > 0 && Abs(fits[k - 1] - fits[k]) < tol) || timeUp(k)
    }

    /** The rule did not stop the run after any of its first k sweeps. */
    predicate RanOn(fits: seq<real>, k: nat, tol: real, timeUp: nat -> bool)
    {
      k <= |fits| && forall j: nat :: j < k ==> !StopsAfter(fits, j, tol, timeUp)
    }

    lemma RanOnNone(tol: real, timeUp: nat -> bool)
      ensures RanOn([], 0, tol, timeUp)
    {
    }

    lemma RanOnStep(fits: seq<real>, f: real, tol: real, timeUp: nat -> bool)
      requires RanOn(fits, |fits|, tol, timeUp)
      ensures RanOn(fits + [f], |fits|, tol, timeUp)
      ensures !StopsAfter(fits + [f], |fits|, tol, timeUp) ==> RanOn(fits + [f], |fits| + 1, tol, timeUp)
    {
      hide Abs;
      forall j: nat | j < |fits| ensures !StopsAfter(fits + [f], j, tol, timeUp) {
        assert !StopsAfter(fits, j, tol, timeUp);
      }
    }

    /** Fits that never go down have grown by the tolerance in every sweep but the first. */
    lemma {:induction false} FitsGrow(fits: seq<real>, k: nat, tol: real, timeUp: nat -> bool)
      requires NonDecreasing(fits) && InUnit(fits) && k < |fits| && RanOn(fits, k + 1, tol, timeUp)
      ensures fits[k] >= k as real * tol
    {
      if k > 0 {
        FitsGrow(fits, k - 1, tol, timeUp);
        assert !StopsAfter(fits, k, tol, timeUp);
        assert k as real * tol == (k - 1) as real * tol + tol;
      }
    }

    /** The tolerance alone bounds the sweeps that the rule does not stop. */
    lemma SweepsBounded(fits: seq<real>, k: nat, tol: real, timeUp: nat -> bool)
      requires NonDecreasing(fits) && InUnit(fits) && RanOn(fits, k, tol, timeUp) && tol > 0.0
      ensures k <= (1.0 / tol).Floor + 1
    {
      if k > 0 {
        FitsGrow(fits, k - 1, tol, timeUp);
        FloorBound(k - 1, tol);
      } else {
        FloorBound(0, tol);
      }
    }

    // ----- the main loop

    /** How the main loop ends: every model of the run is a mode update of the one before, every fit is
        that of the model after its sweep, and the loop goes on until the stopping rule holds, maxIters
        sweeps are done, or an update fails. A zero column can only stop the first sweep. */
    ghost predicate LoopEnds(s: Status, sweeps: nat, hist: seq<Iterate>, fits: seq<real>, maxIters: nat, tol: real,
        timeUp: nat -> bool)
      requires Valid()
    {
      && sweeps <= maxIters && Traced(hist, fits)
      && (s.Success? ==> |hist| == sweeps * |dims| + 1 && |fits| == sweeps)
      && (!s.Success? ==> |fits| + 1 == sweeps && |hist| <= sweeps * |dims|)
      && (sweeps > 0 ==> RanOn(fits, sweeps - 1, tol, timeUp))
      && (s.Success? && sweeps < maxIters ==> sweeps > 0 && StopsAfter(fits, sweeps - 1, tol, timeUp))
      && (s.ZeroColumn? ==> sweeps == 1)
    }

    /** Without penalty no model of the run is farther from the data than one before it, the fits are in
        [0,1] and never go down, and the tolerance alone bounds the number of sweeps. */
    ghost predicate Improves(sweeps: nat, hist: seq<Iterate>, fits: seq<real>, tol: real)
    {
      penalty == 0.0 ==>
        && (forall i, j :: 0 <= i <= j < |hist| ==> DistanceOf(hist[j]) <= DistanceOf(hist[i]))
        && NonDecreasing(fits) && InUnit(fits)
        && (tol > 0.0 ==> sweeps <= (1.0 / tol).Floor + 2)
    }

    /** What fit k is: the square of what it lacks from one, times the squared norm of the data, is the
        squared distance of the model after sweep k. */
    ghost predicate FitIsRight(hist: seq<Iterate>, fits: seq<real>, k: nat)
      requires k < |fits|
    {
      && (k + 1) * |dims| < |hist| && fits[k] <= 1.0
      && (1.0 - fits[k]) * (1.0 - fits[k]) * SumOfSquares(x) == DistanceOf(hist[(k + 1) * |dims|])
    }

    lemma FitsAreRight(s: Status, sweeps: nat, hist: seq<Iterate>, fits: seq<real>, maxIters: nat, tol: real,
        timeUp: nat -> bool)
      requires Valid() && LoopEnds(s, sweeps, hist, fits, maxIters, tol, timeUp)
      ensures forall k: nat :: k < |fits| ==> FitIsRight(hist, fits, k)
    {
      hide AlsProblem.IsRun, AlsProblem.IsFit, AlsProblem.DistanceOf, AlsProblem.RanOn;
      forall k: nat | k < |fits| ensures FitIsRight(hist, fits, k) {
        assert FitAfter(hist, fits, k);
        FitMeans(fits[k], DistanceOf(hist[(k + 1) * |dims|]));
      }
    }

    /** Written out for one sweep: what its fit says about its model, and that the loop went on after it
        only because neither the clock nor the change of the fit stopped it. */
    lemma LoopIsPlain(s: Status, sweeps: nat, hist: seq<Iterate>, fits: seq<real>, maxIters: nat, tol: real,
        timeUp: nat -> bool, k: nat)
      requires Valid() && LoopEnds(s, sweeps, hist, fits, maxIters, tol, timeUp) && k < |fits|
      ensures sweeps <= maxIters && |fits| == if s.Success? then sweeps else sweeps - 1
      ensures (k + 1) * |dims| < |hist| && fits[k] <= 1.0
      ensures (1.0 - fits[k]) * (1.0 - fits[k]) * SumOfSquares(x) == DistanceOf(hist[(k + 1) * |dims|])
      ensures k + 1 < sweeps ==>
                !timeUp(k) && (k > 0 ==> fits[k] - fits[k - 1] >= tol || fits[k - 1] - fits[k] >= tol)
      ensures s.Success? && k + 1 == sweeps < maxIters ==>
                timeUp(k) || (k > 0 && -tol < fits[k] - fits[k - 1] < tol)
    {
      hide AlsProblem.IsRun, AlsProblem.IsFit, AlsProblem.DistanceOf;
      assert FitAfter(hist, fits, k);
      FitMeans(fits[k], DistanceOf(hist[(k + 1) * |dims|]));
      if k + 1 < sweeps {
        assert !StopsAfter(fits, k, tol, timeUp);
      }
    }

    lemma LoopImproves(s: Status, sweeps: nat, hist: seq<Iterate>, fits: seq<real>, maxIters: nat, tol: real,
        timeUp: nat -> bool)
      requires Valid() && LoopEnds(s, sweeps, hist, fits, maxIters, tol, timeUp)
      ensures Improves(sweeps, hist, fits, tol)
    {
      if penalty == 0.0 {
        hide Residual, AlsProblem.ModeUpdate, AlsProblem.RanOn, AlsProblem.FitAfter;
        FitsImprove(hist, fits);
        forall i, j | 0 <= i <= j < |hist| ensures DistanceOf(hist[j]) <= DistanceOf(hist[i]) {
          RunImproves(hist, i, j);
        }
        if tol > 0.0 {
          SweepsBounded(fits, if sweeps > 0 then sweeps - 1 else 0, tol, timeUp);
        }
      }
    }
  }

  /** How an update ends with these column norms. */
  ghost function NormsEnd(norms: Vec): Status
  {
    if exists j :: 0 <= j < |norms| && norms[j] == 0.0 then ZeroColumn else Success
  }
}
