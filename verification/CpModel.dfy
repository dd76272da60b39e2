/** The Gaussian CP objective with its gradient, evaluated through cached Gram matrices. */
module CpModel {
  import opened Layout
  import opened Vectors
  import opened Sums
  import opened Mttkrp
  import opened KtensorAlgebra
  import opened FactorMatrix

  /** Data tensor, its scale 1/||X||^2 and the penalty on the factors. */
  datatype Problem = Problem(x: seq<Entry>, dims: Coord, nc: nat, scale: real, penalty: real) {

    ghost predicate Valid()
    {
      && CoordsFit(x, dims) && Distinct(x) && |dims| > 0
      && SumOfSquares(x) != 0.0 && scale * SumOfSquares(x) == 1.0
    }

    /** Sum of the squared norms of the first k factors. */
    function FactorNorms(u: seq<Mat>, k: nat): real
      requires k <= |u|
    {
      if k == 0 then 0.0 else FactorNorms(u, k - 1) + NormFsq(u[k - 1], nc)
    }

    /** ||X - M||^2 / ||X||^2 over every entry of the full tensor, plus the penalty. */
    function Objective(u: seq<Mat>, w: Vec): real
    {
      scale * Residual(x, dims, u, w, nc) + scale * penalty * FactorNorms(u, |u|)
    }

    function Product(u: seq<Mat>, w: Vec, n: nat): (m: Mat)
      requires n < |u|
    {
      MatMul(u[n], Hada(u, w, n), nc)
    }

    function DataPart(u: seq<Mat>, w: Vec, n: nat): (m: Mat)
      requires n < |u| == |dims|
    {
      MttkrpMat(x, u, w, n, dims[n], nc)
    }

    /** The gradient with respect to factor n. */
    function Gradient(u: seq<Mat>, w: Vec, n: nat): (m: Mat)
      requires n < |u| == |dims|
      ensures IsMat(m, |u[n]|, nc)
    {
      Tabulate(|u[n]|, nc, (i: nat, q: nat) =>
        (2.0 * scale * At(Product(u, w, n), i, q) - 2.0 * scale * At(DataPart(u, w, n), i, q))
        + 2.0 * scale * penalty * At(u[n], i, q))
    }

    lemma {:induction false} FactorNormsReplace(u: seq<Mat>, n: nat, a: Mat, k: nat)
      requires n < |u| && k <= |u|
      ensures FactorNorms(u[n := a], k)
           == FactorNorms(u, k) + if n < k then NormFsq(a, nc) - NormFsq(u[n], nc) else 0.0
    {
      if k > 0 {
        FactorNormsReplace(u, n, a, k - 1);
      }
    }

    lemma GradientAlong(u: seq<Mat>, w: Vec, n: nat, v: Mat)
      requires FactorsFit(u, dims, nc) && n < |u| && IsMat(v, dims[n], nc)
      ensures Frob(Gradient(u, w, n), v, nc)
           == 2.0 * scale * (Frob(Product(u, w, n), v, nc) - Frob(DataPart(u, w, n), v, nc))
              + 2.0 * scale * penalty * Frob(u[n], v, nc)
    {
      hide Frob;
      var p, b := Product(u, w, n), DataPart(u, w, n);
      var d := Tabulate(|u[n]|, nc, (i: nat, q: nat) => 2.0 * scale * At(p, i, q) + -(2.0 * scale) * At(b, i, q));
      FrobCombine(p, b, d, 2.0 * scale, -(2.0 * scale), v, nc);
      FrobCombine(d, u[n], Gradient(u, w, n), 1.0, 2.0 * scale * penalty, v, nc);
    }

    lemma Collect(s: real, p: real, res: real, res': real, pv: real, bv: real, q: real, norms: real, norms': real,
        uv: real, vv: real)
      requires res' == res + 2.0 * (pv - bv) + q && norms' == norms + 2.0 * uv + vv
      ensures s * res' + s * p * norms'
           == (s * res + s * p * norms) + (2.0 * s * (pv - bv) + 2.0 * s * p * uv) + s * q + s * p * vv
    {
      assert s * res' == s * res + 2.0 * s * (pv - bv) + s * q;
      assert s * p * norms' == s * p * norms + 2.0 * s * p * uv + s * p * vv;
    }

    /** Replacing factor n by u[n] + v changes the objective by exactly <G, v>, where G is the
        gradient, plus a term quadratic in v: for any weights and any number of modes. */
    lemma GradientIsExact(u: seq<Mat>, w: Vec, n: nat, v: Mat)
      requires Valid() && FactorsFit(u, dims, nc) && n < |u| && IsMat(v, dims[n], nc)
      ensures Objective(u[n := MatAdd(u[n], v, nc)], w)
           == Objective(u, w)
              + Frob(Gradient(u, w, n), v, nc)
              + scale * Frob(MatMul(v, Hada(u, w, n), nc), v, nc)
              + scale * penalty * NormFsq(v, nc)
    {
      hide Residual, Frob, MatMul, Hada, MttkrpMat, NormFsq, FactorNorms, Gradient;
      var s := MatAdd(u[n], v, nc);
      assert u[n := u[n]] == u;
      ResidualExpansion(x, u, w, n, u[n], v, dims, nc);
      GradientAlong(u, w, n, v);
      FactorNormsReplace(u, n, s, |u|);
      SquareOfSum(u[n], v, nc);
      Collect(scale, penalty, Residual(x, dims, u, w, nc), Residual(x, dims, u[n := s], w, nc),
              Frob(Product(u, w, n), v, nc), Frob(DataPart(u, w, n), v, nc),
              Frob(MatMul(v, Hada(u, w, n), nc), v, nc),
              FactorNorms(u, |u|), FactorNorms(u[n := s], |u|), Frob(u[n], v, nc), NormFsq(v, nc));
    }

    /** The quadratic term is the squared norm of the model with v in place of the factor. */
    lemma CurvatureIsNonNegative(u: seq<Mat>, w: Vec, n: nat, v: Mat)
      requires FactorsFit(u, dims, nc) && n < |u| && IsMat(v, dims[n], nc)
      ensures Frob(MatMul(v, Hada(u, w, n), nc), v, nc)
           == Inner(dims, Model(u[n := v], w, nc), Model(u[n := v], w, nc))
      ensures Frob(MatMul(v, Hada(u, w, n), nc), v, nc) >= 0.0
    {
      ModelsDifferInOne(u, w, n, v, v, dims, nc);
      InnerSquare(dims, Model(u[n := v], w, nc));
    }

    /** The matrix that the code returns for factor n when the overlap carries the weights wo. */
    function GradientFrom(u: seq<Mat>, w: Vec, wo: Vec, n: nat): (m: Mat)
      requires n < |u| == |dims|
      ensures IsMat(m, |u[n]|, nc)
    {
      Tabulate(|u[n]|, nc, (i: nat, q: nat) =>
        (2.0 * scale * At(Product(u, w, n), i, q) - 2.0 * scale * At(DataPart(u, wo, n), i, q))
        + 2.0 * scale * penalty * At(u[n], i, q))
    }

    // ----- written out over the entries

    lemma {:induction false} FactorNormsAreTotal(u: seq<Mat>, k: nat, s: Vec)
      requires k == |s| <= |u| && forall m: nat :: m < k ==> s[m] == Frob(u[m], u[m], nc)
      ensures FactorNorms(u, k) == Total(s)
    {
      if k > 0 {
        FactorNormsAreTotal(u, k - 1, s[..k - 1]);
      }
    }

    /** The scaled squared distance plus the scaled penalty times the sum of the factors' squared norms. */
    lemma ObjectiveIsPlain(u: seq<Mat>, w: Vec, s: Vec)
      requires |s| == |u| && forall m: nat :: m < |u| ==> s[m] == Frob(u[m], u[m], nc)
      ensures Objective(u, w) == scale * Residual(x, dims, u, w, nc) + scale * penalty * Total(s)
    {
      FactorNormsAreTotal(u, |u|, s);
    }

    /** An entry of the returned gradient: with the weights w in the part of the model and wo in that of the
        data. */
    lemma GradientIsPlain(u: seq<Mat>, w: Vec, wo: Vec, n: nat, i: nat, q: nat, s: Vec)
      requires FactorsFit(u, dims, nc) && n < |u| && i < dims[n] && q < nc && |u[n]| == dims[n] && |u[n][i]| == nc
      requires |s| == nc && forall r: nat :: r < nc ==> s[r] == u[n][i][r] * Hada(u, w, n)(r, q)
      ensures |GradientFrom(u, w, wo, n)| == dims[n] && |GradientFrom(u, w, wo, n)[i]| == nc
      ensures GradientFrom(u, w, wo, n)[i][q]
           == (2.0 * scale * Total(s) - 2.0 * scale * MttkrpAt(x, u, wo, n, i, q)) + 2.0 * scale * penalty * u[n][i][q]
    {
      hide Hada, MttkrpAt;
      SumIsTotal(nc, MulTerm(u[n], Hada(u, w, n), i, q), s);
      assert At(GradientFrom(u, w, wo, n), i, q) == GradientFrom(u, w, wo, n)[i][q];
      assert At(u[n], i, q) == u[n][i][q];
    }

    /** How far <X,M> from the overlap's weights wo is from the one with the model's weights w. */
    function OverlapExcess(u: seq<Mat>, w: Vec, wo: Vec): real
    {
      EntrySum(x, Model(u, wo, nc)) - EntrySum(x, Model(u, w, nc))
    }

    /** How far the shortcut for <X,M> is off: an MTTKRP with the weights wo, multiplied by w. */
    function ShortcutExcess(u: seq<Mat>, w: Vec, wo: Vec): real
      requires 0 < |u| == |dims|
    {
      InnerProd(u[|u| - 1], DataPart(u, wo, |u| - 1), w, nc) - EntrySum(x, Model(u, w, nc))
    }

    /** <X,M> by the trick of the last mode. */
    lemma InnerByTrick(u: seq<Mat>, w: Vec)
      requires Valid() && FactorsFit(u, dims, nc)
      ensures EntrySum(x, Model(u, w, nc)) == Frob(u[|u| - 1], DataPart(u, w, |u| - 1), nc)
    {
      var n := |u| - 1;
      assert u[n := u[n]] == u;
      MttkrpInner(x, u, w, n, u[n], dims, nc);
      FrobSymmetric(u[n], DataPart(u, w, n), nc);
    }

    lemma SameWeightsSameData(u: seq<Mat>, w: Vec, wo: Vec, n: nat)
      requires n < |u| == |dims| && SameWeights(w, wo, nc)
      ensures DataPart(u, w, n) == DataPart(u, wo, n)
    {
      forall i: nat, q: nat | i < dims[n] && q < nc
        ensures At(DataPart(u, w, n), i, q) == At(DataPart(u, wo, n), i, q)
      {
        MttkrpWeight(x, u, w, n, i, q, nc);
        MttkrpWeight(x, u, wo, n, i, q, nc);
      }
      SameEntries(DataPart(u, w, n), DataPart(u, wo, n), dims[n], nc);
    }

    /** Equal weights leave value and gradient as they should be. */
    lemma OverlapExact(u: seq<Mat>, w: Vec, wo: Vec)
      requires Valid() && FactorsFit(u, dims, nc) && SameWeights(w, wo, nc)
      ensures OverlapExcess(u, w, wo) == 0.0
      ensures forall n :: 0 <= n < |u| ==> GradientFrom(u, w, wo, n) == Gradient(u, w, n)
    {
      InnerByTrick(u, w);
      InnerByTrick(u, wo);
      SameWeightsSameData(u, w, wo, |u| - 1);
      forall n | 0 <= n < |u| ensures GradientFrom(u, w, wo, n) == Gradient(u, w, n) {
        SameWeightsSameData(u, w, wo, n);
        SameEntries(GradientFrom(u, w, wo, n), Gradient(u, w, n), |u[n]|, nc);
      }
    }

    /** The shortcut is right when the overlap's weights do not change the model's. */
    lemma ShortcutExact(u: seq<Mat>, w: Vec, wo: Vec)
      requires Valid() && FactorsFit(u, dims, nc) && Absorbed(w, wo, nc)
      ensures ShortcutExcess(u, w, wo) == 0.0
    {
      InnerByTrick(u, w);
      var n := |u| - 1;
      var a, b, c := u[n], DataPart(u, wo, n), DataPart(u, w, n);
      forall i: nat, q: nat | i < |a| && q < nc ensures WeightedTerm(a, b, w)(i, q) == Entrywise(a, c)(i, q) {
        MttkrpWeight(x, u, w, n, i, q, nc);
        MttkrpWeight(x, u, wo, n, i, q, nc);
        var d := MttkrpAt(x, u, Ones(nc), n, i, q);
        MoveAbsorbed(Weight(w, q), Weight(wo, q), At(a, i, q), d);
      }
      Sum2Ext(|a|, nc, WeightedTerm(a, b, w), Entrywise(a, c));
    }
  }

  lemma MoveAbsorbed(w: real, wo: real, a: real, d: real)
    requires w * wo == w
    ensures w * a * (wo * d) == a * (w * d)
  {
    assert w * a * (wo * d) == a * ((w * wo) * d);
  }

  /** The first nc weights are the same. */
  predicate SameWeights(w: Vec, wo: Vec, nc: nat)
  {
    forall r: nat :: r < nc ==> Weight(w, r) == Weight(wo, r)
  }

  /** Multiplying by the overlap's weights does not change the model's. */
  predicate Absorbed(w: Vec, wo: Vec, nc: nat)
  {
    forall r: nat :: r < nc ==> Weight(w, r) * Weight(wo, r) == Weight(w, r)
  }

  // ----- the weights of the overlap

  /** A tensor with one entry, of value one. */
  function OneEntry(nc: nat): (p: Problem)
    ensures p.Valid()
  {
    var p := Problem([Entry([0], 1.0)], [1], nc, 1.0, 0.0);
    assert p.x[..0] == [];
    p
  }

  /** Its factors with the single component r. */
  function OneComponent(nc: nat, r: nat): (u: seq<Mat>)
    ensures FactorsFit(u, [1], nc)
  {
    [[seq(nc, q => if q == r then 1.0 else 0.0)]]
  }

  lemma OneEntryData(nc: nat, r: nat, w: Vec)
    ensures forall q: nat :: q < nc ==>
              && At(OneComponent(nc, r)[0], 0, q) == (if q == r then 1.0 else 0.0)
              && At(OneEntry(nc).DataPart(OneComponent(nc, r), w, 0), 0, q) == Weight(w, q)
  {
    var x, u := OneEntry(nc).x, OneComponent(nc, r);
    assert x[..0] == [];
    forall q: nat | q < nc ensures MttkrpAt(x, u, w, 0, 0, q) == Weight(w, q) {
      assert SkipProd(u, [0], 0, q, 1) == SkipProd(u, [0], 0, q, 0) == 1.0;
      assert Term(x[0], u, w, 0, q) == 1.0 * Weight(w, q) * 1.0;
    }
  }

  lemma OneEntryShortcut(nc: nat, r: nat, w: Vec, wo: Vec)
    requires r < nc
    ensures InnerProd(OneComponent(nc, r)[0], OneEntry(nc).DataPart(OneComponent(nc, r), wo, 0), w, nc)
         == Weight(w, r) * Weight(wo, r)
  {
    var u := OneComponent(nc, r);
    var a, b := u[0], OneEntry(nc).DataPart(u, wo, 0);
    OneEntryData(nc, r, wo);
    hide Weight, At;
    SumPoint(nc, r, Row(WeightedTerm(a, b, w), 0));
    SumPoint(1, 0, RowSums(nc, WeightedTerm(a, b, w)));
  }

  lemma OneEntryInner(nc: nat, r: nat, w: Vec)
    requires r < nc
    ensures EntrySum(OneEntry(nc).x, Model(OneComponent(nc, r), w, nc)) == Weight(w, r)
  {
    var u := OneComponent(nc, r);
    var a, b := u[0], OneEntry(nc).DataPart(u, w, 0);
    OneEntry(nc).InnerByTrick(u, w);
    OneEntryData(nc, r, w);
    hide Weight, At;
    SumPoint(nc, r, Row(Entrywise(a, b), 0));
    SumPoint(1, 0, RowSums(nc, Entrywise(a, b)));
  }

  lemma OneEntryExcess(nc: nat, r: nat, w: Vec, wo: Vec)
    requires r < nc
    ensures OneEntry(nc).nc == nc && FactorsFit(OneComponent(nc, r), OneEntry(nc).dims, nc)
    ensures OneEntry(nc).ShortcutExcess(OneComponent(nc, r), w, wo) == Weight(w, r) * Weight(wo, r) - Weight(w, r)
  {
    OneEntryInner(nc, r, w);
    OneEntryShortcut(nc, r, w, wo);
    hide InnerProd, EntrySum, Weight, Model, Problem.DataPart;
    var u := OneComponent(nc, r);
    assert |u| == 1;
  }

  /** `value` and `gradient` are right for all data and factors exactly when the overlap has the
      model's weights. */
  lemma OverlapIsExact(w: Vec, wo: Vec, nc: nat)
    ensures SameWeights(w, wo, nc) <==>
            forall p: Problem, u: seq<Mat> :: p.Valid() && p.nc == nc && FactorsFit(u, p.dims, nc) ==>
              p.OverlapExcess(u, w, wo) == 0.0
    ensures SameWeights(w, wo, nc) <==>
            forall p: Problem, u: seq<Mat>, n: nat ::
              p.Valid() && p.nc == nc && FactorsFit(u, p.dims, nc) && n < |u| ==>
              p.GradientFrom(u, w, wo, n) == p.Gradient(u, w, n)
  {
    if SameWeights(w, wo, nc) {
      forall p: Problem, u: seq<Mat> | p.Valid() && p.nc == nc && FactorsFit(u, p.dims, nc)
        ensures p.OverlapExcess(u, w, wo) == 0.0
        ensures forall n :: 0 <= n < |u| ==> p.GradientFrom(u, w, wo, n) == p.Gradient(u, w, n)
      {
        p.OverlapExact(u, w, wo);
      }
    } else {
      var r: nat :| r < nc && Weight(w, r) != Weight(wo, r);
      var p, u := OneEntry(nc), OneComponent(nc, r);
      OneEntryInner(nc, r, w);
      OneEntryInner(nc, r, wo);
      assert p.OverlapExcess(u, w, wo) != 0.0;
      OneEntryData(nc, r, w);
      OneEntryData(nc, r, wo);
      assert At(p.GradientFrom(u, w, wo, 0), 0, r) != At(p.Gradient(u, w, 0), 0, r);
    }
  }

  /** `value_and_gradient` returns the objective for all data and factors exactly when the overlap's
      weights do not change the model's. */
  lemma ShortcutIsExact(w: Vec, wo: Vec, nc: nat)
    ensures Absorbed(w, wo, nc) <==>
            forall p: Problem, u: seq<Mat> :: p.Valid() && p.nc == nc && FactorsFit(u, p.dims, nc) ==>
              p.ShortcutExcess(u, w, wo) == 0.0
  {
    if Absorbed(w, wo, nc) {
      forall p: Problem, u: seq<Mat> | p.Valid() && p.nc == nc && FactorsFit(u, p.dims, nc)
        ensures p.ShortcutExcess(u, w, wo) == 0.0
      {
        p.ShortcutExact(u, w, wo);
      }
    } else {
      var r: nat :| r < nc && Weight(w, r) * Weight(wo, r) != Weight(w, r);
      var p, u := OneEntry(nc), OneComponent(nc, r);
      OneEntryExcess(nc, r, w, wo);
      hide Problem.ShortcutExcess, OneEntry, Weight, Problem.Valid;
      assert p.Valid() && p.nc == nc && FactorsFit(u, p.dims, nc) && p.ShortcutExcess(u, w, wo) != 0.0;
    }
  }

  /** An overlap that aliases its argument has the model's weights: the shortcut then needs weights of
      zero or one. An overlap of its own has weights one: the shortcut is always right, but value and
      gradient need weights of one. */
  lemma OverlapKinds(w: Vec, nc: nat)
    ensures SameWeights(w, w, nc)
    ensures Absorbed(w, w, nc) <==> forall r: nat :: r < nc ==> Weight(w, r) == 0.0 || Weight(w, r) == 1.0
    ensures Absorbed(w, Ones(nc), nc)
    ensures SameWeights(w, Ones(nc), nc) <==> forall r: nat :: r < nc ==> Weight(w, r) == 1.0
  {
    assert forall r: nat :: r < nc ==> Weight(Ones(nc), r) == 1.0;
    forall r: nat | r < nc
      ensures Weight(w, r) * Weight(w, r) == Weight(w, r) <==> Weight(w, r) == 0.0 || Weight(w, r) == 1.0
    {
      Idempotent(Weight(w, r));
    }
  }

  lemma Idempotent(k: real)
    ensures k * k == k <==> k == 0.0 || k == 1.0
  {
    assert k * k - k == k * (k - 1.0);
  }

  /** Concretely, one entry and one component of weight two: with an aliasing overlap the shortcut
      doubles <X,M>; with an overlap of its own `value` halves it. */
  lemma WeightsGoWrong()
    ensures OneEntry(1).ShortcutExcess(OneComponent(1, 0), [2.0], [2.0]) == 2.0
    ensures OneEntry(1).OverlapExcess(OneComponent(1, 0), [2.0], Ones(1)) == -1.0
  {
    OneEntryShortcut(1, 0, [2.0], [2.0]);
    OneEntryInner(1, 0, [2.0]);
    OneEntryInner(1, 0, Ones(1));
  }

  /** w_r w_q times the Gram entries of the first k modes but n. */
  function PartialHada(u: seq<Mat>, w: Vec, n: nat, k: nat): (nat, nat) -> real
    requires k <= |u|
  {
    (r: nat, q: nat) => (Weight(w, r) * Weight(w, q)) * GramProd(u, u, n, r, q, k)
  }

  ghost predicate IsTable(m: Mat, nc: nat, f: (nat, nat) -> real)
  {
    IsMat(m, nc, nc) && forall r: nat, q: nat :: r < nc && q < nc ==> At(m, r, q) == f(r, q)
  }

  lemma HadaStep(h: Mat, g: Mat, u: seq<Mat>, w: Vec, n: nat, m: nat, nc: nat)
    requires m < |u| && IsTable(h, nc, PartialHada(u, w, n, m)) && g == Gram(u[m], nc)
    ensures m == n ==> IsTable(h, nc, PartialHada(u, w, n, m + 1))
    ensures m != n ==> IsTable(Hadamard(h, g, nc), nc, PartialHada(u, w, n, m + 1))
  {
    forall r: nat, q: nat | r < nc && q < nc
      ensures PartialHada(u, w, n, m + 1)(r, q)
           == if m == n then At(h, r, q) else At(h, r, q) * At(g, r, q)
    {
      Regroup(Weight(w, r) * Weight(w, q), GramProd(u, u, n, r, q, m), Cross(u[m], u[m], r, q));
      assert At(h, r, q) == PartialHada(u, w, n, m)(r, q);
    }
  }

  class CpModel {
    const problem: Problem
    const nrmXSq: real
    const w: real
    var gram: seq<Mat>
    var hada: seq<Mat>

    ghost predicate Valid()
      reads this
    {
      && problem.Valid() && w == problem.scale && nrmXSq == SumOfSquares(problem.x)
      && |gram| == |hada| == |problem.dims|
    }

    /** The caches belong to the factors u with weights v. */
    ghost predicate Updated(u: seq<Mat>, v: Vec)
      requires Valid()
      reads this
    {
      && FactorsFit(u, problem.dims, problem.nc) && |v| == problem.nc
      && (forall n :: 0 <= n < |u| ==> gram[n] == Gram(u[n], problem.nc))
      && (forall n :: 0 <= n < |u| ==> IsTable(hada[n], problem.nc, Hada(u, v, n)))
    }

    constructor (problem: Problem)
      requires problem.Valid()
      ensures Valid() && this.problem == problem
    {
      this.problem := problem;
      this.nrmXSq := SumOfSquares(problem.x);
      this.w := 1.0 / SumOfSquares(problem.x);
      gram := seq(|problem.dims|, _ => []);
      hada := seq(|problem.dims|, _ => []);
      new;
      ScaleUnique(SumOfSquares(problem.x), problem.scale);
    }

    lemma ScaleUnique(s: real, k: real)
      requires s != 0.0 && k * s == 1.0
      ensures 1.0 / s == k
    {
      assert (1.0 / s) * s == 1.0;
      assert (1.0 / s - k) * s == 0.0;
    }

    /** Gram matrices of all modes, then their Hadamard products leaving one out. */
    method Update(u: seq<Mat>, v: Vec)
      requires Valid() && FactorsFit(u, problem.dims, problem.nc) && |v| == problem.nc
      modifies this
      ensures Valid() && Updated(u, v)
    {
      var nd := |problem.dims|;
      var n := 0;
      while n < nd
        invariant 0 <= n <= nd && Valid()
        invariant forall k :: 0 <= k < n ==> gram[k] == Gram(u[k], problem.nc)
      {
        gram := gram[n := Gram(u[n], problem.nc)];
        n := n + 1;
      }
      n := 0;
      while n < nd
        invariant 0 <= n <= nd && Valid()
        invariant forall k :: 0 <= k < nd ==> gram[k] == Gram(u[k], problem.nc)
        invariant forall k :: 0 <= k < n ==> IsTable(hada[k], problem.nc, Hada(u, v, k))
      {
        var h := MakeHada(u, v, n);
        hada := hada[n := h];
        n := n + 1;
      }
    }

    method MakeHada(u: seq<Mat>, v: Vec, n: nat) returns (h: Mat)
      requires Valid() && FactorsFit(u, problem.dims, problem.nc) && |v| == problem.nc && n < |u|
      requires forall k :: 0 <= k < |u| ==> gram[k] == Gram(u[k], problem.nc)
      ensures IsTable(h, problem.nc, Hada(u, v, n))
    {
      h := Oprod(v);
      var m := 0;
      while m < |u|
        invariant 0 <= m <= |u| && IsTable(h, problem.nc, PartialHada(u, v, n, m))
      {
        HadaStep(h, gram[m], u, v, n, m, problem.nc);
        if n != m {
          h := Hadamard(h, gram[m], problem.nc);
        }
        m := m + 1;
      }
    }

    /** The squared norm of the model from the caches of the last mode. */
    lemma CachedNorm(u: seq<Mat>, v: Vec)
      requires Valid() && Updated(u, v)
      ensures InnerProd(gram[|u| - 1], hada[|u| - 1], Ones(problem.nc), problem.nc)
           == Inner(problem.dims, Model(u, v, problem.nc), Model(u, v, problem.nc))
    {
      var n, nc := |u| - 1, problem.nc;
      InnerProdOnes(gram[n], hada[n], nc);
      NormIdentity(u, v, n, problem.dims, nc);
      forall r: nat, q: nat | r < nc && q < nc
        ensures Entrywise(gram[n], hada[n])(r, q) == GramTimesHada(u, v, n)(r, q)
      {
        assert At(hada[n], r, q) == Hada(u, v, n)(r, q);
      }
      Sum2Ext(nc, nc, Entrywise(gram[n], hada[n]), GramTimesHada(u, v, n));
    }

    /** What the cached norms and any inner product give: off by twice the inner product's error. */
    lemma CachedResidual(u: seq<Mat>, v: Vec, nrmMSq: real, ip: real, excess: real)
      requires Valid() && Updated(u, v)
      requires nrmMSq == InnerProd(gram[|u| - 1], hada[|u| - 1], Ones(problem.nc), problem.nc)
      requires ip - EntrySum(problem.x, Model(u, v, problem.nc)) == excess
      ensures nrmXSq + nrmMSq - 2.0 * ip == Residual(problem.x, problem.dims, u, v, problem.nc) - 2.0 * excess
    {
      CachedNorm(u, v);
      ResidualExpand(problem.x, problem.dims, u, v, problem.nc);
    }

    lemma ValueFromNorms(u: seq<Mat>, v: Vec, nrmMSq: real, ip: real, excess: real, f: real)
      requires Valid() && Updated(u, v)
      requires nrmMSq == InnerProd(gram[|u| - 1], hada[|u| - 1], Ones(problem.nc), problem.nc)
      requires ip - EntrySum(problem.x, Model(u, v, problem.nc)) == excess
      requires f == w * (nrmXSq + nrmMSq - 2.0 * ip)
      ensures WithPenalty(u, f, |u|) == problem.Objective(u, v) - 2.0 * w * excess
    {
      hide InnerProd, EntrySum, Residual, Model, NormFsq;
      CachedResidual(u, v, nrmMSq, ip, excess);
      ScaledDifference(w, Residual(problem.x, problem.dims, u, v, problem.nc), excess, nrmXSq + nrmMSq - 2.0 * ip);
    }

    /** The objective from cached Gram matrices, with <X,M> taken from the overlap's weights. */
    method Value(u: seq<Mat>, v: Vec, vo: Vec) returns (f: real)
      requires Valid() && Updated(u, v)
      ensures f == problem.Objective(u, v) - 2.0 * w * problem.OverlapExcess(u, v, vo)
      ensures f == problem.Objective(u, v)
                   - 2.0 * problem.scale * (EntrySum(problem.x, Model(u, vo, problem.nc))
                                            - EntrySum(problem.x, Model(u, v, problem.nc)))
    {
      hide InnerProd, EntrySum, Residual, Model, NormFsq, Problem.Objective;
      var nd := |problem.dims|;
      var nrmMSq := InnerProd(gram[nd - 1], hada[nd - 1], Ones(problem.nc), problem.nc);
      var ip := EntrySum(problem.x, Model(u, vo, problem.nc));
      f := w * (nrmXSq + nrmMSq - 2.0 * ip);
      ValueFromNorms(u, v, nrmMSq, ip, problem.OverlapExcess(u, v, vo), f);
      if problem.penalty != 0.0 {
        f := AddPenalty(u, f);
      }
    }

    /** The objective with the penalty of the first n factors added. */
    function WithPenalty(u: seq<Mat>, start: real, n: nat): real
      requires n <= |u|
    {
      start + w * problem.penalty * problem.FactorNorms(u, n)
    }

    method AddPenalty(u: seq<Mat>, start: real) returns (f: real)
      requires Valid() && |u| == |problem.dims|
      ensures f == WithPenalty(u, start, |u|)
    {
      f := start;
      var n := 0;
      while n < |u|
        invariant 0 <= n <= |u|
        invariant f == WithPenalty(u, start, n)
      {
        f := PenaltyOf(u, n, start, f);
        n := n + 1;
      }
    }

    lemma DistributeReal(k: real, a: real, b: real)
      ensures k * (a + b) == k * a + k * b
    {
    }

    /** MTTKRP of every mode with the overlap's weights, turned into the gradient mode by mode. */
    method Gradient(u: seq<Mat>, v: Vec, vo: Vec) returns (g: seq<Mat>)
      requires Valid() && Updated(u, v)
      ensures |g| == |u| && forall n :: 0 <= n < |u| ==> g[n] == problem.GradientFrom(u, v, vo, n)
    {
      var nd := |problem.dims|;
      g := seq(nd, n requires 0 <= n < nd => problem.DataPart(u, vo, n));
      var n := 0;
      while n < nd
        invariant 0 <= n <= nd == |g|
        invariant forall k :: 0 <= k < n ==> g[k] == problem.GradientFrom(u, v, vo, k)
        invariant forall k :: n <= k < nd ==> g[k] == problem.DataPart(u, vo, k)
      {
        var next := GradientOfMode(u, v, vo, n, g[n]);
        g := g[n := next];
        n := n + 1;
      }
    }

    method GradientOfMode(u: seq<Mat>, v: Vec, vo: Vec, n: nat, mttkrp: Mat) returns (g: Mat)
      requires Valid() && Updated(u, v) && n < |u| && mttkrp == problem.DataPart(u, vo, n)
      ensures g == problem.GradientFrom(u, v, vo, n)
    {
      g := Gemm(2.0 * w, u[n], hada[n], -2.0 * w, mttkrp, problem.nc);
      if problem.penalty != 0.0 {
        g := Plus(g, u[n], problem.penalty * 2.0 * w, problem.nc);
      }
      GemmIsGradient(u, v, vo, n, mttkrp, g);
    }

    lemma GemmIsGradient(u: seq<Mat>, v: Vec, vo: Vec, n: nat, mttkrp: Mat, g: Mat)
      requires Valid() && Updated(u, v) && n < |u| && mttkrp == problem.DataPart(u, vo, n)
      requires var k := Gemm(2.0 * w, u[n], hada[n], -2.0 * w, mttkrp, problem.nc);
               g == if problem.penalty != 0.0 then Plus(k, u[n], problem.penalty * 2.0 * w, problem.nc) else k
      ensures g == problem.GradientFrom(u, v, vo, n)
    {
      var nc := problem.nc;
      forall i: nat, q: nat | i < |u[n]| && q < nc
        ensures At(g, i, q) == At(problem.GradientFrom(u, v, vo, n), i, q)
      {
        CachedProduct(u, v, n, i, q);
      }
      SameEntries(g, problem.GradientFrom(u, v, vo, n), |u[n]|, nc);
    }

    lemma CachedProduct(u: seq<Mat>, v: Vec, n: nat, i: nat, q: nat)
      requires Valid() && Updated(u, v) && n < |u| && i < |u[n]| && q < problem.nc
      ensures At(MatMul(u[n], Entries(hada[n]), problem.nc), i, q) == At(problem.Product(u, v, n), i, q)
    {
      SumExt(problem.nc, MulTerm(u[n], Entries(hada[n]), i, q), MulTerm(u[n], Hada(u, v, n), i, q));
    }

    lemma ScaledDifference(k: real, a: real, b: real, d: real)
      requires d == a - 2.0 * b
      ensures k * d == k * a - 2.0 * k * b
    {
    }

    /** Value and gradient in one pass, with <X,M> from the last MTTKRP. */
    method ValueAndGradient(u: seq<Mat>, v: Vec, vo: Vec) returns (f: real, g: seq<Mat>)
      requires Valid() && Updated(u, v)
      ensures f == problem.Objective(u, v) - 2.0 * w * problem.ShortcutExcess(u, v, vo)
      ensures f == problem.Objective(u, v)
                   - 2.0 * problem.scale
                     * (InnerProd(u[|u| - 1], MttkrpMat(problem.x, u, vo, |u| - 1, problem.dims[|u| - 1], problem.nc),
                                  v, problem.nc)
                        - EntrySum(problem.x, Model(u, v, problem.nc)))
      ensures |g| == |u| && forall n :: 0 <= n < |u| ==> g[n] == problem.GradientFrom(u, v, vo, n)
    {
      hide InnerProd, EntrySum, Residual, MttkrpAt, NormFsq, Model, Problem.Objective;
      var nd := |problem.dims|;
      g := seq(nd, n requires 0 <= n < nd => problem.DataPart(u, vo, n));
      var ip := InnerProd(u[nd - 1], g[nd - 1], v, problem.nc);
      var nrmMSq := InnerProd(gram[nd - 1], hada[nd - 1], Ones(problem.nc), problem.nc);
      f := w * (nrmXSq + nrmMSq - 2.0 * ip);
      ValueFromNorms(u, v, nrmMSq, ip, problem.ShortcutExcess(u, v, vo), f);
      f, g := FinishModes(u, v, vo, f, g);
    }

    method PenaltyOf(u: seq<Mat>, n: nat, start: real, before: real) returns (f: real)
      requires Valid() && n < |u| && before == WithPenalty(u, start, n)
      ensures f == WithPenalty(u, start, n + 1)
    {
      f := before;
      if problem.penalty != 0.0 {
        f := f + w * problem.penalty * NormFsq(u[n], problem.nc);
      }
      DistributeReal(w * problem.penalty, problem.FactorNorms(u, n), NormFsq(u[n], problem.nc));
    }

    method FinishModes(u: seq<Mat>, v: Vec, vo: Vec, start: real, mttkrp: seq<Mat>) returns (f: real, g: seq<Mat>)
      requires Valid() && Updated(u, v)
      requires |mttkrp| == |u| && forall n :: 0 <= n < |u| ==> mttkrp[n] == problem.DataPart(u, vo, n)
      ensures f == WithPenalty(u, start, |u|)
      ensures |g| == |u| && forall n :: 0 <= n < |u| ==> g[n] == problem.GradientFrom(u, v, vo, n)
    {
      assert WithPenalty(u, start, 0) == start;
      hide WithPenalty;
      f, g := start, mttkrp;
      var n := 0;
      while n < |u|
        invariant 0 <= n <= |u| == |g|
        invariant f == WithPenalty(u, start, n)
        invariant forall k :: 0 <= k < n ==> g[k] == problem.GradientFrom(u, v, vo, k)
        invariant forall k :: n <= k < |u| ==> g[k] == problem.DataPart(u, vo, k)
      {
        var next := GradientOfMode(u, v, vo, n, g[n]);
        f := PenaltyOf(u, n, start, f);
        g := g[n := next];
        n := n + 1;
      }
    }
  }
}
