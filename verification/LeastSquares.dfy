/** Why one alternating step cannot make the fit worse. */
module LeastSquares {
  import opened Arithmetic
  import opened Layout
  import opened Vectors
  import opened Sums
  import opened Mttkrp
  import opened KtensorAlgebra
  import opened FactorMatrix

  // ----- weights and columns

  /** The weights of a model can be moved into any one factor. */
  lemma WeightsIntoFactor(u: seq<Mat>, w: Vec, n: nat, dims: Coord, nc: nat, c: Coord)
    requires FactorsFit(u, dims, nc) && n < |u| && |w| == nc && InBounds(c, dims)
    ensures ModelAt(u, w, nc, c) == ModelAt(u[n := ColScaled(u[n], w)], Ones(nc), nc, c)
  {
    assert u[n := u[n]] == u;
    ModelReplaced(u, w, n, u[n], nc, c);
    ModelReplaced(u, Ones(nc), n, ColScaled(u[n], w), nc, c);
    forall r: nat | r < nc
      ensures ReplacedTerm(u, w, n, u[n], c)(r) == ReplacedTerm(u, Ones(nc), n, ColScaled(u[n], w), c)(r)
    {
      MoveWeight(Weight(w, r), SkipProd(u, c, n, r, |u|), At(u[n], c[n], r));
    }
    SumExt(nc, ReplacedTerm(u, w, n, u[n], c), ReplacedTerm(u, Ones(nc), n, ColScaled(u[n], w), c));
  }

  lemma MoveWeight(w: real, s: real, a: real)
    ensures w * (s * a) == 1.0 * (s * (a * w))
  {
  }

  lemma ResidualWithWeights(x: seq<Entry>, u: seq<Mat>, w: Vec, n: nat, dims: Coord, nc: nat)
    requires FactorsFit(u, dims, nc) && n < |u| && |w| == nc
    ensures Residual(x, dims, u, w, nc) == Residual(x, dims, u[n := ColScaled(u[n], w)], Ones(nc), nc)
  {
    var u' := u[n := ColScaled(u[n], w)];
    var a, b := Minus(Data(x), Model(u, w, nc)), Minus(Data(x), Model(u', Ones(nc), nc));
    forall c | InBounds(c, dims) ensures a(c) == b(c) {
      WeightsIntoFactor(u, w, n, dims, nc, c);
    }
    InnerExt(dims, a, a, b, b);
  }

  function Inverse(w: Vec): (v: Vec)
    requires forall r :: 0 <= r < |w| ==> w[r] != 0.0
    ensures |v| == |w| && forall r :: 0 <= r < |w| ==> v[r] == 1.0 / w[r]
  {
    seq(|w|, r requires 0 <= r < |w| => 1.0 / w[r])
  }

  lemma ScaleBack(a: real, w: real)
    requires w != 0.0
    ensures (a * (1.0 / w)) * w == a
  {
    assert (1.0 / w) * w == 1.0;
    assert (a * (1.0 / w)) * w == a * ((1.0 / w) * w);
  }

  /** Dividing the columns by the weights and multiplying by them again changes nothing. */
  lemma ScaleRoundTrip(a: Mat, w: Vec)
    requires IsMat(a, |a|, |w|) && forall r :: 0 <= r < |w| ==> w[r] != 0.0
    ensures ColScaled(ColScaled(a, Inverse(w)), w) == a
  {
    var b := ColScaled(ColScaled(a, Inverse(w)), w);
    forall i: nat, r: nat | i < |a| && r < |w| ensures At(b, i, r) == At(a, i, r) {
      ScaleBack(At(a, i, r), w[r]);
    }
    SameEntries(b, a, |a|, |w|);
  }

  // ----- the solve step

  /** The matrix whose inverse the solve step applies: the Hadamard product of the other Gram
      matrices, shifted by the penalty on the diagonal. */
  function Regularised(h: (nat, nat) -> real, penalty: real): (nat, nat) -> real
  {
    (r: nat, q: nat) => h(r, q) + if r == q then penalty else 0.0
  }

  /** a (H + penalty I) = mode-n MTTKRP. */
  ghost predicate Solves(a: Mat, x: seq<Entry>, u: seq<Mat>, n: nat, dims: Coord, nc: nat, penalty: real)
    requires n < |u| == |dims|
  {
    && IsMat(a, dims[n], nc)
    && forall i: nat, q: nat :: i < dims[n] && q < nc ==>
         At(MatMul(a, Regularised(Hada(u, Ones(nc), n), penalty), nc), i, q) == MttkrpAt(x, u, Ones(nc), n, i, q)
  }

  lemma ShiftedProduct(a: Mat, h: (nat, nat) -> real, penalty: real, nc: nat, i: nat, q: nat)
    requires i < |a| && q < nc
    ensures At(MatMul(a, Regularised(h, penalty), nc), i, q) == At(MatMul(a, h, nc), i, q) + penalty * At(a, i, q)
  {
    var point := (r: nat) => if r == q then penalty * At(a, i, q) else 0.0;
    forall r: nat | r < nc ensures MulTerm(a, Regularised(h, penalty), i, q)(r) == MulTerm(a, h, i, q)(r) + point(r) {
      if r == q {
        assert At(a, i, q) * (h(q, q) + penalty) == At(a, i, q) * h(q, q) + penalty * At(a, i, q);
      }
    }
    SumAdd(nc, MulTerm(a, h, i, q), point, MulTerm(a, Regularised(h, penalty), i, q));
    SumPoint(nc, q, point);
  }

  /** The normal equations, tested against a direction v. */
  lemma NormalEquations(a: Mat, x: seq<Entry>, u: seq<Mat>, n: nat, dims: Coord, nc: nat, penalty: real, v: Mat)
    requires n < |u| == |dims| && Solves(a, x, u, n, dims, nc, penalty)
    ensures Frob(MatMul(a, Hada(u, Ones(nc), n), nc), v, nc) + Penalised(penalty, Frob(a, v, nc))
         == Frob(MttkrpMat(x, u, Ones(nc), n, dims[n], nc), v, nc)
  {
    var ah := MatMul(a, Hada(u, Ones(nc), n), nc);
    var b := MttkrpMat(x, u, Ones(nc), n, dims[n], nc);
    forall i: nat, q: nat | i < |a| && q < nc ensures At(b, i, q) == 1.0 * At(ah, i, q) + penalty * At(a, i, q) {
      ShiftedProduct(a, Hada(u, Ones(nc), n), penalty, nc, i, q);
    }
    FrobCombine(ah, a, b, 1.0, penalty, v, nc);
  }

  /** A penalty times a squared norm. */
  function Penalised(penalty: real, norm: real): real
  {
    penalty * norm
  }

  function Difference(s: Mat, t: Mat, rows: nat, nc: nat): (d: Mat)
    ensures IsMat(d, rows, nc)
    ensures forall i: nat, q: nat :: i < rows && q < nc ==> At(d, i, q) == 1.0 * At(s, i, q) + -1.0 * At(t, i, q)
  {
    Tabulate(rows, nc, (i: nat, q: nat) => 1.0 * At(s, i, q) + -1.0 * At(t, i, q))
  }

  lemma ProductOfDifference(s: Mat, t: Mat, h: (nat, nat) -> real, rows: nat, nc: nat, i: nat, q: nat)
    requires |s| == |t| == rows && i < rows && q < nc
    ensures At(MatMul(Difference(s, t, rows, nc), h, nc), i, q)
         == 1.0 * At(MatMul(s, h, nc), i, q) + -1.0 * At(MatMul(t, h, nc), i, q)
  {
    var d := Difference(s, t, rows, nc);
    var minus := (r: nat) => -1.0 * MulTerm(t, h, i, q)(r);
    forall r: nat | r < nc ensures MulTerm(d, h, i, q)(r) == MulTerm(s, h, i, q)(r) + minus(r) {
      DifferenceTerm(s, t, h, rows, nc, i, q, r);
    }
    SumScale(nc, -1.0, MulTerm(t, h, i, q), minus);
    SumAdd(nc, MulTerm(s, h, i, q), minus, MulTerm(d, h, i, q));
  }

  lemma DifferenceTerm(s: Mat, t: Mat, h: (nat, nat) -> real, rows: nat, nc: nat, i: nat, q: nat, r: nat)
    requires i < rows && r < nc
    ensures MulTerm(Difference(s, t, rows, nc), h, i, q)(r) == MulTerm(s, h, i, q)(r) + -1.0 * MulTerm(t, h, i, q)(r)
  {
    hide At;
    SplitFactor(At(s, i, r), At(t, i, r), At(Difference(s, t, rows, nc), i, r), h(r, q));
  }

  lemma SplitFactor(a: real, b: real, d: real, h: real)
    requires d == 1.0 * a + -1.0 * b
    ensures d * h == a * h + -1.0 * (b * h)
  {
  }

  /** With a positive penalty the normal equations have only one solution. */
  lemma PenaltyDetermines(s: Mat, t: Mat, x: seq<Entry>, u: seq<Mat>, n: nat, dims: Coord, nc: nat, penalty: real)
    requires FactorsFit(u, dims, nc) && n < |u| && penalty > 0.0
    requires Solves(s, x, u, n, dims, nc, penalty) && Solves(t, x, u, n, dims, nc, penalty)
    ensures s == t
  {
    var h, d := Hada(u, Ones(nc), n), Difference(s, t, dims[n], nc);
    DifferenceHasNoNorm(s, t, x, u, n, dims, nc, penalty);
    forall i: nat, q: nat | i < dims[n] && q < nc ensures At(s, i, q) == At(t, i, q) {
      NormZero(d, nc, i, q);
    }
    SameEntries(s, t, dims[n], nc);
  }

  /** The products of two solutions differ along their difference by a squared model norm. */
  lemma CurvatureOfDifference(s: Mat, t: Mat, u: seq<Mat>, n: nat, dims: Coord, nc: nat)
    requires FactorsFit(u, dims, nc) && n < |u| && IsMat(s, dims[n], nc) && IsMat(t, dims[n], nc)
    ensures var h, d := Hada(u, Ones(nc), n), Difference(s, t, dims[n], nc);
            Frob(MatMul(s, h, nc), d, nc) - Frob(MatMul(t, h, nc), d, nc) >= 0.0
  {
    var h, d := Hada(u, Ones(nc), n), Difference(s, t, dims[n], nc);
    forall i: nat, q: nat | i < dims[n] && q < nc
      ensures At(MatMul(d, h, nc), i, q) == 1.0 * At(MatMul(s, h, nc), i, q) + -1.0 * At(MatMul(t, h, nc), i, q)
    {
      ProductOfDifference(s, t, h, dims[n], nc, i, q);
    }
    hide At, Frob, Hada, MulTerm, Inner, Difference;
    FrobCombine(MatMul(s, h, nc), MatMul(t, h, nc), MatMul(d, h, nc), 1.0, -1.0, d, nc);
    ModelsDifferInOne(u, Ones(nc), n, d, d, dims, nc);
    InnerSquare(dims, Model(u[n := d], Ones(nc), nc));
  }

  lemma DifferenceHasNoNorm(s: Mat, t: Mat, x: seq<Entry>, u: seq<Mat>, n: nat, dims: Coord, nc: nat, penalty: real)
    requires FactorsFit(u, dims, nc) && n < |u| && penalty > 0.0
    requires Solves(s, x, u, n, dims, nc, penalty) && Solves(t, x, u, n, dims, nc, penalty)
    ensures Frob(Difference(s, t, dims[n], nc), Difference(s, t, dims[n], nc), nc) == 0.0
  {
    var h, d := Hada(u, Ones(nc), n), Difference(s, t, dims[n], nc);
    CurvatureOfDifference(s, t, u, n, dims, nc);
    FrobCombine(s, t, d, 1.0, -1.0, d, nc);
    hide Frob, MatMul, MttkrpMat, Inner, Hada, MttkrpAt, At, Difference;
    FrobNonNegative(d, nc);
    NormalEquations(s, x, u, n, dims, nc, penalty, d);
    NormalEquations(t, x, u, n, dims, nc, penalty, d);
    hide Solves, Penalised;
    NothingLeft(penalty, Frob(MatMul(s, h, nc), d, nc), Frob(MatMul(t, h, nc), d, nc), Frob(s, d, nc),
                Frob(t, d, nc), Frob(MttkrpMat(x, u, Ones(nc), n, dims[n], nc), d, nc));
  }

  lemma NothingLeft(penalty: real, hs: real, ht: real, fs: real, ft: real, b: real)
    requires penalty > 0.0 && hs + Penalised(penalty, fs) == b && ht + Penalised(penalty, ft) == b
    requires hs - ht >= 0.0 && fs - ft >= 0.0
    ensures fs - ft == 0.0
  {
    assert (hs - ht) + penalty * (fs - ft) == 0.0;
    if fs - ft > 0.0 {
      PositiveProduct(penalty, fs - ft, penalty * (fs - ft));
    }
  }

  /** Squared residual of the unit-weight model with factor n equal to a, plus the penalty on a. */
  function ModeObjective(x: seq<Entry>, dims: Coord, u: seq<Mat>, n: nat, a: Mat, nc: nat, penalty: real): real
    requires n < |u|
  {
    Residual(x, dims, u[n := a], Ones(nc), nc) + Penalised(penalty, NormFsq(a, nc))
  }

  lemma Compare(p: real, res: real, res': real, ah: real, bv: real, q: real, aa: real, av: real, vv: real, cc: real)
    requires p >= 0.0 && vv >= 0.0 && q >= 0.0 && cc == aa + 2.0 * av + vv
    requires ah + Penalised(p, av) == bv && res' == res + 2.0 * (ah - bv) + q
    ensures res' + Penalised(p, cc) >= res + Penalised(p, aa)
  {
    assert p * vv >= 0.0;
    assert p * cc == p * aa + 2.0 * (p * av) + p * vv;
    assert ah - bv == -(p * av);
    assert res' + p * cc == res + p * aa + q + p * vv;
  }

  lemma ResidualAlong(x: seq<Entry>, dims: Coord, u: seq<Mat>, n: nat, a: Mat, v: Mat, nc: nat)
    returns (curvature: real)
    requires CoordsFit(x, dims) && FactorsFit(u, dims, nc) && n < |u|
    requires IsMat(a, dims[n], nc) && IsMat(v, dims[n], nc)
    ensures curvature >= 0.0
    ensures Residual(x, dims, u[n := MatAdd(a, v, nc)], Ones(nc), nc)
         == Residual(x, dims, u[n := a], Ones(nc), nc)
            + 2.0 * (Frob(MatMul(a, Hada(u, Ones(nc), n), nc), v, nc)
                     - Frob(MttkrpMat(x, u, Ones(nc), n, dims[n], nc), v, nc))
            + curvature
  {
    hide Residual, Frob, MatMul, MttkrpMat, Hada, Inner;
    curvature := Frob(MatMul(v, Hada(u, Ones(nc), n), nc), v, nc);
    ResidualExpansion(x, u, Ones(nc), n, a, v, dims, nc);
    ModelsDifferInOne(u, Ones(nc), n, v, v, dims, nc);
    InnerSquare(dims, Model(u[n := v], Ones(nc), nc));
  }

  /** A solution of the normal equations cannot be improved in any direction. */
  lemma NoBetterDirection(x: seq<Entry>, dims: Coord, u: seq<Mat>, n: nat, a: Mat, v: Mat, nc: nat, penalty: real)
    requires CoordsFit(x, dims) && FactorsFit(u, dims, nc) && n < |u| && penalty >= 0.0
    requires Solves(a, x, u, n, dims, nc, penalty) && IsMat(v, dims[n], nc)
    ensures ModeObjective(x, dims, u, n, a, nc, penalty)
         <= ModeObjective(x, dims, u, n, MatAdd(a, v, nc), nc, penalty)
  {
    assert IsMat(a, dims[n], nc);
    hide Residual, Frob, MatMul, MttkrpMat, Hada, Solves, NormFsq, MatAdd, Penalised;
    var q := ResidualAlong(x, dims, u, n, a, v, nc);
    NormalEquations(a, x, u, n, dims, nc, penalty, v);
    SquareOfSum(a, v, nc);
    NormNonNegative(v, nc);
    Compare(penalty, Residual(x, dims, u[n := a], Ones(nc), nc),
            Residual(x, dims, u[n := MatAdd(a, v, nc)], Ones(nc), nc),
            Frob(MatMul(a, Hada(u, Ones(nc), n), nc), v, nc), Frob(MttkrpMat(x, u, Ones(nc), n, dims[n], nc), v, nc),
            q, NormFsq(a, nc), Frob(a, v, nc), NormFsq(v, nc), NormFsq(MatAdd(a, v, nc), nc));
  }

  lemma NormNonNegative(v: Mat, nc: nat)
    ensures NormFsq(v, nc) >= 0.0
  {
    FrobNonNegative(v, nc);
  }

  /** A solution of the normal equations is optimal among all factors for that mode. */
  lemma SolutionIsOptimal(x: seq<Entry>, dims: Coord, u: seq<Mat>, n: nat, a: Mat, c: Mat, nc: nat, penalty: real)
    requires CoordsFit(x, dims) && FactorsFit(u, dims, nc) && n < |u| && penalty >= 0.0
    requires Solves(a, x, u, n, dims, nc, penalty) && IsMat(c, dims[n], nc)
    ensures ModeObjective(x, dims, u, n, a, nc, penalty) <= ModeObjective(x, dims, u, n, c, nc, penalty)
  {
    var v := Plus(c, a, -1.0, nc);
    SameEntries(MatAdd(a, v, nc), c, dims[n], nc);
    NoBetterDirection(x, dims, u, n, a, v, nc, penalty);
  }

  /** The model with a zero factor is the zero tensor. */
  lemma ZeroFactor(x: seq<Entry>, dims: Coord, u: seq<Mat>, n: nat, z: Mat, nc: nat)
    requires CoordsFit(x, dims) && Distinct(x) && FactorsFit(u, dims, nc) && n < |u|
    requires forall i: nat, r: nat :: At(z, i, r) == 0.0
    ensures Residual(x, dims, u[n := z], Ones(nc), nc) == SumOfSquares(x)
  {
    var d := Minus(Data(x), Model(u[n := z], Ones(nc), nc));
    forall c | InBounds(c, dims) ensures d(c) == Data(x)(c) {
      ModelReplaced(u, Ones(nc), n, z, nc, c);
      SumZero(nc, ReplacedTerm(u, Ones(nc), n, z, c));
    }
    InnerExt(dims, d, d, Data(x), Data(x));
    DataNorm(x, dims);
  }

  // ----- one mode update

  /** Without penalty: a model whose weighted factor n solves for mode n is no farther from the data
      than any model with the same other factors, and no farther than the zero tensor. */
  lemma UpdateImproves(x: seq<Entry>, dims: Coord, u: seq<Mat>, w: Vec, n: nat, u': seq<Mat>, w': Vec, nc: nat)
    requires CoordsFit(x, dims) && Distinct(x) && FactorsFit(u, dims, nc) && n < |u| && |w| == |w'| == nc
    requires FactorsFit(u', dims, nc) && u' == u[n := u'[n]]
    requires Solves(ColScaled(u'[n], w'), x, u, n, dims, nc, 0.0)
    ensures Residual(x, dims, u', w', nc) <= Residual(x, dims, u, w, nc)
    ensures Residual(x, dims, u', w', nc) <= SumOfSquares(x)
  {
    hide Residual;
    var a := ColScaled(u'[n], w');
    ResidualWithWeights(x, u, w, n, dims, nc);
    ResidualWithWeights(x, u', w', n, dims, nc);
    assert u'[n := a] == u[n := a];
    SolutionIsOptimal(x, dims, u, n, a, ColScaled(u[n], w), nc, 0.0);
    var zero := Tabulate(dims[n], nc, (i: nat, r: nat) => 0.0);
    ZeroFactor(x, dims, u, n, zero, nc);
    SolutionIsOptimal(x, dims, u, n, a, zero, nc, 0.0);
  }

  // ----- norms of the current model from what the sweep leaves behind

  /** <X,M> from the saved last-mode MTTKRP with weights one. */
  lemma InnerFromLastMode(x: seq<Entry>, dims: Coord, u: seq<Mat>, w: Vec, un: Mat, nc: nat)
    requires CoordsFit(x, dims) && FactorsFit(u, dims, nc) && |u| > 0 && |w| == nc
    requires un == MttkrpMat(x, u, Ones(nc), |u| - 1, dims[|u| - 1], nc)
    ensures InnerProd(un, u[|u| - 1], w, nc) == EntrySum(x, Model(u, w, nc))
  {
    var n := |u| - 1;
    var a := ColScaled(u[n], w);
    MttkrpInner(x, u, Ones(nc), n, a, dims, nc);
    forall i: nat, r: nat | i < |un| && r < nc ensures WeightedTerm(un, u[n], w)(i, r) == Entrywise(un, a)(i, r) {
      Rotate(Weight(w, r), At(un, i, r), At(u[n], i, r));
    }
    Sum2Ext(|un|, nc, WeightedTerm(un, u[n], w), Entrywise(un, a));
    SameModelSums(x, dims, u, w, n, nc);
  }

  lemma Rotate(a: real, b: real, c: real)
    ensures a * b * c == b * (c * a)
  {
  }

  lemma {:induction false} SameModelSums(x: seq<Entry>, dims: Coord, u: seq<Mat>, w: Vec, n: nat, nc: nat)
    requires CoordsFit(x, dims) && FactorsFit(u, dims, nc) && n < |u| && |w| == nc
    ensures EntrySum(x, Model(u, w, nc)) == EntrySum(x, Model(u[n := ColScaled(u[n], w)], Ones(nc), nc))
  {
    if |x| > 0 {
      SameModelSums(x[..|x| - 1], dims, u, w, n, nc);
      assert InBounds(x[|x| - 1].coo, dims);
      WeightsIntoFactor(u, w, n, dims, nc, x[|x| - 1].coo);
    }
  }

  lemma GramTimesHadaSymmetric(u: seq<Mat>, w: Vec, n: nat, r: nat, q: nat)
    requires n < |u|
    ensures GramTimesHada(u, w, n)(r, q) == GramTimesHada(u, w, n)(q, r)
  {
    hide Weight, Cross, GramProd;
    GramProdSymmetric(u, n, r, q, |u|);
    CrossSymmetric(u[n], u[n], r, q);
    assert Hada(u, w, n)(r, q) == (Weight(w, r) * Weight(w, q)) * GramProd(u, u, n, r, q, |u|);
    assert Hada(u, w, n)(q, r) == (Weight(w, q) * Weight(w, r)) * GramProd(u, u, n, q, r, |u|);
    assert GramTimesHada(u, w, n)(r, q) == Cross(u[n], u[n], r, q) * Hada(u, w, n)(r, q);
    assert GramTimesHada(u, w, n)(q, r) == Cross(u[n], u[n], q, r) * Hada(u, w, n)(q, r);
  }

  /** ||M||^2 from a matrix whose upper triangle is gram * hada * weights, whatever is below it. */
  lemma NormFromUpper(u: seq<Mat>, w: Vec, y: Mat, dims: Coord, nc: nat)
    requires FactorsFit(u, dims, nc) && |u| > 0
    requires forall r: nat, q: nat :: r <= q < nc ==> At(y, r, q) == GramTimesHada(u, w, |u| - 1)(r, q)
    ensures SumUpper(y, nc) == Inner(dims, Model(u, w, nc), Model(u, w, nc))
  {
    var n := |u| - 1;
    forall r: nat, q: nat | r < nc && q < nc ensures GramTimesHada(u, w, n)(r, q) == GramTimesHada(u, w, n)(q, r) {
      GramTimesHadaSymmetric(u, w, n, r, q);
    }
    SumUpperSpec(y, nc, GramTimesHada(u, w, n));
    NormIdentity(u, w, n, dims, nc);
  }
}
