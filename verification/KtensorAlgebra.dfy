/** A Ktensor as a tensor, and the cheap forms of its norm, its inner product with the data, and its
    dependence on one factor. */
module KtensorAlgebra {
  import opened Layout
  import opened Vectors
  import opened Sums
  import opened Mttkrp

  // ----- the model tensor

  function ModelTerm(u: seq<Mat>, w: Vec, c: Coord): nat -> real
  {
    (r: nat) => Weight(w, r) * SkipProd(u, c, |u|, r, |u|)
  }

  /** Entry of the model: the weighted sum over components of the product over modes. */
  function ModelAt(u: seq<Mat>, w: Vec, nc: nat, c: Coord): real
  {
    Sum(nc, ModelTerm(u, w, c))
  }

  function Model(u: seq<Mat>, w: Vec, nc: nat): Tensor
  {
    (c: Coord) => ModelAt(u, w, nc, c)
  }

  // ----- the data tensor

  function DataAt(x: seq<Entry>, c: Coord): real
  {
    if |x| == 0 then 0.0
    else DataAt(x[..|x| - 1], c) + if x[|x| - 1].coo == c then x[|x| - 1].val else 0.0
  }

  function Data(x: seq<Entry>): Tensor
  {
    (c: Coord) => DataAt(x, c)
  }

  /** Sum over the entries of value times g: the inner product of the data with a tensor. */
  function EntrySum(x: seq<Entry>, g: Tensor): real
  {
    if |x| == 0 then 0.0 else EntrySum(x[..|x| - 1], g) + x[|x| - 1].val * g(x[|x| - 1].coo)
  }

  function SumOfSquares(x: seq<Entry>): real
  {
    if |x| == 0 then 0.0 else SumOfSquares(x[..|x| - 1]) + x[|x| - 1].val * x[|x| - 1].val
  }

  ghost predicate Distinct(x: seq<Entry>)
  {
    forall i, j :: 0 <= i < j < |x| ==> x[i].coo != x[j].coo
  }

  function Point(e: Entry): Tensor
  {
    (c: Coord) => if e.coo == c then e.val else 0.0
  }

  lemma {:induction false} DataInner(x: seq<Entry>, dims: Coord, g: Tensor)
    requires CoordsFit(x, dims)
    ensures Inner(dims, Data(x), g) == EntrySum(x, g)
  {
    if |x| == 0 {
      TensorZero(dims, Mul(Data(x), g));
    } else {
      var k := |x| - 1;
      DataInner(x[..k], dims, g);
      assert InBounds(x[k].coo, dims);
      PointInner(x[k], dims, g);
      hide InBounds, Inner, Mul;
      InnerAdd(dims, Data(x[..k]), Point(x[k]), Data(x), g);
    }
  }

  lemma PointInner(e: Entry, dims: Coord, g: Tensor)
    requires InBounds(e.coo, dims)
    ensures Inner(dims, Point(e), g) == e.val * g(e.coo)
  {
    TensorPoint(dims, e.coo, Mul(Point(e), g));
  }

  lemma {:induction false} DataAtAbsent(x: seq<Entry>, c: Coord)
    requires forall i :: 0 <= i < |x| ==> x[i].coo != c
    ensures DataAt(x, c) == 0.0
  {
    if |x| > 0 {
      DataAtAbsent(x[..|x| - 1], c);
    }
  }

  lemma {:induction false} DataAtEntry(x: seq<Entry>, i: nat)
    requires Distinct(x) && i < |x|
    ensures DataAt(x, x[i].coo) == x[i].val
  {
    var k := |x| - 1;
    if i == k {
      DataAtAbsent(x[..k], x[k].coo);
    } else {
      DataAtEntry(x[..k], i);
    }
  }

  lemma {:induction false} EntrySumSquares(x: seq<Entry>, all: seq<Entry>)
    requires Distinct(all) && x <= all
    ensures EntrySum(x, Data(all)) == SumOfSquares(x)
  {
    if |x| > 0 {
      var k := |x| - 1;
      EntrySumSquares(x[..k], all);
      DataAtEntry(all, k);
    }
  }

  /** The norm computed from the stored entries is the norm of the tensor. */
  lemma DataNorm(x: seq<Entry>, dims: Coord)
    requires CoordsFit(x, dims) && Distinct(x)
    ensures Inner(dims, Data(x), Data(x)) == SumOfSquares(x)
  {
    DataInner(x, dims, Data(x));
    EntrySumSquares(x, x);
  }

  /** Squared distance between data and model, over every entry of the full tensor. */
  function Residual(x: seq<Entry>, dims: Coord, u: seq<Mat>, w: Vec, nc: nat): real
  {
    Inner(dims, Minus(Data(x), Model(u, w, nc)), Minus(Data(x), Model(u, w, nc)))
  }

  lemma ResidualExpand(x: seq<Entry>, dims: Coord, u: seq<Mat>, w: Vec, nc: nat)
    requires CoordsFit(x, dims) && Distinct(x)
    ensures Residual(x, dims, u, w, nc)
         == SumOfSquares(x) - 2.0 * EntrySum(x, Model(u, w, nc)) + Inner(dims, Model(u, w, nc), Model(u, w, nc))
  {
    SquareOfDifference(dims, Data(x), Model(u, w, nc));
    DataNorm(x, dims);
    DataInner(x, dims, Model(u, w, nc));
  }

  // ----- Gram matrices

  function ColumnProducts(a: Mat, b: Mat, r: nat, q: nat): nat -> real
  {
    (i: nat) => At(a, i, r) * At(b, i, q)
  }

  /** Entry of A'B; with A = B an entry of the Gram matrix. */
  function Cross(a: Mat, b: Mat, r: nat, q: nat): real
  {
    Sum(|a|, ColumnProducts(a, b, r, q))
  }

  /** Product of the cross Gram entries of the first k modes, leaving out mode n. */
  function GramProd(u: seq<Mat>, v: seq<Mat>, n: nat, r: nat, q: nat, k: nat): real
    requires k <= |u| == |v|
  {
    if k == 0 then 1.0
    else if k - 1 == n then GramProd(u, v, n, r, q, k - 1)
    else GramProd(u, v, n, r, q, k - 1) * Cross(u[k - 1], v[k - 1], r, q)
  }

  function PairValues(u: seq<Mat>, v: seq<Mat>, r: nat, q: nat): (nat, nat) -> real
  {
    (m: nat, i: nat) => if m < |u| && m < |v| then At(u[m], i, r) * At(v[m], i, q) else 0.0
  }

  lemma {:induction false} PairProduct(u: seq<Mat>, v: seq<Mat>, c: Coord, r: nat, q: nat, n: nat, k: nat)
    requires k <= n == |u| == |v| == |c|
    ensures SkipProd(u, c, n, r, k) * SkipProd(v, c, n, q, k) == ModeProduct(PairValues(u, v, r, q), c, k)
  {
    if k > 0 {
      PairProduct(u, v, c, r, q, n, k - 1);
      ProductOfFour(SkipProd(u, c, n, r, k - 1), FactorAt(u, c, k - 1, r),
                    SkipProd(v, c, n, q, k - 1), FactorAt(v, c, k - 1, q));
    }
  }

  lemma ProductOfFour(a: real, b: real, c: real, d: real)
    ensures (a * b) * (c * d) == (a * c) * (b * d)
  {
  }

  lemma PairRowSum(u: seq<Mat>, v: seq<Mat>, m: nat, r: nat, q: nat)
    requires m < |u| == |v|
    ensures Sum(|u[m]|, Row(PairValues(u, v, r, q), m)) == Cross(u[m], v[m], r, q)
  {
    SumExt(|u[m]|, Row(PairValues(u, v, r, q), m), ColumnProducts(u[m], v[m], r, q));
  }

  lemma {:induction false} PairProductOfSums(u: seq<Mat>, v: seq<Mat>, dims: Coord, nc: nat, r: nat, q: nat,
      n: nat, k: nat)
    requires FactorsFit(u, dims, nc) && FactorsFit(v, dims, nc) && k <= n == |u|
    ensures ProductOfSums(PairValues(u, v, r, q), dims[..k]) == GramProd(u, v, n, r, q, k)
  {
    if k > 0 {
      PairProductOfSums(u, v, dims, nc, r, q, n, k - 1);
      assert dims[..k][..k - 1] == dims[..k - 1];
      PairRowSum(u, v, k - 1, r, q);
      assert |u[k - 1]| == dims[k - 1];
      hide Sum, Cross, PairValues, Row;
    }
  }

  /** Summing one product of components over the whole tensor factors into Gram entries. */
  lemma PairSum(u: seq<Mat>, v: seq<Mat>, dims: Coord, nc: nat, r: nat, q: nat)
    requires FactorsFit(u, dims, nc) && FactorsFit(v, dims, nc)
    ensures TensorSum(dims, ProductTensor(PairValues(u, v, r, q))) == GramProd(u, v, |u|, r, q, |u|)
  {
    ProductTensorSum(dims, PairValues(u, v, r, q));
    PairProductOfSums(u, v, dims, nc, r, q, |u|, |u|);
    assert dims[..|u|] == dims;
  }

  function PairTensors(u: seq<Mat>, w: Vec, v: seq<Mat>, z: Vec): (nat, nat) -> Tensor
  {
    (r: nat, q: nat) => (c: Coord) => ModelTerm(u, w, c)(r) * ModelTerm(v, z, c)(q)
  }

  function PairSums(u: seq<Mat>, w: Vec, v: seq<Mat>, z: Vec): (nat, nat) -> real
    requires |u| == |v|
  {
    (r: nat, q: nat) => (Weight(w, r) * Weight(z, q)) * GramProd(u, v, |u|, r, q, |u|)
  }

  lemma PairTensorAt(u: seq<Mat>, w: Vec, v: seq<Mat>, z: Vec, c: Coord, r: nat, q: nat)
    requires |u| == |v| == |c|
    ensures ModelTerm(u, w, c)(r) * ModelTerm(v, z, c)(q)
         == (Weight(w, r) * Weight(z, q)) * ProductTensor(PairValues(u, v, r, q))(c)
  {
    hide SkipProd, ModeProduct, Weight, PairValues;
    var n := |u|;
    PairProduct(u, v, c, r, q, n, n);
    ProductOfFour(Weight(w, r), SkipProd(u, c, n, r, n), Weight(z, q), SkipProd(v, c, n, q, n));
  }

  lemma PairTensorSum(u: seq<Mat>, w: Vec, v: seq<Mat>, z: Vec, dims: Coord, nc: nat, r: nat, q: nat)
    requires FactorsFit(u, dims, nc) && FactorsFit(v, dims, nc)
    ensures PairSums(u, w, v, z)(r, q) == TensorSum(dims, PairTensors(u, w, v, z)(r, q))
  {
    hide ModelTerm, TensorSum, GramProd, ProductTensor;
    var p := ProductTensor(PairValues(u, v, r, q));
    forall c | InBounds(c, dims)
      ensures PairTensors(u, w, v, z)(r, q)(c) == (Weight(w, r) * Weight(z, q)) * p(c)
    {
      PairTensorAt(u, w, v, z, c, r, q);
    }
    TensorScale(dims, Weight(w, r) * Weight(z, q), p, PairTensors(u, w, v, z)(r, q));
    PairSum(u, v, dims, nc, r, q);
  }

  /** The inner product of two models is a small double sum over components. */
  lemma ModelsInner(u: seq<Mat>, w: Vec, v: seq<Mat>, z: Vec, dims: Coord, nc: nat)
    requires FactorsFit(u, dims, nc) && FactorsFit(v, dims, nc)
    ensures Inner(dims, Model(u, w, nc), Model(v, z, nc)) == Sum2(nc, nc, PairSums(u, w, v, z))
  {
    var parts := PairTensors(u, w, v, z);
    forall c | InBounds(c, dims)
      ensures Mul(Model(u, w, nc), Model(v, z, nc))(c) == Sum2(nc, nc, ValuesAt2(parts, c))
    {
      SumProduct(nc, ModelTerm(u, w, c), nc, ModelTerm(v, z, c));
      Sum2Ext(nc, nc, Products(ModelTerm(u, w, c), ModelTerm(v, z, c)), ValuesAt2(parts, c));
    }
    forall r: nat, q: nat | r < nc && q < nc
      ensures PairSums(u, w, v, z)(r, q) == TensorSum(dims, parts(r, q))
    {
      PairTensorSum(u, w, v, z, dims, nc, r, q);
    }
    TensorSwap2(dims, nc, nc, Mul(Model(u, w, nc), Model(v, z, nc)), parts, PairSums(u, w, v, z));
  }

  // ----- how the model depends on one factor

  lemma {:induction false} SkipProdSplit(u: seq<Mat>, c: Coord, n: nat, r: nat, k: nat)
    requires n < k <= |u|
    ensures SkipProd(u, c, |u|, r, k) == SkipProd(u, c, n, r, k) * FactorAt(u, c, n, r)
  {
    if k - 1 == n {
      SkipProdSame(u, c, n, r, n);
    } else {
      SkipProdSplit(u, c, n, r, k - 1);
      SwapLast(SkipProd(u, c, n, r, k - 1), FactorAt(u, c, n, r), FactorAt(u, c, k - 1, r));
    }
  }

  lemma {:induction false} SkipProdSame(u: seq<Mat>, c: Coord, n: nat, r: nat, k: nat)
    requires k <= n < |u|
    ensures SkipProd(u, c, |u|, r, k) == SkipProd(u, c, n, r, k)
  {
    if k > 0 {
      SkipProdSame(u, c, n, r, k - 1);
    }
  }

  lemma SwapLast(a: real, b: real, c: real)
    ensures (a * b) * c == (a * c) * b
  {
  }

  /** The product over the other modes does not see factor n. */
  lemma {:induction false} SkipProdReplace(u: seq<Mat>, a: Mat, c: Coord, n: nat, r: nat, k: nat)
    requires n < |u| && k <= |u|
    ensures SkipProd(u[n := a], c, n, r, k) == SkipProd(u, c, n, r, k)
  {
    if k > 0 {
      SkipProdReplace(u, a, c, n, r, k - 1);
    }
  }

  lemma {:induction false} GramProdSplit(u: seq<Mat>, v: seq<Mat>, n: nat, r: nat, q: nat, k: nat)
    requires n < k <= |u| == |v|
    ensures GramProd(u, v, |u|, r, q, k) == GramProd(u, v, n, r, q, k) * Cross(u[n], v[n], r, q)
  {
    hide Cross;
    if k - 1 == n {
      GramProdSame(u, v, n, r, q, n);
    } else {
      GramProdSplit(u, v, n, r, q, k - 1);
      SwapLast(GramProd(u, v, n, r, q, k - 1), Cross(u[n], v[n], r, q), Cross(u[k - 1], v[k - 1], r, q));
    }
  }

  lemma {:induction false} GramProdSame(u: seq<Mat>, v: seq<Mat>, n: nat, r: nat, q: nat, k: nat)
    requires k <= n < |u| == |v|
    ensures GramProd(u, v, |u|, r, q, k) == GramProd(u, v, n, r, q, k)
  {
    if k > 0 {
      GramProdSame(u, v, n, r, q, k - 1);
    }
  }

  lemma {:induction false} GramProdReplace(u: seq<Mat>, a: Mat, b: Mat, n: nat, r: nat, q: nat, k: nat)
    requires n < |u| && k <= |u|
    ensures GramProd(u[n := a], u[n := b], n, r, q, k) == GramProd(u, u, n, r, q, k)
  {
    if k > 0 {
      GramProdReplace(u, a, b, n, r, q, k - 1);
    }
  }

  lemma CrossSymmetric(a: Mat, b: Mat, r: nat, q: nat)
    requires |a| == |b|
    ensures Cross(a, b, r, q) == Cross(b, a, q, r)
  {
    SumExt(|a|, ColumnProducts(a, b, r, q), ColumnProducts(b, a, q, r));
  }

  lemma {:induction false} GramProdSymmetric(u: seq<Mat>, n: nat, r: nat, q: nat, k: nat)
    requires k <= |u|
    ensures GramProd(u, u, n, r, q, k) == GramProd(u, u, n, q, r, k)
  {
    if k > 0 {
      GramProdSymmetric(u, n, r, q, k - 1);
      CrossSymmetric(u[k - 1], u[k - 1], r, q);
    }
  }

  // ----- matrices as functions of a row and a component

  function Entrywise(a: Mat, b: Mat): (nat, nat) -> real
  {
    (i: nat, r: nat) => At(a, i, r) * At(b, i, r)
  }

  /** Frobenius inner product. */
  function Frob(a: Mat, b: Mat, nc: nat): real
  {
    Sum2(|a|, nc, Entrywise(a, b))
  }

  function MulTerm(a: Mat, h: (nat, nat) -> real, i: nat, q: nat): nat -> real
  {
    (r: nat) => At(a, i, r) * h(r, q)
  }

  /** The matrix a times the nc-by-nc matrix h. */
  function MatMul(a: Mat, h: (nat, nat) -> real, nc: nat): (m: Mat)
    ensures IsMat(m, |a|, nc)
    ensures forall i: nat, q: nat :: i < |a| && q < nc ==> At(m, i, q) == Sum(nc, MulTerm(a, h, i, q))
  {
    seq(|a|, (i: nat) => seq(nc, (q: nat) => Sum(nc, MulTerm(a, h, i, q))))
  }

  function TimesCross(h: (nat, nat) -> real, a: Mat, v: Mat): (nat, nat) -> real
  {
    (r: nat, q: nat) => h(r, q) * Cross(a, v, r, q)
  }

  function RowColumn(h: (nat, nat) -> real, a: Mat, v: Mat, r: nat): (nat, nat) -> real
  {
    (i: nat, q: nat) => h(r, q) * (At(a, i, r) * At(v, i, q))
  }

  function ColumnColumn(h: (nat, nat) -> real, a: Mat, v: Mat, i: nat): (nat, nat) -> real
  {
    (q: nat, r: nat) => h(r, q) * (At(a, i, r) * At(v, i, q))
  }

  /** The quadratic form of h: sum over components of h times cross Gram entries is <a h, v>. */
  lemma QuadraticForm(h: (nat, nat) -> real, a: Mat, v: Mat, nc: nat)
    ensures Sum2(nc, nc, TimesCross(h, a, v)) == Frob(MatMul(a, h, nc), v, nc)
  {
    var rows := (r: nat, i: nat) => Sum(nc, Row(RowColumn(h, a, v, r), i));
    forall r: nat | r < nc ensures RowSums(nc, TimesCross(h, a, v))(r) == RowSums(|a|, rows)(r) {
      QuadraticRow(h, a, v, nc, r);
      SumExt(|a|, RowSums(nc, RowColumn(h, a, v, r)), Row(rows, r));
    }
    SumExt(nc, RowSums(nc, TimesCross(h, a, v)), RowSums(|a|, rows));
    SumSwap(nc, |a|, rows);
    var ah := MatMul(a, h, nc);
    forall i: nat | i < |a| ensures ColSums(nc, rows)(i) == RowSums(nc, Entrywise(ah, v))(i) {
      QuadraticColumn(h, a, v, nc, i);
      forall r: nat | r < nc ensures Col(rows, i)(r) == ColSums(nc, ColumnColumn(h, a, v, i))(r) {
        SumExt(nc, Row(RowColumn(h, a, v, r), i), Col(ColumnColumn(h, a, v, i), r));
      }
      SumExt(nc, Col(rows, i), ColSums(nc, ColumnColumn(h, a, v, i)));
    }
    SumExt(|a|, ColSums(nc, rows), RowSums(nc, Entrywise(ah, v)));
  }

  lemma QuadraticRow(h: (nat, nat) -> real, a: Mat, v: Mat, nc: nat, r: nat)
    ensures RowSums(nc, TimesCross(h, a, v))(r) == Sum2(|a|, nc, RowColumn(h, a, v, r))
  {
    var f := RowColumn(h, a, v, r);
    SumSwap(|a|, nc, f);
    forall q: nat | q < nc ensures ColSums(|a|, f)(q) == Row(TimesCross(h, a, v), r)(q) {
      SumScale(|a|, h(r, q), ColumnProducts(a, v, r, q), Col(f, q));
    }
    SumExt(nc, ColSums(|a|, f), Row(TimesCross(h, a, v), r));
  }

  lemma QuadraticColumn(h: (nat, nat) -> real, a: Mat, v: Mat, nc: nat, i: nat)
    requires i < |a|
    ensures Sum(nc, ColSums(nc, ColumnColumn(h, a, v, i))) == Sum(nc, Row(Entrywise(MatMul(a, h, nc), v), i))
  {
    var f := ColumnColumn(h, a, v, i);
    var ah := MatMul(a, h, nc);
    SumSwap(nc, nc, f);
    forall q: nat | q < nc ensures RowSums(nc, f)(q) == Row(Entrywise(ah, v), i)(q) {
      forall r: nat | r < nc ensures Row(f, q)(r) == At(v, i, q) * MulTerm(a, h, i, q)(r) {
        ThreeFactors(h(r, q), At(a, i, r), At(v, i, q));
      }
      SumScale(nc, At(v, i, q), MulTerm(a, h, i, q), Row(f, q));
    }
    SumExt(nc, RowSums(nc, f), Row(Entrywise(ah, v), i));
  }

  lemma ThreeFactors(a: real, b: real, c: real)
    ensures a * (b * c) == c * (b * a)
  {
  }

  // ----- the Hadamard product of the other Gram matrices

  /** w_r w_q times the Gram entries of every mode but n. */
  function Hada(u: seq<Mat>, w: Vec, n: nat): (nat, nat) -> real
  {
    (r: nat, q: nat) => (Weight(w, r) * Weight(w, q)) * GramProd(u, u, n, r, q, |u|)
  }

  lemma ReplacedPairSum(u: seq<Mat>, w: Vec, n: nat, a: Mat, v: Mat, r: nat, q: nat)
    requires n < |u|
    ensures PairSums(u[n := a], w, u[n := v], w)(r, q) == TimesCross(Hada(u, w, n), a, v)(r, q)
  {
    hide Cross, Weight, GramProd;
    GramProdSplit(u[n := a], u[n := v], n, r, q, |u|);
    GramProdReplace(u, a, v, n, r, q, |u|);
    assert PairSums(u[n := a], w, u[n := v], w)(r, q)
        == (Weight(w, r) * Weight(w, q)) * GramProd(u[n := a], u[n := v], |u|, r, q, |u|);
    assert Hada(u, w, n)(r, q) == (Weight(w, r) * Weight(w, q)) * GramProd(u, u, n, r, q, |u|);
    Regroup(Weight(w, r) * Weight(w, q), GramProd(u, u, n, r, q, |u|), Cross(a, v, r, q));
  }

  lemma Regroup(a: real, b: real, c: real)
    ensures a * (b * c) == (a * b) * c
  {
  }

  /** Two models that differ only in factor n. */
  lemma ModelsDifferInOne(u: seq<Mat>, w: Vec, n: nat, a: Mat, v: Mat, dims: Coord, nc: nat)
    requires FactorsFit(u, dims, nc) && n < |u| && IsMat(a, dims[n], nc) && IsMat(v, dims[n], nc)
    ensures Inner(dims, Model(u[n := a], w, nc), Model(u[n := v], w, nc)) == Frob(MatMul(a, Hada(u, w, n), nc), v, nc)
  {
    var ua, uv := u[n := a], u[n := v];
    ModelsInner(ua, w, uv, w, dims, nc);
    forall r: nat, q: nat | r < nc && q < nc
      ensures PairSums(ua, w, uv, w)(r, q) == TimesCross(Hada(u, w, n), a, v)(r, q)
    {
      ReplacedPairSum(u, w, n, a, v, r, q);
    }
    hide PairSums, TimesCross, Hada, MatMul, Frob;
    Sum2Ext(nc, nc, PairSums(ua, w, uv, w), TimesCross(Hada(u, w, n), a, v));
    QuadraticForm(Hada(u, w, n), a, v, nc);
  }

  function GramTimesHada(u: seq<Mat>, w: Vec, n: nat): (nat, nat) -> real
    requires n < |u|
  {
    (r: nat, q: nat) => Cross(u[n], u[n], r, q) * Hada(u, w, n)(r, q)
  }

  lemma MoveLast(a: real, b: real, c: real)
    ensures a * (b * c) == c * (a * b)
  {
  }

  lemma GramTimesHadaIsPair(u: seq<Mat>, w: Vec, n: nat, r: nat, q: nat)
    requires n < |u|
    ensures PairSums(u, w, u, w)(r, q) == GramTimesHada(u, w, n)(r, q)
  {
    hide Weight, Cross, GramProd;
    GramProdSplit(u, u, n, r, q, |u|);
    MoveLast(Weight(w, r) * Weight(w, q), GramProd(u, u, n, r, q, |u|), Cross(u[n], u[n], r, q));
    assert PairSums(u, w, u, w)(r, q) == (Weight(w, r) * Weight(w, q)) * GramProd(u, u, |u|, r, q, |u|);
    assert Hada(u, w, n)(r, q) == (Weight(w, r) * Weight(w, q)) * GramProd(u, u, n, r, q, |u|);
    assert GramTimesHada(u, w, n)(r, q) == Cross(u[n], u[n], r, q) * Hada(u, w, n)(r, q);
  }

  /** The norm of the model from Gram matrices only, for any mode n that is singled out. */
  lemma NormIdentity(u: seq<Mat>, w: Vec, n: nat, dims: Coord, nc: nat)
    requires FactorsFit(u, dims, nc) && n < |u|
    ensures Inner(dims, Model(u, w, nc), Model(u, w, nc)) == Sum2(nc, nc, GramTimesHada(u, w, n))
  {
    ModelsInner(u, w, u, w, dims, nc);
    forall r: nat, q: nat | r < nc && q < nc ensures PairSums(u, w, u, w)(r, q) == GramTimesHada(u, w, n)(r, q) {
      GramTimesHadaIsPair(u, w, n, r, q);
    }
    Sum2Ext(nc, nc, PairSums(u, w, u, w), GramTimesHada(u, w, n));
  }

  // ----- linearity in factor n

  function MatAdd(a: Mat, b: Mat, nc: nat): (m: Mat)
    ensures IsMat(m, |a|, nc)
    ensures forall i: nat, r: nat :: i < |a| && r < nc ==> At(m, i, r) == At(a, i, r) + At(b, i, r)
  {
    seq(|a|, (i: nat) => seq(nc, (r: nat) => At(a, i, r) + At(b, i, r)))
  }

  function ReplacedTerm(u: seq<Mat>, w: Vec, n: nat, a: Mat, c: Coord): nat -> real
  {
    (r: nat) => if n < |c| then Weight(w, r) * (SkipProd(u, c, n, r, |u|) * At(a, c[n], r)) else 0.0
  }

  lemma ModelReplaced(u: seq<Mat>, w: Vec, n: nat, a: Mat, nc: nat, c: Coord)
    requires n < |u| == |c|
    ensures ModelAt(u[n := a], w, nc, c) == Sum(nc, ReplacedTerm(u, w, n, a, c))
  {
    forall r: nat | r < nc ensures ModelTerm(u[n := a], w, c)(r) == ReplacedTerm(u, w, n, a, c)(r) {
      SkipProdSplit(u[n := a], c, n, r, |u|);
      SkipProdReplace(u, a, c, n, r, |u|);
    }
    SumExt(nc, ModelTerm(u[n := a], w, c), ReplacedTerm(u, w, n, a, c));
  }

  /** The model is linear in each factor. */
  lemma ModelLinear(u: seq<Mat>, w: Vec, n: nat, a: Mat, v: Mat, dims: Coord, nc: nat, c: Coord)
    requires FactorsFit(u, dims, nc) && n < |u| && IsMat(a, dims[n], nc) && IsMat(v, dims[n], nc)
    requires InBounds(c, dims)
    ensures ModelAt(u[n := MatAdd(a, v, nc)], w, nc, c)
         == ModelAt(u[n := a], w, nc, c) + ModelAt(u[n := v], w, nc, c)
  {
    var s := MatAdd(a, v, nc);
    ModelReplaced(u, w, n, s, nc, c);
    ModelReplaced(u, w, n, a, nc, c);
    ModelReplaced(u, w, n, v, nc, c);
    forall r: nat | r < nc
      ensures ReplacedTerm(u, w, n, s, c)(r) == ReplacedTerm(u, w, n, a, c)(r) + ReplacedTerm(u, w, n, v, c)(r)
    {
      DistributeTwice(Weight(w, r), SkipProd(u, c, n, r, |u|), At(a, c[n], r), At(v, c[n], r));
    }
    SumAdd(nc, ReplacedTerm(u, w, n, a, c), ReplacedTerm(u, w, n, v, c), ReplacedTerm(u, w, n, s, c));
  }

  lemma DistributeTwice(a: real, b: real, c: real, d: real)
    ensures a * (b * (c + d)) == a * (b * c) + a * (b * d)
  {
  }

  // ----- the inner product with the data through MTTKRP

  /** The mode-n MTTKRP as a matrix. */
  function MttkrpMat(x: seq<Entry>, u: seq<Mat>, w: Vec, n: nat, rows: nat, nc: nat): (m: Mat)
    ensures IsMat(m, rows, nc)
    ensures forall i: nat, r: nat :: i < rows && r < nc ==> At(m, i, r) == MttkrpAt(x, u, w, n, i, r)
  {
    seq(rows, (i: nat) => seq(nc, (r: nat) => MttkrpAt(x, u, w, n, i, r)))
  }

  function MttkrpTimes(x: seq<Entry>, u: seq<Mat>, w: Vec, n: nat, a: Mat): (nat, nat) -> real
  {
    (i: nat, r: nat) => MttkrpAt(x, u, w, n, i, r) * At(a, i, r)
  }

  function EntryTimes(e: Entry, u: seq<Mat>, w: Vec, n: nat, a: Mat): (nat, nat) -> real
  {
    (i: nat, r: nat) => IfRow(e, n, i, Term(e, u, w, n, r)) * At(a, i, r)
  }

  lemma EntryTimesAt(e: Entry, u: seq<Mat>, w: Vec, n: nat, a: Mat, r: nat)
    requires n < |u| == |e.coo|
    ensures EntryTimes(e, u, w, n, a)(e.coo[n], r) == e.val * ReplacedTerm(u, w, n, a, e.coo)(r)
  {
    hide SkipProd, Weight, At;
    FourFactors(e.val, Weight(w, r), SkipProd(u, e.coo, n, r, |u|), At(a, e.coo[n], r));
  }

  lemma OtherRowsAreZero(e: Entry, u: seq<Mat>, w: Vec, n: nat, a: Mat, nc: nat, i: nat)
    requires n < |u| == |e.coo| && i != e.coo[n]
    ensures RowSums(nc, EntryTimes(e, u, w, n, a))(i) == 0.0
  {
    hide Term, At;
    SumZero(nc, Row(EntryTimes(e, u, w, n, a), i));
  }

  lemma OwnRow(e: Entry, u: seq<Mat>, w: Vec, n: nat, a: Mat, nc: nat)
    requires n < |u| == |e.coo|
    ensures RowSums(nc, EntryTimes(e, u, w, n, a))(e.coo[n]) == e.val * Sum(nc, ReplacedTerm(u, w, n, a, e.coo))
  {
    hide EntryTimes, ReplacedTerm;
    var f := EntryTimes(e, u, w, n, a);
    forall r: nat | r < nc ensures Row(f, e.coo[n])(r) == e.val * ReplacedTerm(u, w, n, a, e.coo)(r) {
      EntryTimesAt(e, u, w, n, a, r);
    }
    SumScale(nc, e.val, ReplacedTerm(u, w, n, a, e.coo), Row(f, e.coo[n]));
  }

  lemma EntryTimesSum(e: Entry, u: seq<Mat>, w: Vec, n: nat, a: Mat, rows: nat, nc: nat)
    requires n < |u| == |e.coo| && e.coo[n] < rows
    ensures Sum2(rows, nc, EntryTimes(e, u, w, n, a)) == e.val * ModelAt(u[n := a], w, nc, e.coo)
  {
    hide EntryTimes, ReplacedTerm, ModelAt, RowSums;
    var f := EntryTimes(e, u, w, n, a);
    forall i: nat | i < rows && i != e.coo[n] ensures RowSums(nc, f)(i) == 0.0 {
      OtherRowsAreZero(e, u, w, n, a, nc, i);
    }
    SumPoint(rows, e.coo[n], RowSums(nc, f));
    ModelReplaced(u, w, n, a, nc, e.coo);
    OwnRow(e, u, w, n, a, nc);
  }

  lemma FourFactors(a: real, b: real, c: real, d: real)
    ensures a * b * c * d == a * (b * (c * d))
  {
  }

  lemma MttkrpTimesStep(x: seq<Entry>, u: seq<Mat>, w: Vec, n: nat, a: Mat, i: nat, r: nat)
    requires |x| > 0
    ensures MttkrpTimes(x, u, w, n, a)(i, r)
         == MttkrpTimes(x[..|x| - 1], u, w, n, a)(i, r) + EntryTimes(x[|x| - 1], u, w, n, a)(i, r)
  {
  }

  /** <X, M> with factor n equal to a is the inner product of the mode-n MTTKRP with a. */
  lemma {:induction false} MttkrpTrick(x: seq<Entry>, u: seq<Mat>, w: Vec, n: nat, a: Mat, dims: Coord, nc: nat)
    requires CoordsFit(x, dims) && n < |u| == |dims|
    ensures EntrySum(x, Model(u[n := a], w, nc)) == Sum2(dims[n], nc, MttkrpTimes(x, u, w, n, a))
  {
    if |x| == 0 {
      forall i: nat | i < dims[n] ensures RowSums(nc, MttkrpTimes(x, u, w, n, a))(i) == 0.0 {
        SumZero(nc, Row(MttkrpTimes(x, u, w, n, a), i));
      }
      SumZero(dims[n], RowSums(nc, MttkrpTimes(x, u, w, n, a)));
    } else {
      var k := |x| - 1;
      MttkrpTrick(x[..k], u, w, n, a, dims, nc);
      assert InBounds(x[k].coo, dims);
      EntryTimesSum(x[k], u, w, n, a, dims[n], nc);
      forall i: nat, r: nat | i < dims[n] && r < nc
        ensures MttkrpTimes(x, u, w, n, a)(i, r)
               == MttkrpTimes(x[..k], u, w, n, a)(i, r) + EntryTimes(x[k], u, w, n, a)(i, r)
      {
        MttkrpTimesStep(x, u, w, n, a, i, r);
      }
      hide MttkrpTimes, EntryTimes, Sum2;
      Sum2Add(dims[n], nc, MttkrpTimes(x[..k], u, w, n, a), EntryTimes(x[k], u, w, n, a), MttkrpTimes(x, u, w, n, a));
    }
  }

  /** The same with the MTTKRP stored as a matrix. */
  lemma MttkrpInner(x: seq<Entry>, u: seq<Mat>, w: Vec, n: nat, a: Mat, dims: Coord, nc: nat)
    requires CoordsFit(x, dims) && n < |u| == |dims|
    ensures EntrySum(x, Model(u[n := a], w, nc)) == Frob(MttkrpMat(x, u, w, n, dims[n], nc), a, nc)
  {
    MttkrpTrick(x, u, w, n, a, dims, nc);
    Sum2Ext(dims[n], nc, MttkrpTimes(x, u, w, n, a), Entrywise(MttkrpMat(x, u, w, n, dims[n], nc), a));
  }

  lemma InnerWithDifference(dims: Coord, f: Tensor, g: Tensor, h: Tensor)
    ensures Inner(dims, Minus(f, g), h) == Inner(dims, f, h) - Inner(dims, g, h)
  {
    InnerAdd(dims, Minus(f, g), g, f, h);
  }

  /** The squared residual as an exact quadratic function of one factor. */
  lemma ResidualExpansion(x: seq<Entry>, u: seq<Mat>, w: Vec, n: nat, a: Mat, v: Mat, dims: Coord, nc: nat)
    requires FactorsFit(u, dims, nc) && n < |u| && IsMat(a, dims[n], nc) && IsMat(v, dims[n], nc)
    requires CoordsFit(x, dims)
    ensures Residual(x, dims, u[n := MatAdd(a, v, nc)], w, nc)
         == Residual(x, dims, u[n := a], w, nc)
            + 2.0 * (Frob(MatMul(a, Hada(u, w, n), nc), v, nc) - Frob(MttkrpMat(x, u, w, n, dims[n], nc), v, nc))
            + Frob(MatMul(v, Hada(u, w, n), nc), v, nc)
  {
    var ma, mv := Model(u[n := a], w, nc), Model(u[n := v], w, nc);
    var sum := Model(u[n := MatAdd(a, v, nc)], w, nc);
    var d := Minus(Data(x), ma);
    forall c | InBounds(c, dims) ensures Minus(Data(x), sum)(c) == Minus(d, mv)(c) {
      ModelLinear(u, w, n, a, v, dims, nc, c);
    }
    InnerExt(dims, Minus(Data(x), sum), Minus(Data(x), sum), Minus(d, mv), Minus(d, mv));
    SquareOfDifference(dims, d, mv);
    InnerWithDifference(dims, Data(x), ma, mv);
    DataInner(x, dims, mv);
    MttkrpInner(x, u, w, n, v, dims, nc);
    ModelsDifferInOne(u, w, n, a, v, dims, nc);
    ModelsDifferInOne(u, w, n, v, v, dims, nc);
  }
}
