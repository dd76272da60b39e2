/** What the shorthands for sums and products stand for, written out over the entries of the matrices. */
module PlainForms {
  import opened Layout
  import opened Vectors
  import opened Sums
  import opened Mttkrp
  import opened KtensorAlgebra
  import opened FactorMatrix
  import opened LeastSquares

  // ----- data and model tensors

  /** An entry of the model: the sum over components of the weight times the entries of all factors. */
  lemma ModelIsPlain(u: seq<Mat>, w: Vec, dims: Coord, nc: nat, c: Coord)
    requires FactorsFit(u, dims, nc) && InBounds(c, dims) && |w| == nc
    ensures Model(u, w, nc)(c)
         == Total(seq(nc, r requires 0 <= r < nc =>
              w[r] * ProductOf(seq(|u|, m requires 0 <= m < |u| => u[m][c[m]][r]))))
  {
    var s := seq(nc, r requires 0 <= r < nc => w[r] * ProductOf(seq(|u|, m requires 0 <= m < |u| => u[m][c[m]][r])));
    forall r: nat | r < nc ensures s[r] == ModelTerm(u, w, c)(r) {
      SkipProdIsProduct(u, c, |u|, r, |u|, seq(|u|, m requires 0 <= m < |u| => u[m][c[m]][r]));
    }
    SumIsTotal(nc, ModelTerm(u, w, c), s);
  }

  /** An entry of the data: a nonzero's value, and zero elsewhere. */
  lemma DataIsPlain(x: seq<Entry>, c: Coord)
    requires forall i, j :: 0 <= i < j < |x| ==> x[i].coo != x[j].coo
    ensures forall i :: 0 <= i < |x| && x[i].coo == c ==> Data(x)(c) == x[i].val
    ensures (forall i :: 0 <= i < |x| ==> x[i].coo != c) ==> Data(x)(c) == 0.0
  {
    forall i | 0 <= i < |x| && x[i].coo == c ensures Data(x)(c) == x[i].val {
      DataAtEntry(x, i);
    }
    if forall i :: 0 <= i < |x| ==> x[i].coo != c {
      DataAtAbsent(x, c);
    }
  }

  /** The squared distance: the sum over all entries of the full tensor, in row-major order. */
  lemma ResidualIsPlain(x: seq<Entry>, dims: Coord, u: seq<Mat>, w: Vec, nc: nat)
    ensures Residual(x, dims, u, w, nc)
         == Total(seq(Numel(dims), k requires 0 <= k < Numel(dims) =>
              (Data(x)(CoordRight(dims, k)) - Model(u, w, nc)(CoordRight(dims, k)))
              * (Data(x)(CoordRight(dims, k)) - Model(u, w, nc)(CoordRight(dims, k)))))
  {
    var d := Minus(Data(x), Model(u, w, nc));
    var s := seq(Numel(dims), k requires 0 <= k < Numel(dims) =>
      (Data(x)(CoordRight(dims, k)) - Model(u, w, nc)(CoordRight(dims, k)))
      * (Data(x)(CoordRight(dims, k)) - Model(u, w, nc)(CoordRight(dims, k))));
    hide Data, Model, CoordRight, Total, Numel;
    SumIsTotal(Numel(dims), Linear(dims, Mul(d, d)), s);
  }

  lemma InnerIsPlain(dims: Coord, f: Tensor, g: Tensor)
    ensures Inner(dims, f, g)
         == Total(seq(Numel(dims), k requires 0 <= k < Numel(dims) =>
              f(CoordRight(dims, k)) * g(CoordRight(dims, k))))
  {
    var s := seq(Numel(dims), k requires 0 <= k < Numel(dims) => f(CoordRight(dims, k)) * g(CoordRight(dims, k)));
    SumIsTotal(Numel(dims), Linear(dims, Mul(f, g)), s);
  }

  lemma {:induction false} EntrySumIsTotal(x: seq<Entry>, g: Tensor, s: Vec)
    requires |s| == |x| && forall i :: 0 <= i < |x| ==> s[i] == x[i].val * g(x[i].coo)
    ensures EntrySum(x, g) == Total(s)
  {
    if |x| > 0 {
      EntrySumIsTotal(x[..|x| - 1], g, s[..|x| - 1]);
    }
  }

  lemma EntrySumIsPlain(x: seq<Entry>, g: Tensor)
    ensures EntrySum(x, g) == Total(seq(|x|, i requires 0 <= i < |x| => x[i].val * g(x[i].coo)))
  {
    EntrySumIsTotal(x, g, seq(|x|, i requires 0 <= i < |x| => x[i].val * g(x[i].coo)));
  }

  lemma {:induction false} SquaresAreTotal(x: seq<Entry>, s: Vec)
    requires |s| == |x| && forall i :: 0 <= i < |x| ==> s[i] == x[i].val * x[i].val
    ensures SumOfSquares(x) == Total(s)
  {
    if |x| > 0 {
      SquaresAreTotal(x[..|x| - 1], s[..|x| - 1]);
    }
  }

  lemma SquaresArePlain(x: seq<Entry>)
    ensures SumOfSquares(x) == Total(seq(|x|, i requires 0 <= i < |x| => x[i].val * x[i].val))
  {
    SquaresAreTotal(x, seq(|x|, i requires 0 <= i < |x| => x[i].val * x[i].val));
  }

  // ----- Gram matrices and matrix products

  /** An entry of a Gram matrix. */
  lemma CrossIsPlain(a: Mat, b: Mat, nc: nat, r: nat, q: nat)
    requires |a| == |b| && IsMat(a, |a|, nc) && IsMat(b, |b|, nc) && r < nc && q < nc
    ensures Cross(a, b, r, q) == Total(seq(|a|, i requires 0 <= i < |a| => a[i][r] * b[i][q]))
  {
    SumIsTotal(|a|, ColumnProducts(a, b, r, q), seq(|a|, i requires 0 <= i < |a| => a[i][r] * b[i][q]));
  }

  /** The rank-k update writes the upper triangle, in the full formulation both, and keeps the rest. */
  lemma GramIntoIsPlain(c: Mat, a: Mat, nc: nat, full: bool, r: nat, q: nat)
    requires IsMat(a, |a|, nc) && IsMat(c, nc, nc) && r < nc && q < nc
    ensures |GramInto(c, a, nc, full)| == nc && |GramInto(c, a, nc, full)[r]| == nc
    ensures full || r <= q ==>
              GramInto(c, a, nc, full)[r][q] == Total(seq(|a|, i requires 0 <= i < |a| => a[i][r] * a[i][q]))
    ensures !full && r > q ==> GramInto(c, a, nc, full)[r][q] == c[r][q]
  {
    CrossIsPlain(a, a, nc, r, q);
    hide Cross;
    assert At(GramInto(c, a, nc, full), r, q) == GramInto(c, a, nc, full)[r][q];
  }

  lemma {:induction false} GramProdIsProduct(u: seq<Mat>, dims: Coord, nc: nat, n: nat, r: nat, q: nat, k: nat, s: Vec)
    requires FactorsFit(u, dims, nc) && r < nc && q < nc && k == |s| <= |u|
    requires forall m: nat :: m < k ==> s[m] == if m == n then 1.0 else Cross(u[m], u[m], r, q)
    ensures GramProd(u, u, n, r, q, k) == ProductOf(s)
  {
    if k > 0 {
      GramProdIsProduct(u, dims, nc, n, r, q, k - 1, s[..k - 1]);
    }
  }

  /** The weighted product of all Gram matrices but one. */
  lemma HadaIsPlain(u: seq<Mat>, w: Vec, dims: Coord, nc: nat, n: nat, r: nat, q: nat)
    requires FactorsFit(u, dims, nc) && |w| == nc && r < nc && q < nc
    ensures Hada(u, w, n)(r, q)
         == w[r] * w[q]
            * ProductOf(seq(|u|, m requires 0 <= m < |u| =>
                if m == n then 1.0
                else Total(seq(|u[m]|, i requires 0 <= i < |u[m]| => u[m][i][r] * u[m][i][q]))))
  {
    var s := seq(|u|, m requires 0 <= m < |u| =>
      if m == n then 1.0
      else Total(seq(|u[m]|, i requires 0 <= i < |u[m]| => u[m][i][r] * u[m][i][q])));
    forall m: nat | m < |u| ensures s[m] == if m == n then 1.0 else Cross(u[m], u[m], r, q) {
      CrossIsPlain(u[m], u[m], nc, r, q);
    }
    GramProdIsProduct(u, dims, nc, n, r, q, |u|, s);
  }

  lemma FrobIsPlain(a: Mat, b: Mat, nc: nat)
    requires |a| == |b| && IsMat(a, |a|, nc) && IsMat(b, |b|, nc)
    ensures Frob(a, b, nc)
         == Total(seq(|a|, i requires 0 <= i < |a| => Total(seq(nc, r requires 0 <= r < nc => a[i][r] * b[i][r]))))
  {
    var s := seq(|a|, i requires 0 <= i < |a| => Total(seq(nc, r requires 0 <= r < nc => a[i][r] * b[i][r])));
    forall i: nat | i < |a| ensures s[i] == RowSums(nc, Entrywise(a, b))(i) {
      SumIsTotal(nc, Row(Entrywise(a, b), i), seq(nc, r requires 0 <= r < nc => a[i][r] * b[i][r]));
    }
    SumIsTotal(|a|, RowSums(nc, Entrywise(a, b)), s);
  }

  lemma MatMulIsPlain(a: Mat, h: (nat, nat) -> real, nc: nat, i: nat, q: nat)
    requires IsMat(a, |a|, nc) && i < |a| && q < nc
    ensures MatMul(a, h, nc)[i][q] == Total(seq(nc, r requires 0 <= r < nc => a[i][r] * h(r, q)))
  {
    var s := seq(nc, r requires 0 <= r < nc => a[i][r] * h(r, q));
    assert At(MatMul(a, h, nc), i, q) == MatMul(a, h, nc)[i][q];
    forall r: nat | r < nc ensures s[r] == MulTerm(a, h, i, q)(r) {
      assert At(a, i, r) == a[i][r];
    }
    SumIsTotal(nc, MulTerm(a, h, i, q), s);
  }

  /** The normal equations of a mode, entry by entry. */
  lemma SolvesIsPlain(a: Mat, x: seq<Entry>, u: seq<Mat>, n: nat, dims: Coord, nc: nat, penalty: real, i: nat, q: nat)
    requires n < |u| == |dims| && Solves(a, x, u, n, dims, nc, penalty) && i < dims[n] && q < nc
    ensures |a| == dims[n] && |a[i]| == nc
    ensures Total(seq(nc, r requires 0 <= r < nc =>
              a[i][r] * (Hada(u, Ones(nc), n)(r, q) + if r == q then penalty else 0.0)))
         == MttkrpAt(x, u, Ones(nc), n, i, q)
  {
    hide Hada, MttkrpAt;
    var h := Regularised(Hada(u, Ones(nc), n), penalty);
    var s := seq(nc, r requires 0 <= r < nc =>
      a[i][r] * (Hada(u, Ones(nc), n)(r, q) + if r == q then penalty else 0.0));
    forall r: nat | r < nc ensures s[r] == MulTerm(a, h, i, q)(r) {
      assert At(a, i, r) == a[i][r];
    }
    SumIsTotal(nc, MulTerm(a, h, i, q), s);
  }

  /** The upper triangle counts twice, the diagonal once. */
  lemma SumUpperIsPlain(d: Mat, n: nat)
    requires IsMat(d, n, n)
    ensures SumUpper(d, n)
         == Total(seq(n, i requires 0 <= i < n =>
              d[i][i] + Total(seq(n, j requires 0 <= j < n => if j <= i then 0.0 else 2.0 * d[i][j]))))
  {
    var s := seq(n, i requires 0 <= i < n =>
      d[i][i] + Total(seq(n, j requires 0 <= j < n => if j <= i then 0.0 else 2.0 * d[i][j])));
    forall i: nat | i < n ensures s[i] == UpperRow(d, n)(i) {
      SumIsTotal(n, UpperTerm(d, n, i), seq(n, j requires 0 <= j < n => if j <= i then 0.0 else 2.0 * d[i][j]));
    }
    SumIsTotal(n, UpperRow(d, n), s);
  }

  /** The weighted inner product of two matrices. */
  lemma InnerProdIsPlain(a: Mat, b: Mat, w: Vec, nc: nat)
    requires |a| == |b| && IsMat(a, |a|, nc) && IsMat(b, |b|, nc) && |w| == nc
    ensures InnerProd(a, b, w, nc)
         == Total(seq(|a|, i requires 0 <= i < |a| =>
              Total(seq(nc, r requires 0 <= r < nc => w[r] * a[i][r] * b[i][r]))))
  {
    var s := seq(|a|, i requires 0 <= i < |a| => Total(seq(nc, r requires 0 <= r < nc => w[r] * a[i][r] * b[i][r])));
    forall i: nat | i < |a| ensures s[i] == RowSums(nc, WeightedTerm(a, b, w))(i) {
      SumIsTotal(nc, Row(WeightedTerm(a, b, w), i), seq(nc, r requires 0 <= r < nc => w[r] * a[i][r] * b[i][r]));
    }
    SumIsTotal(|a|, RowSums(nc, WeightedTerm(a, b, w)), s);
  }
}
