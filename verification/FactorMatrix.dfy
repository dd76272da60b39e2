/** What the factor-matrix operations compute, entry by entry. */
module FactorMatrix {
  import opened Arithmetic
  import opened Vectors
  import opened Sums
  import opened Mttkrp
  import opened KtensorAlgebra

  function Tabulate(rows: nat, nc: nat, f: (nat, nat) -> real): (m: Mat)
    ensures IsMat(m, rows, nc)
    ensures forall i: nat, j: nat :: i < rows && j < nc ==> At(m, i, j) == f(i, j)
  {
    seq(rows, (i: nat) => seq(nc, (j: nat) => f(i, j)))
  }

  /** Matrices of one shape are equal when their entries are. */
  lemma SameEntries(a: Mat, b: Mat, rows: nat, nc: nat)
    requires IsMat(a, rows, nc) && IsMat(b, rows, nc)
    requires forall i: nat, j: nat :: i < rows && j < nc ==> At(a, i, j) == At(b, i, j)
    ensures a == b
  {
    forall i | 0 <= i < rows ensures a[i] == b[i] {
      forall j | 0 <= j < nc ensures a[i][j] == b[i][j] {
        assert At(a, i, j) == At(b, i, j);
      }
    }
  }

  function Entries(m: Mat): (nat, nat) -> real
  {
    (i: nat, j: nat) => At(m, i, j)
  }

  function Gram(a: Mat, nc: nat): (m: Mat)
    ensures IsMat(m, nc, nc)
  {
    Tabulate(nc, nc, (r: nat, q: nat) => Cross(a, a, r, q))
  }

  /** The Gram matrix written by the rank-k update: the upper triangle always, the lower one only in
      the full formulation; otherwise it keeps what the target held. */
  function GramInto(c: Mat, a: Mat, nc: nat, full: bool): (m: Mat)
    ensures IsMat(m, nc, nc)
  {
    Tabulate(nc, nc, (r: nat, q: nat) => if full || r <= q then Cross(a, a, r, q) else At(c, r, q))
  }

  function Oprod(v: Vec): (m: Mat)
    ensures IsMat(m, |v|, |v|)
  {
    Tabulate(|v|, |v|, (r: nat, q: nat) => Weight(v, r) * Weight(v, q))
  }

  /** Entrywise product. */
  function Hadamard(a: Mat, b: Mat, nc: nat): (m: Mat)
    ensures IsMat(m, |a|, nc)
  {
    Tabulate(|a|, nc, (i: nat, j: nat) => At(a, i, j) * At(b, i, j))
  }

  function WeightedTerm(x: Mat, y: Mat, w: Vec): (nat, nat) -> real
  {
    (i: nat, j: nat) => Weight(w, j) * At(x, i, j) * At(y, i, j)
  }

  /** The weighted inner product of two matrices. */
  function InnerProd(x: Mat, y: Mat, w: Vec, nc: nat): real
  {
    Sum2(|x|, nc, WeightedTerm(x, y, w))
  }

  function NormFsq(a: Mat, nc: nat): real
  {
    Frob(a, a, nc)
  }

  /** alpha A B + beta C. */
  function Gemm(alpha: real, a: Mat, b: Mat, beta: real, c: Mat, nc: nat): (m: Mat)
    ensures IsMat(m, |a|, nc)
  {
    Tabulate(|a|, nc, (i: nat, q: nat) => alpha * At(MatMul(a, Entries(b), nc), i, q) + beta * At(c, i, q))
  }

  /** C + s Y. */
  function Plus(c: Mat, y: Mat, s: real, nc: nat): (m: Mat)
    ensures IsMat(m, |c|, nc)
  {
    Tabulate(|c|, nc, (i: nat, q: nat) => At(c, i, q) + s * At(y, i, q))
  }

  function UpperTerm(d: Mat, n: nat, i: nat): nat -> real
  {
    (j: nat) => if j <= i then 0.0 else 2.0 * At(d, i, j)
  }

  function UpperRow(d: Mat, n: nat): nat -> real
  {
    (i: nat) => At(d, i, i) + Sum(n, UpperTerm(d, n, i))
  }

  /** Sum of a symmetric matrix from its upper triangle. */
  function SumUpper(d: Mat, n: nat): real
  {
    Sum(n, UpperRow(d, n))
  }

  /** Columns multiplied by the weights. */
  function ColScaled(a: Mat, v: Vec): (m: Mat)
    ensures IsMat(m, |a|, |v|)
  {
    Tabulate(|a|, |v|, (i: nat, r: nat) => At(a, i, r) * Weight(v, r))
  }

  lemma ColScaledEntry(a: Mat, v: Vec, i: nat, r: nat)
    requires i < |a| && r < |v| && |a[i]| == |v|
    ensures At(ColScaled(a, v), i, r) == a[i][r] * v[r] && ColScaled(a, v)[i][r] == a[i][r] * v[r]
  {
    assert At(ColScaled(a, v), i, r) == ColScaled(a, v)[i][r];
  }

  // ----- the upper triangle of a symmetric matrix determines its sum

  function Folded(s: (nat, nat) -> real): (nat, nat) -> real
  {
    (i: nat, j: nat) => if i == j then s(i, i) else if i < j then 2.0 * s(i, j) else 0.0
  }

  function Lower(s: (nat, nat) -> real): (nat, nat) -> real
  {
    (i: nat, j: nat) => if j < i then s(i, j) else 0.0
  }

  function Upper(s: (nat, nat) -> real): (nat, nat) -> real
  {
    (i: nat, j: nat) => if i < j then s(i, j) else 0.0
  }

  function Diagonal(s: (nat, nat) -> real): (nat, nat) -> real
  {
    (i: nat, j: nat) => if i == j then s(i, i) else 0.0
  }

  function NotBelow(s: (nat, nat) -> real): (nat, nat) -> real
  {
    (i: nat, j: nat) => Upper(s)(i, j) + Diagonal(s)(i, j)
  }

  /** With a symmetric meaning s for the upper triangle, the lower triangle may hold anything. */
  lemma SumUpperSpec(d: Mat, n: nat, s: (nat, nat) -> real)
    requires forall i: nat, j: nat :: i < n && j < n ==> s(i, j) == s(j, i)
    requires forall i: nat, j: nat :: i <= j < n ==> At(d, i, j) == s(i, j)
    ensures SumUpper(d, n) == Sum2(n, n, s)
  {
    Sum2Transpose(n, n, Lower(s), Upper(s));
    Sum2Add(n, n, Upper(s), Diagonal(s), NotBelow(s));
    Sum2Add(n, n, NotBelow(s), Lower(s), s);
    Sum2Add(n, n, NotBelow(s), Upper(s), Folded(s));
    forall i: nat | i < n ensures UpperRow(d, n)(i) == RowSums(n, Folded(s))(i) {
      UpperRowSpec(d, n, s, i);
    }
    SumExt(n, UpperRow(d, n), RowSums(n, Folded(s)));
  }

  lemma UpperRowSpec(d: Mat, n: nat, s: (nat, nat) -> real, i: nat)
    requires i < n && forall j: nat :: i <= j < n ==> At(d, i, j) == s(i, j)
    ensures UpperRow(d, n)(i) == Sum(n, Row(Folded(s), i))
  {
    var point := Row(Diagonal(s), i);
    SumPoint(n, i, point);
    SumAdd(n, UpperTerm(d, n, i), point, Row(Folded(s), i));
  }

  // ----- linearity of the Frobenius inner product in its first argument

  function Scaled(k: real, f: (nat, nat) -> real): (nat, nat) -> real
  {
    (i: nat, j: nat) => k * f(i, j)
  }

  lemma CombineEntry(a: Mat, b: Mat, m: Mat, alpha: real, beta: real, v: Mat, i: nat, j: nat)
    requires At(m, i, j) == alpha * At(a, i, j) + beta * At(b, i, j)
    ensures Entrywise(m, v)(i, j) == Scaled(alpha, Entrywise(a, v))(i, j) + Scaled(beta, Entrywise(b, v))(i, j)
  {
    hide At;
    CombineProduct(alpha, At(a, i, j), beta, At(b, i, j), At(v, i, j));
    assert Entrywise(m, v)(i, j) == (alpha * At(a, i, j) + beta * At(b, i, j)) * At(v, i, j);
    assert Scaled(alpha, Entrywise(a, v))(i, j) == alpha * (At(a, i, j) * At(v, i, j));
    assert Scaled(beta, Entrywise(b, v))(i, j) == beta * (At(b, i, j) * At(v, i, j));
  }

  lemma FrobCombine(a: Mat, b: Mat, m: Mat, alpha: real, beta: real, v: Mat, nc: nat)
    requires |m| == |a| == |b|
    requires forall i: nat, j: nat :: i < |a| && j < nc ==> At(m, i, j) == alpha * At(a, i, j) + beta * At(b, i, j)
    ensures Frob(m, v, nc) == alpha * Frob(a, v, nc) + beta * Frob(b, v, nc)
  {
    var f, g := Scaled(alpha, Entrywise(a, v)), Scaled(beta, Entrywise(b, v));
    Sum2Scale(|a|, nc, alpha, Entrywise(a, v), f);
    Sum2Scale(|a|, nc, beta, Entrywise(b, v), g);
    forall i: nat, j: nat | i < |a| && j < nc ensures Entrywise(m, v)(i, j) == f(i, j) + g(i, j) {
      CombineEntry(a, b, m, alpha, beta, v, i, j);
    }
    hide Entrywise, Scaled, At, Sum2;
    Sum2Add(|a|, nc, f, g, Entrywise(m, v));
  }

  lemma CombineProduct(alpha: real, a: real, beta: real, b: real, v: real)
    ensures (alpha * a + beta * b) * v == alpha * (a * v) + beta * (b * v)
  {
  }

  lemma FrobSymmetric(a: Mat, b: Mat, nc: nat)
    requires |a| == |b|
    ensures Frob(a, b, nc) == Frob(b, a, nc)
  {
    Sum2Ext(|a|, nc, Entrywise(a, b), Entrywise(b, a));
  }

  lemma FrobNonNegative(a: Mat, nc: nat)
    ensures Frob(a, a, nc) >= 0.0
  {
    forall i: nat | i < |a| ensures RowSums(nc, Entrywise(a, a))(i) >= 0.0 {
      SumNonNegative(nc, Row(Entrywise(a, a), i));
    }
    SumNonNegative(|a|, RowSums(nc, Entrywise(a, a)));
  }

  /** ||A + V||^2 = ||A||^2 + 2 <A,V> + ||V||^2. */
  lemma SquareZero(a: real)
    requires a * a == 0.0
    ensures a == 0.0
  {
    if a > 0.0 {
      PositiveProduct(a, a, a * a);
    } else if a < 0.0 {
      PositiveProduct(-a, -a, a * a);
    }
  }

  /** A matrix of norm zero has only zeros. */
  lemma NormZero(a: Mat, nc: nat, i: nat, j: nat)
    requires Frob(a, a, nc) == 0.0 && i < |a| && j < nc
    ensures At(a, i, j) == 0.0
  {
    var f := Entrywise(a, a);
    forall k: nat | k < |a| ensures RowSums(nc, f)(k) >= 0.0 {
      SumNonNegative(nc, Row(f, k));
    }
    SumOfNothing(|a|, RowSums(nc, f));
    assert RowSums(nc, f)(i) == 0.0;
    SumOfNothing(nc, Row(f, i));
    assert Row(f, i)(j) == At(a, i, j) * At(a, i, j);
    SquareZero(At(a, i, j));
  }

  lemma SquareOfSum(a: Mat, v: Mat, nc: nat)
    requires |a| == |v|
    ensures NormFsq(MatAdd(a, v, nc), nc) == NormFsq(a, nc) + 2.0 * Frob(a, v, nc) + NormFsq(v, nc)
  {
    var s := MatAdd(a, v, nc);
    FrobCombine(a, v, s, 1.0, 1.0, s, nc);
    FrobCombine(a, v, s, 1.0, 1.0, a, nc);
    FrobCombine(a, v, s, 1.0, 1.0, v, nc);
    FrobSymmetric(a, s, nc);
    FrobSymmetric(v, s, nc);
    FrobSymmetric(v, a, nc);
  }

  /** Equal weights of one: the weighted inner product is the Frobenius one. */
  lemma InnerProdOnes(x: Mat, y: Mat, nc: nat)
    ensures InnerProd(x, y, Ones(nc), nc) == Frob(x, y, nc)
  {
    forall i: nat, j: nat | i < |x| && j < nc ensures WeightedTerm(x, y, Ones(nc))(i, j) == Entrywise(x, y)(i, j) {
      assert Weight(Ones(nc), j) == 1.0;
      assert WeightedTerm(x, y, Ones(nc))(i, j) == 1.0 * At(x, i, j) * At(y, i, j);
    }
    Sum2Ext(|x|, nc, WeightedTerm(x, y, Ones(nc)), Entrywise(x, y));
  }
}
