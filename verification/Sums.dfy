/** Finite sums of real-valued functions, and sums over all coordinates of a tensor. */
module Sums {
  import opened Arithmetic
  import opened Layout
  import opened Vectors

  function Sum(n: nat, f: nat -> real): real
  {
    if n == 0 then 0.0 else Sum(n - 1, f) + f(n - 1)
  }

  /** A sum of function values is the total of the list of its terms. */
  lemma {:induction false} SumIsTotal(n: nat, f: nat -> real, s: Vec)
    requires |s| == n && forall i: nat :: i < n ==> s[i] == f(i)
    ensures Sum(n, f) == Total(s)
  {
    if n > 0 {
      SumIsTotal(n - 1, f, s[..n - 1]);
    }
  }

  lemma {:induction false} SumExt(n: nat, f: nat -> real, g: nat -> real)
    requires forall i: nat :: i < n ==> f(i) == g(i)
    ensures Sum(n, f) == Sum(n, g)
  {
    if n > 0 {
      SumExt(n - 1, f, g);
    }
  }

  lemma {:induction false} SumAdd(n: nat, f: nat -> real, g: nat -> real, h: nat -> real)
    requires forall i: nat :: i < n ==> h(i) == f(i) + g(i)
    ensures Sum(n, h) == Sum(n, f) + Sum(n, g)
  {
    if n > 0 {
      SumAdd(n - 1, f, g, h);
    }
  }

  lemma {:induction false} SumScale(n: nat, k: real, f: nat -> real, h: nat -> real)
    requires forall i: nat :: i < n ==> h(i) == k * f(i)
    ensures Sum(n, h) == k * Sum(n, f)
  {
    if n > 0 {
      SumScale(n - 1, k, f, h);
      assert k * (Sum(n - 1, f) + f(n - 1)) == k * Sum(n - 1, f) + k * f(n - 1);
    }
  }

  lemma {:induction false} SumZero(n: nat, f: nat -> real)
    requires forall i: nat :: i < n ==> f(i) == 0.0
    ensures Sum(n, f) == 0.0
  {
    if n > 0 {
      SumZero(n - 1, f);
    }
  }

  lemma {:induction false} SumNonNegative(n: nat, f: nat -> real)
    requires forall i: nat :: i < n ==> f(i) >= 0.0
    ensures Sum(n, f) >= 0.0
  {
    if n > 0 {
      SumNonNegative(n - 1, f);
    }
  }

  /** A sum of non-negative terms is zero only when they all are. */
  lemma {:induction false} SumOfNothing(n: nat, f: nat -> real)
    requires (forall i: nat :: i < n ==> f(i) >= 0.0) && Sum(n, f) == 0.0
    ensures forall i: nat :: i < n ==> f(i) == 0.0
  {
    if n > 0 {
      SumNonNegative(n - 1, f);
      SumOfNothing(n - 1, f);
    }
  }

  /** A sum with one term that is not zero. */
  lemma {:induction false} SumPoint(n: nat, x: nat, f: nat -> real)
    requires x < n && forall i: nat :: i < n && i != x ==> f(i) == 0.0
    ensures Sum(n, f) == f(x)
  {
    if x == n - 1 {
      SumZero(n - 1, f);
    } else {
      SumPoint(n - 1, x, f);
    }
  }

  // ----- double sums

  function Row(f: (nat, nat) -> real, i: nat): nat -> real
  {
    (j: nat) => f(i, j)
  }

  function Col(f: (nat, nat) -> real, j: nat): nat -> real
  {
    (i: nat) => f(i, j)
  }

  function RowSums(m: nat, f: (nat, nat) -> real): nat -> real
  {
    (i: nat) => Sum(m, Row(f, i))
  }

  function ColSums(n: nat, f: (nat, nat) -> real): nat -> real
  {
    (j: nat) => Sum(n, Col(f, j))
  }

  function Sum2(n: nat, m: nat, f: (nat, nat) -> real): real
  {
    Sum(n, RowSums(m, f))
  }

  lemma {:induction false} SumSwap(n: nat, m: nat, f: (nat, nat) -> real)
    ensures Sum2(n, m, f) == Sum(m, ColSums(n, f))
  {
    if n == 0 {
      SumZero(m, ColSums(0, f));
    } else {
      SumSwap(n - 1, m, f);
      forall j: nat | j < m ensures ColSums(n, f)(j) == ColSums(n - 1, f)(j) + Row(f, n - 1)(j) {
        assert Sum(n, Col(f, j)) == Sum(n - 1, Col(f, j)) + Col(f, j)(n - 1);
      }
      SumAdd(m, ColSums(n - 1, f), Row(f, n - 1), ColSums(n, f));
    }
  }

  lemma Sum2Ext(n: nat, m: nat, f: (nat, nat) -> real, g: (nat, nat) -> real)
    requires forall i: nat, j: nat :: i < n && j < m ==> f(i, j) == g(i, j)
    ensures Sum2(n, m, f) == Sum2(n, m, g)
  {
    forall i: nat | i < n ensures RowSums(m, f)(i) == RowSums(m, g)(i) {
      SumExt(m, Row(f, i), Row(g, i));
    }
    SumExt(n, RowSums(m, f), RowSums(m, g));
  }

  lemma Sum2Add(n: nat, m: nat, f: (nat, nat) -> real, g: (nat, nat) -> real, h: (nat, nat) -> real)
    requires forall i: nat, j: nat :: i < n && j < m ==> h(i, j) == f(i, j) + g(i, j)
    ensures Sum2(n, m, h) == Sum2(n, m, f) + Sum2(n, m, g)
  {
    forall i: nat | i < n ensures RowSums(m, h)(i) == RowSums(m, f)(i) + RowSums(m, g)(i) {
      SumAdd(m, Row(f, i), Row(g, i), Row(h, i));
    }
    SumAdd(n, RowSums(m, f), RowSums(m, g), RowSums(m, h));
  }

  lemma Sum2Scale(n: nat, m: nat, k: real, f: (nat, nat) -> real, h: (nat, nat) -> real)
    requires forall i: nat, j: nat :: i < n && j < m ==> h(i, j) == k * f(i, j)
    ensures Sum2(n, m, h) == k * Sum2(n, m, f)
  {
    forall i: nat | i < n ensures RowSums(m, h)(i) == k * RowSums(m, f)(i) {
      SumScale(m, k, Row(f, i), Row(h, i));
    }
    SumScale(n, k, RowSums(m, f), RowSums(m, h));
  }

  /** Exchanging rows and columns. */
  lemma Sum2Transpose(n: nat, m: nat, f: (nat, nat) -> real, g: (nat, nat) -> real)
    requires forall i: nat, j: nat :: i < n && j < m ==> g(j, i) == f(i, j)
    ensures Sum2(n, m, f) == Sum2(m, n, g)
  {
    SumSwap(n, m, f);
    forall j: nat | j < m ensures ColSums(n, f)(j) == RowSums(n, g)(j) {
      SumExt(n, Col(f, j), Row(g, j));
    }
    SumExt(m, ColSums(n, f), RowSums(n, g));
  }

  function Products(f: nat -> real, g: nat -> real): (nat, nat) -> real
  {
    (i: nat, j: nat) => f(i) * g(j)
  }

  /** A product of sums is the sum of all products. */
  lemma SumProduct(n: nat, f: nat -> real, m: nat, g: nat -> real)
    ensures Sum(n, f) * Sum(m, g) == Sum2(n, m, Products(f, g))
  {
    hide Sum;
    forall i: nat | i < n ensures RowSums(m, Products(f, g))(i) == Sum(m, g) * f(i) {
      SumScale(m, f(i), g, Row(Products(f, g), i));
    }
    SumScale(n, Sum(m, g), f, RowSums(m, Products(f, g)));
  }

  // ----- sums over a row-major array, block by block

  function Shifted(f: nat -> real, a: nat): nat -> real
  {
    (i: nat) => f(a + i)
  }

  lemma {:induction false} SumSplit(a: nat, b: nat, f: nat -> real)
    ensures Sum(a + b, f) == Sum(a, f) + Sum(b, Shifted(f, a))
  {
    if b > 0 {
      SumSplit(a, b - 1, f);
      assert Shifted(f, a)(b - 1) == f(a + (b - 1));
    }
  }

  function Blocks(f: nat -> real, d: nat): (nat, nat) -> real
  {
    (j: nat, i: nat) => f(j * d + i)
  }

  lemma {:induction false} SumBlocks(n: nat, d: nat, f: nat -> real)
    ensures Sum(n * d, f) == Sum2(n, d, Blocks(f, d))
  {
    if n > 0 {
      SumBlocks(n - 1, d, f);
      Distribute(n - 1, 1, d);
      SumSplit((n - 1) * d, d, f);
      assert n * d == (n - 1) * d + d;
      SumExt(d, Shifted(f, (n - 1) * d), Row(Blocks(f, d), n - 1));
    }
  }

  // ----- sums over all coordinates of a tensor

  type Tensor = Coord -> real

  /** The tensor as a row-major array. */
  function Linear(dims: Coord, f: Tensor): nat -> real
  {
    (k: nat) => f(CoordRight(dims, k))
  }

  function TensorSum(dims: Coord, f: Tensor): real
  {
    Sum(Numel(dims), Linear(dims, f))
  }

  lemma TensorExt(dims: Coord, f: Tensor, g: Tensor)
    requires forall c :: InBounds(c, dims) ==> f(c) == g(c)
    ensures TensorSum(dims, f) == TensorSum(dims, g)
  {
    forall k: nat | k < Numel(dims) ensures Linear(dims, f)(k) == Linear(dims, g)(k) {
      CoordRightSpec(dims, k);
    }
    SumExt(Numel(dims), Linear(dims, f), Linear(dims, g));
  }

  lemma TensorAdd(dims: Coord, f: Tensor, g: Tensor, h: Tensor)
    requires forall c :: InBounds(c, dims) ==> h(c) == f(c) + g(c)
    ensures TensorSum(dims, h) == TensorSum(dims, f) + TensorSum(dims, g)
  {
    forall k: nat | k < Numel(dims) ensures Linear(dims, h)(k) == Linear(dims, f)(k) + Linear(dims, g)(k) {
      CoordRightSpec(dims, k);
    }
    SumAdd(Numel(dims), Linear(dims, f), Linear(dims, g), Linear(dims, h));
  }

  lemma TensorScale(dims: Coord, k: real, f: Tensor, h: Tensor)
    requires forall c :: InBounds(c, dims) ==> h(c) == k * f(c)
    ensures TensorSum(dims, h) == k * TensorSum(dims, f)
  {
    forall i: nat | i < Numel(dims) ensures Linear(dims, h)(i) == k * Linear(dims, f)(i) {
      CoordRightSpec(dims, i);
    }
    SumScale(Numel(dims), k, Linear(dims, f), Linear(dims, h));
  }

  lemma TensorZero(dims: Coord, f: Tensor)
    requires forall c :: InBounds(c, dims) ==> f(c) == 0.0
    ensures TensorSum(dims, f) == 0.0
  {
    forall i: nat | i < Numel(dims) ensures Linear(dims, f)(i) == 0.0 {
      CoordRightSpec(dims, i);
    }
    SumZero(Numel(dims), Linear(dims, f));
  }

  lemma TensorNonNegative(dims: Coord, f: Tensor)
    requires forall c :: InBounds(c, dims) ==> f(c) >= 0.0
    ensures TensorSum(dims, f) >= 0.0
  {
    forall i: nat | i < Numel(dims) ensures Linear(dims, f)(i) >= 0.0 {
      CoordRightSpec(dims, i);
    }
    SumNonNegative(Numel(dims), Linear(dims, f));
  }

  /** A tensor that is zero away from one coordinate. */
  lemma TensorPoint(dims: Coord, x: Coord, f: Tensor)
    requires InBounds(x, dims) && forall c :: InBounds(c, dims) && c != x ==> f(c) == 0.0
    ensures TensorSum(dims, f) == f(x)
  {
    CoordRightOfIndex(x, dims);
    var k := IndexRight(x, dims);
    forall i: nat | i < Numel(dims) && i != k ensures Linear(dims, f)(i) == 0.0 {
      CoordRightSpec(dims, i);
      assert CoordRight(dims, i) != x;
    }
    SumPoint(Numel(dims), k, Linear(dims, f));
  }

  /** A tensor whose values are sums: the order of summation does not matter. */
  lemma TensorSwap(dims: Coord, n: nat, f: Tensor, parts: nat -> Tensor, sums: nat -> real)
    requires forall c :: InBounds(c, dims) ==> f(c) == Sum(n, ValuesAt(parts, c))
    requires forall j: nat :: j < n ==> sums(j) == TensorSum(dims, parts(j))
    ensures TensorSum(dims, f) == Sum(n, sums)
  {
    var size := Numel(dims);
    var both := PartsByIndex(dims, parts);
    forall k: nat | k < size ensures Linear(dims, f)(k) == RowSums(n, both)(k) {
      CoordRightSpec(dims, k);
      SumExt(n, ValuesAt(parts, CoordRight(dims, k)), Row(both, k));
    }
    SumExt(size, Linear(dims, f), RowSums(n, both));
    SumSwap(size, n, both);
    forall j: nat | j < n ensures ColSums(size, both)(j) == sums(j) {
      SumExt(size, Col(both, j), Linear(dims, parts(j)));
    }
    SumExt(n, ColSums(size, both), sums);
  }

  function ValuesAt(parts: nat -> Tensor, c: Coord): nat -> real
  {
    (j: nat) => parts(j)(c)
  }

  function PartsByIndex(dims: Coord, parts: nat -> Tensor): (nat, nat) -> real
  {
    (k: nat, j: nat) => parts(j)(CoordRight(dims, k))
  }

  function ValuesAt2(parts: (nat, nat) -> Tensor, c: Coord): (nat, nat) -> real
  {
    (i: nat, j: nat) => parts(i, j)(c)
  }

  function RowTensor(parts: (nat, nat) -> Tensor, m: nat): nat -> Tensor
  {
    (i: nat) => (c: Coord) => Sum(m, Row(ValuesAt2(parts, c), i))
  }

  function RowParts(parts: (nat, nat) -> Tensor, i: nat): nat -> Tensor
  {
    (j: nat) => parts(i, j)
  }

  lemma TensorSwap2(dims: Coord, n: nat, m: nat, f: Tensor, parts: (nat, nat) -> Tensor, sums: (nat, nat) -> real)
    requires forall c :: InBounds(c, dims) ==> f(c) == Sum2(n, m, ValuesAt2(parts, c))
    requires forall i: nat, j: nat :: i < n && j < m ==> sums(i, j) == TensorSum(dims, parts(i, j))
    ensures TensorSum(dims, f) == Sum2(n, m, sums)
  {
    var rows := RowTensor(parts, m);
    forall i: nat | i < n ensures RowSums(m, sums)(i) == TensorSum(dims, rows(i)) {
      forall c | InBounds(c, dims) ensures rows(i)(c) == Sum(m, ValuesAt(RowParts(parts, i), c)) {
        SumExt(m, Row(ValuesAt2(parts, c), i), ValuesAt(RowParts(parts, i), c));
      }
      TensorSwap(dims, m, rows(i), RowParts(parts, i), Row(sums, i));
    }
    forall c | InBounds(c, dims) ensures f(c) == Sum(n, ValuesAt(rows, c)) {
      SumExt(n, RowSums(m, ValuesAt2(parts, c)), ValuesAt(rows, c));
    }
    TensorSwap(dims, n, f, rows, RowSums(m, sums));
  }

  function Mul(f: Tensor, g: Tensor): Tensor
  {
    (c: Coord) => f(c) * g(c)
  }

  function Minus(f: Tensor, g: Tensor): Tensor
  {
    (c: Coord) => f(c) - g(c)
  }

  /** Inner product of two tensors. */
  function Inner(dims: Coord, f: Tensor, g: Tensor): real
  {
    TensorSum(dims, Mul(f, g))
  }

  lemma InnerExt(dims: Coord, f: Tensor, g: Tensor, f': Tensor, g': Tensor)
    requires forall c :: InBounds(c, dims) ==> f(c) == f'(c) && g(c) == g'(c)
    ensures Inner(dims, f, g) == Inner(dims, f', g')
  {
    TensorExt(dims, Mul(f, g), Mul(f', g'));
  }

  lemma InnerSymmetric(dims: Coord, f: Tensor, g: Tensor)
    ensures Inner(dims, f, g) == Inner(dims, g, f)
  {
    TensorExt(dims, Mul(f, g), Mul(g, f));
  }

  lemma InnerAdd(dims: Coord, f: Tensor, g: Tensor, h: Tensor, k: Tensor)
    requires forall c :: InBounds(c, dims) ==> h(c) == f(c) + g(c)
    ensures Inner(dims, h, k) == Inner(dims, f, k) + Inner(dims, g, k)
  {
    forall c | InBounds(c, dims) ensures Mul(h, k)(c) == Mul(f, k)(c) + Mul(g, k)(c) {
      assert (f(c) + g(c)) * k(c) == f(c) * k(c) + g(c) * k(c);
    }
    TensorAdd(dims, Mul(f, k), Mul(g, k), Mul(h, k));
  }

  lemma InnerSquare(dims: Coord, f: Tensor)
    ensures Inner(dims, f, f) >= 0.0
  {
    TensorNonNegative(dims, Mul(f, f));
  }

  /** ||f - g||^2 = ||f||^2 - 2 <f,g> + ||g||^2. */
  lemma SquareOfDifference(dims: Coord, f: Tensor, g: Tensor)
    ensures Inner(dims, Minus(f, g), Minus(f, g))
         == Inner(dims, f, f) - 2.0 * Inner(dims, f, g) + Inner(dims, g, g)
  {
    var d := Minus(f, g);
    InnerAdd(dims, d, g, f, d);
    InnerAdd(dims, d, g, f, f);
    InnerAdd(dims, d, g, f, g);
    InnerSymmetric(dims, f, d);
    InnerSymmetric(dims, g, d);
    InnerSymmetric(dims, g, f);
  }

  // ----- product tensors

  /** Product over the first k modes of one value per mode and subscript. */
  function ModeProduct(h: (nat, nat) -> real, c: Coord, k: nat): real
    requires k <= |c|
  {
    if k == 0 then 1.0 else ModeProduct(h, c, k - 1) * h(k - 1, c[k - 1])
  }

  function ProductTensor(h: (nat, nat) -> real): Tensor
  {
    (c: Coord) => ModeProduct(h, c, |c|)
  }

  /** Product over the modes of the sum over each mode. */
  function ProductOfSums(h: (nat, nat) -> real, dims: Coord): real
  {
    if |dims| == 0 then 1.0
    else
      var k := |dims| - 1;
      ProductOfSums(h, dims[..k]) * Sum(dims[k], Row(h, k))
  }

  lemma {:induction false} ModeProductPrefix(h: (nat, nat) -> real, c: Coord, x: nat, k: nat)
    requires k <= |c|
    ensures ModeProduct(h, c + [x], k) == ModeProduct(h, c, k)
  {
    if k > 0 {
      ModeProductPrefix(h, c, x, k - 1);
    }
  }

  lemma CoordRightSnoc(dims: Coord, d: nat, j: nat, i: nat)
    requires j < Numel(dims) && i < d
    ensures CoordRight(dims + [d], j * d + i) == CoordRight(dims, j) + [i]
  {
    CoordRightSpec(dims, j);
    var c := CoordRight(dims, j) + [i];
    IndexRightSnoc(CoordRight(dims, j), dims, i, d);
    assert InBounds(c, dims + [d]);
    CoordRightOfIndex(c, dims + [d]);
  }

  lemma ProductTensorEntry(init: Coord, d: nat, h: (nat, nat) -> real, j: nat, i: nat)
    requires j < Numel(init) && i < d
    ensures Blocks(Linear(init + [d], ProductTensor(h)), d)(j, i)
         == Linear(init, ProductTensor(h))(j) * h(|init|, i)
  {
    hide Numel, CoordRight;
    var c := CoordRight(init, j);
    CoordRightSnoc(init, d, j, i);
    ModeProductPrefix(h, c, i, |c|);
    assert ModeProduct(h, c + [i], |c| + 1) == ModeProduct(h, c, |c|) * h(|c|, i);
  }

  lemma ProductTensorBlock(init: Coord, d: nat, h: (nat, nat) -> real, j: nat)
    requires j < Numel(init)
    ensures RowSums(d, Blocks(Linear(init + [d], ProductTensor(h)), d))(j)
         == Sum(d, Row(h, |init|)) * Linear(init, ProductTensor(h))(j)
  {
    hide Numel, Blocks, Linear, Sum;
    var both := Blocks(Linear(init + [d], ProductTensor(h)), d);
    var p := Linear(init, ProductTensor(h))(j);
    forall i: nat | i < d ensures Row(both, j)(i) == p * Row(h, |init|)(i) {
      ProductTensorEntry(init, d, h, j, i);
    }
    SumScale(d, p, Row(h, |init|), Row(both, j));
  }

  lemma ProductTensorStep(init: Coord, d: nat, h: (nat, nat) -> real)
    ensures TensorSum(init + [d], ProductTensor(h)) == Sum(d, Row(h, |init|)) * TensorSum(init, ProductTensor(h))
  {
    hide Numel, Blocks, Linear, Sum, ProductTensor, Row, RowSums;
    NumelSnoc(init, d);
    var f := Linear(init + [d], ProductTensor(h));
    SumBlocks(Numel(init), d, f);
    forall j: nat | j < Numel(init)
      ensures RowSums(d, Blocks(f, d))(j) == Sum(d, Row(h, |init|)) * Linear(init, ProductTensor(h))(j)
    {
      ProductTensorBlock(init, d, h, j);
    }
    SumScale(Numel(init), Sum(d, Row(h, |init|)), Linear(init, ProductTensor(h)), RowSums(d, Blocks(f, d)));
  }

  lemma TensorSumScalar(f: Tensor)
    ensures TensorSum([], f) == f([])
  {
    var none: Coord := [];
    assert Numel(none) == 1 && CoordRight(none, 0) == none;
    assert Sum(1, Linear(none, f)) == Sum(0, Linear(none, f)) + Linear(none, f)(0);
  }

  /** The sum of a product tensor is the product of the sums over each mode. */
  lemma {:induction false} ProductTensorSum(dims: Coord, h: (nat, nat) -> real)
    ensures TensorSum(dims, ProductTensor(h)) == ProductOfSums(h, dims)
  {
    if |dims| == 0 {
      TensorSumScalar(ProductTensor(h));
    } else {
      hide TensorSum;
      var k := |dims| - 1;
      assert dims == dims[..k] + [dims[k]];
      ProductTensorStep(dims[..k], dims[k], h);
      ProductTensorSum(dims[..k], h);
    }
  }
}
