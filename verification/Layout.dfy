/** Linear indices of a dense tensor in the two layouts, and the fact that linear order restricted
    to a box is the box's own linear order. */
module Layout {
  import opened Arithmetic
  import opened Sequences

  type Coord = seq<nat>

  function Numel(dims: Coord): nat
  {
    if |dims| == 0 then 1 else dims[0] * Numel(dims[1..])
  }

  ghost predicate InBounds(c: Coord, dims: Coord)
  {
    |c| == |dims| && forall m :: 0 <= m < |c| ==> c[m] < dims[m]
  }

  /** Index with the last mode fastest (TensorLayoutRight; also the rank order of a process grid). */
  function IndexRight(c: Coord, dims: Coord): nat
    requires |c| == |dims|
  {
    if |c| == 0 then 0 else c[0] * Numel(dims[1..]) + IndexRight(c[1..], dims[1..])
  }

  /** Index with the first mode fastest (TensorLayoutLeft). */
  function IndexLeft(c: Coord, dims: Coord): nat
    requires |c| == |dims|
  {
    if |c| == 0 then 0 else c[0] + dims[0] * IndexLeft(c[1..], dims[1..])
  }

  datatype TensorLayout = Left | Right

  function Index(layout: TensorLayout, c: Coord, dims: Coord): nat
    requires |c| == |dims|
  {
    if layout.Left? then IndexLeft(c, dims) else IndexRight(c, dims)
  }

  lemma {:induction false} IndexRightBound(c: Coord, dims: Coord)
    requires InBounds(c, dims)
    ensures IndexRight(c, dims) < Numel(dims)
  {
    if |c| > 0 {
      IndexRightBound(c[1..], dims[1..]);
      var n := Numel(dims[1..]);
      MulMono(c[0] + 1, dims[0], n);
      assert (c[0] + 1) * n == c[0] * n + n;
    }
  }

  /** Dictionary order. */
  ghost predicate LexLess(c: Coord, d: Coord)
    requires |c| == |d|
  {
    |c| > 0 && (c[0] < d[0] || (c[0] == d[0] && LexLess(c[1..], d[1..])))
  }

  lemma {:induction false} LexTotal(c: Coord, d: Coord)
    requires |c| == |d|
    ensures LexLess(c, d) || LexLess(d, c) || c == d
  {
    if |c| > 0 && c[0] == d[0] {
      LexTotal(c[1..], d[1..]);
      assert c == [c[0]] + c[1..] && d == [d[0]] + d[1..];
    }
  }

  /** The linear index is dictionary order. */
  lemma {:induction false} IndexRightMonotone(c: Coord, d: Coord, dims: Coord)
    requires InBounds(c, dims) && InBounds(d, dims) && LexLess(c, d)
    ensures IndexRight(c, dims) < IndexRight(d, dims)
  {
    var n := Numel(dims[1..]);
    if c[0] < d[0] {
      IndexRightBound(c[1..], dims[1..]);
      MulMono(c[0] + 1, d[0], n);
      assert (c[0] + 1) * n == c[0] * n + n;
    } else {
      IndexRightMonotone(c[1..], d[1..], dims[1..]);
    }
  }

  /** Distinct coordinates have distinct indices. */
  lemma IndexRightInjective(c: Coord, d: Coord, dims: Coord)
    requires InBounds(c, dims) && InBounds(d, dims)
    requires IndexRight(c, dims) == IndexRight(d, dims)
    ensures c == d
  {
    LexTotal(c, d);
    if LexLess(c, d) {
      IndexRightMonotone(c, d, dims);
    } else if LexLess(d, c) {
      IndexRightMonotone(d, c, dims);
    }
  }

  function Quotient(k: nat, n: nat): nat
    requires n > 0
  {
    k / n
  }

  /** The coordinate at a linear index, mode by mode from the slowest. */
  function CoordRight(dims: Coord, k: nat): (c: Coord)
    ensures |c| == |dims|
  {
    if |dims| == 0 then []
    else
      var n := Numel(dims[1..]);
      if n == 0 then seq(|dims|, _ => 0) else [Quotient(k, n)] + CoordRight(dims[1..], k % n)
  }

  lemma {:induction false} CoordRightSpec(dims: Coord, k: nat)
    requires k < Numel(dims)
    ensures InBounds(CoordRight(dims, k), dims)
    ensures IndexRight(CoordRight(dims, k), dims) == k
  {
    if |dims| > 0 {
      var n := Numel(dims[1..]);
      PositiveFactor(dims[0], n);
      DivModLess(k, dims[0], n);
      CoordRightSpec(dims[1..], k % n);
    }
  }

  /** IndexRight and CoordRight are inverse on the box. */
  lemma CoordRightOfIndex(c: Coord, dims: Coord)
    requires InBounds(c, dims)
    ensures IndexRight(c, dims) < Numel(dims) && CoordRight(dims, IndexRight(c, dims)) == c
  {
    IndexRightBound(c, dims);
    CoordRightSpec(dims, IndexRight(c, dims));
    IndexRightInjective(CoordRight(dims, IndexRight(c, dims)), c, dims);
  }

  // ----- first mode fastest: the same thing on reversed lists

  function Reverse<T>(s: seq<T>): (r: seq<T>)
    ensures |r| == |s| && forall i :: 0 <= i < |s| ==> r[i] == s[|s| - 1 - i]
  {
    if |s| == 0 then [] else Reverse(s[1..]) + [s[0]]
  }

  lemma ReverseTwice<T>(s: seq<T>)
    ensures Reverse(Reverse(s)) == s
  {
  }

  lemma {:induction false} NumelSnoc(dims: Coord, d: nat)
    ensures Numel([]) == 1 && Numel(dims + [d]) == Numel(dims) * d
  {
    if |dims| == 0 {
      assert (dims + [d])[1..] == [];
    } else {
      assert (dims + [d])[1..] == dims[1..] + [d];
      NumelSnoc(dims[1..], d);
      MulAssoc(dims[0], Numel(dims[1..]), d);
    }
  }

  lemma {:induction false} IndexRightSnoc(c: Coord, dims: Coord, x: nat, d: nat)
    requires |c| == |dims|
    ensures IndexRight(c + [x], dims + [d]) == IndexRight(c, dims) * d + x
  {
    if |c| == 0 {
      assert (c + [x])[1..] == [] && (dims + [d])[1..] == [];
    } else {
      assert (c + [x])[1..] == c[1..] + [x] && (dims + [d])[1..] == dims[1..] + [d];
      IndexRightSnoc(c[1..], dims[1..], x, d);
      NumelSnoc(dims[1..], d);
      MulAssoc(c[0], Numel(dims[1..]), d);
      assert (c[0] * Numel(dims[1..]) + IndexRight(c[1..], dims[1..])) * d
          == c[0] * Numel(dims[1..]) * d + IndexRight(c[1..], dims[1..]) * d;
    }
  }

  lemma {:induction false} LeftIsReversedRight(c: Coord, dims: Coord)
    requires |c| == |dims|
    ensures IndexLeft(c, dims) == IndexRight(Reverse(c), Reverse(dims))
    ensures Numel(Reverse(dims)) == Numel(dims)
  {
    if |c| > 0 {
      LeftIsReversedRight(c[1..], dims[1..]);
      IndexRightSnoc(Reverse(c[1..]), Reverse(dims[1..]), c[0], dims[0]);
      NumelSnoc(Reverse(dims[1..]), dims[0]);
    }
  }

  /** The two layouts, one mode after the other: with the first mode fastest a further mode counts the
      entries of all modes before it, with the last mode fastest the modes before it count its entries. */
  lemma IndexIsPlain(c: Coord, dims: Coord, x: nat, d: nat)
    requires |c| == |dims|
    ensures Index(Left, [], []) == 0 && Index(Right, [], []) == 0
    ensures Index(Left, c + [x], dims + [d]) == Index(Left, c, dims) + x * Numel(dims)
    ensures Index(Right, c + [x], dims + [d]) == Index(Right, c, dims) * d + x
  {
    IndexRightSnoc(c, dims, x, d);
    IndexLeftSnoc(c, dims, x, d);
  }

  /** The coordinate at a linear index of either layout. */
  function CoordAt(layout: TensorLayout, dims: Coord, k: nat): (c: Coord)
    ensures |c| == |dims|
  {
    if layout.Right? then CoordRight(dims, k) else Reverse(CoordRight(Reverse(dims), k))
  }

  /** CoordAt inverts Index. */
  lemma CoordAtSpec(layout: TensorLayout, dims: Coord, k: nat)
    requires k < Numel(dims)
    ensures InBounds(CoordAt(layout, dims, k), dims)
    ensures Index(layout, CoordAt(layout, dims, k), dims) == k
  {
    if layout.Right? {
      CoordRightSpec(dims, k);
    } else {
      var c := CoordRight(Reverse(dims), k);
      LeftIsReversedRight(Reverse(c), dims);
      CoordRightSpec(Reverse(dims), k);
      ReverseTwice(c);
    }
  }

  lemma IndexInjective(layout: TensorLayout, c: Coord, d: Coord, dims: Coord)
    requires InBounds(c, dims) && InBounds(d, dims)
    requires Index(layout, c, dims) == Index(layout, d, dims)
    ensures c == d
  {
    if layout.Right? {
      IndexRightInjective(c, d, dims);
    } else {
      LeftIsReversedRight(c, dims);
      LeftIsReversedRight(d, dims);
      IndexRightInjective(Reverse(c), Reverse(d), Reverse(dims));
      ReverseTwice(c);
      ReverseTwice(d);
    }
  }

  lemma IndexBound(layout: TensorLayout, c: Coord, dims: Coord)
    requires InBounds(c, dims)
    ensures Index(layout, c, dims) < Numel(dims)
  {
    IndexRightBound(c, dims);
    if layout.Left? {
      LeftIsReversedRight(c, dims);
      IndexRightBound(Reverse(c), Reverse(dims));
    }
  }

  lemma PeelFirst(siz: Coord, ind: nat)
    requires |siz| > 0 && ind < Numel(siz)
    ensures siz[0] > 0 && Numel(siz) / siz[0] == Numel(siz[1..]) > 0
    ensures var n := Numel(siz[1..]);
            && CoordRight(siz, ind) == [ind / n] + CoordRight(siz[1..], ind % n)
  {
    var n := Numel(siz[1..]);
    PositiveFactor(siz[0], n);
    DivideProduct(n, siz[0]);
    DivModLess(ind, siz[0], n);
  }

  lemma {:induction false} IndexLeftSnoc(c: Coord, dims: Coord, x: nat, d: nat)
    requires |c| == |dims|
    ensures IndexLeft(c + [x], dims + [d]) == IndexLeft(c, dims) + x * Numel(dims)
  {
    if |c| == 0 {
      assert (c + [x])[1..] == [] && (dims + [d])[1..] == [];
    } else {
      assert (c + [x])[1..] == c[1..] + [x] && (dims + [d])[1..] == dims[1..] + [d];
      IndexLeftSnoc(c[1..], dims[1..], x, d);
      var n := Numel(dims[1..]);
      assert dims[0] * (IndexLeft(c[1..], dims[1..]) + x * n)
            == dims[0] * IndexLeft(c[1..], dims[1..]) + dims[0] * (x * n);
      assert dims[0] * (x * n) == x * (dims[0] * n);
    }
  }

  lemma NumelLast(siz: Coord)
    requires |siz| > 0 && Numel(siz) > 0
    ensures var m := |siz| - 1;
            Numel(siz) == Numel(siz[..m]) * siz[m] && siz[m] > 0 && Numel(siz) / siz[m] == Numel(siz[..m]) > 0
  {
    var m := |siz| - 1;
    assert siz == siz[..m] + [siz[m]];
    NumelSnoc(siz[..m], siz[m]);
    PositiveFactor(Numel(siz[..m]), siz[m]);
    DivideProduct(Numel(siz[..m]), siz[m]);
  }

  lemma PeelLast(siz: Coord, ind: nat)
    requires |siz| > 0 && ind < Numel(siz)
    ensures var m := |siz| - 1;
            var n := Numel(siz[..m]);
            && siz[m] > 0 && Numel(siz) / siz[m] == n > 0
            && CoordAt(Left, siz, ind) == CoordAt(Left, siz[..m], ind % n) + [ind / n]
  {
    var m := |siz| - 1;
    var n, d := Numel(siz[..m]), siz[m];
    NumelLast(siz);
    QuotientBelow(ind, n, d);
    var high, low := ind / n, ind % n;
    PeelLastCoord(siz, ind, high, low);
  }

  lemma PeelLastCoord(siz: Coord, ind: nat, high: nat, low: nat)
    requires |siz| > 0 && ind < Numel(siz)
    requires var m := |siz| - 1; high < siz[m] && low < Numel(siz[..m])
    requires ind == high * Numel(siz[..|siz| - 1]) + low
    ensures CoordAt(Left, siz, ind) == CoordAt(Left, siz[..|siz| - 1], low) + [high]
  {
    hide CoordRight, IndexLeft, Numel, Reverse;
    var m := |siz| - 1;
    var c := CoordAt(Left, siz[..m], low);
    CoordAtSpec(Left, siz[..m], low);
    CoordAtSpec(Left, siz, ind);
    assert siz == siz[..m] + [siz[m]];
    IndexLeftSnoc(c, siz[..m], high, siz[m]);
    var whole := CoordAt(Left, siz, ind);
    var split := c + [high];
    assert InBounds(split, siz);
    assert Index(Left, split, siz) == ind;
    IndexInjective(Left, split, whole, siz);
  }

  lemma ConcatThree(a: Coord, x: nat, b: Coord)
    ensures (a + [x]) + b == a + ([x] + b)
  {
  }

  /** One subscript: the cumulative product loses the mode's size, the index its leading digit. */
  method TakeDigit(cumprod: nat, ind: nat, size: nat) returns (next: nat, sbs: nat, rest: nat)
    requires size > 0 && cumprod / size > 0
    ensures next == cumprod / size && sbs == ind / next && rest == ind % next
  {
    next := cumprod / size;
    SubtractMultiple(ind, next);
    sbs := ind / next;
    rest := ind - sbs * next;
  }

  /** Peel modes from the slowest one, which is the last. */
  method Ind2SubLeft(siz: Coord, numel: nat, index: nat) returns (sub: Coord)
    requires numel == Numel(siz) && index < numel
    ensures sub == CoordAt(Left, siz, index)
    ensures |sub| == |siz| && (forall m :: 0 <= m < |sub| ==> sub[m] < siz[m]) && Index(Left, sub, siz) == index
  {
    sub := seq(|siz|, _ => 0);
    hide Numel, CoordAt;
    var cumprod: nat, ind: nat := numel, index;
    var i := |siz|;
    assert siz[..i] == siz;
    while i > 0
      invariant 0 <= i <= |siz| && |sub| == |siz|
      invariant cumprod == Numel(siz[..i]) && ind < cumprod
      invariant CoordAt(Left, siz, index) == CoordAt(Left, siz[..i], ind) + sub[i..]
    {
      ghost var rest := sub[i..];
      PeelLast(siz[..i], ind);
      assert siz[..i][..i - 1] == siz[..i - 1];
      var sbs: nat;
      cumprod, sbs, ind := TakeDigit(cumprod, ind, siz[i - 1]);
      sub := sub[i - 1 := sbs];
      assert sub[i - 1..] == [sbs] + rest;
      ConcatThree(CoordAt(Left, siz[..i - 1], ind), sbs, rest);
      i := i - 1;
    }
    assert sub == CoordAt(Left, siz, index);
    CoordAtSpec(Left, siz, index);
  }

  /** Peel modes from the slowest one, which is the first. */
  method Ind2SubRight(siz: Coord, numel: nat, index: nat) returns (sub: Coord)
    requires numel == Numel(siz) && index < numel
    ensures sub == CoordAt(Right, siz, index)
    ensures |sub| == |siz| && (forall m :: 0 <= m < |sub| ==> sub[m] < siz[m]) && Index(Right, sub, siz) == index
  {
    sub := seq(|siz|, _ => 0);
    hide Numel, CoordRight;
    var cumprod: nat, ind: nat := numel, index;
    var i := 0;
    assert siz[0..] == siz;
    while i < |siz|
      invariant 0 <= i <= |siz| && |sub| == |siz|
      invariant cumprod == Numel(siz[i..]) && ind < cumprod
      invariant CoordRight(siz, index) == sub[..i] + CoordRight(siz[i..], ind)
    {
      ghost var done := sub[..i];
      PeelFirst(siz[i..], ind);
      assert siz[i..][1..] == siz[i + 1..];
      var sbs: nat;
      cumprod, sbs, ind := TakeDigit(cumprod, ind, siz[i]);
      sub := sub[i := sbs];
      assert sub[..i + 1] == done + [sbs];
      ConcatThree(done, sbs, CoordRight(siz[i + 1..], ind));
      i := i + 1;
    }
    assert sub[..i] == sub;
    CoordAtSpec(Right, siz, index);
  }

  // ----- boxes

  /** A box of a tensor: lower corner and one past the upper corner. */
  datatype Box = Box(lower: Coord, upper: Coord)

  ghost predicate BoxIn(b: Box, dims: Coord)
  {
    && |b.lower| == |b.upper| == |dims|
    && forall m :: 0 <= m < |dims| ==> b.lower[m] <= b.upper[m] <= dims[m]
  }

  ghost predicate InBox(c: Coord, b: Box)
  {
    && |c| == |b.lower| == |b.upper|
    && forall m :: 0 <= m < |c| ==> b.lower[m] <= c[m] < b.upper[m]
  }

  function LocalDims(b: Box): (d: Coord)
    requires |b.lower| == |b.upper| && forall m :: 0 <= m < |b.lower| ==> b.lower[m] <= b.upper[m]
    ensures |d| == |b.lower|
  {
    seq(|b.lower|, m requires 0 <= m < |b.lower| => b.upper[m] - b.lower[m])
  }

  /** Local to global coordinates. */
  function ShiftUp(c: Coord, lower: Coord): (r: Coord)
    requires |c| == |lower|
    ensures |r| == |c|
  {
    seq(|c|, m requires 0 <= m < |c| => c[m] + lower[m])
  }

  /** Global to local coordinates. */
  function ShiftDown(c: Coord, lower: Coord): (r: Coord)
    requires |c| == |lower| && forall m :: 0 <= m < |c| ==> lower[m] <= c[m]
    ensures |r| == |c|
  {
    seq(|c|, m requires 0 <= m < |c| => c[m] - lower[m])
  }

  lemma ShiftInverse(c: Coord, b: Box)
    requires InBox(c, b)
    ensures InBounds(ShiftDown(c, b.lower), LocalDims(b))
    ensures ShiftUp(ShiftDown(c, b.lower), b.lower) == c
  {
  }

  lemma {:induction false} LexLessShift(c: Coord, d: Coord, lower: Coord)
    requires |c| == |d| == |lower| && LexLess(c, d)
    ensures LexLess(ShiftUp(c, lower), ShiftUp(d, lower))
  {
    if c[0] == d[0] {
      LexLessShift(c[1..], d[1..], lower[1..]);
      assert ShiftUp(c, lower)[1..] == ShiftUp(c[1..], lower[1..]);
      assert ShiftUp(d, lower)[1..] == ShiftUp(d[1..], lower[1..]);
    }
  }

  /** Order isomorphism: a box keeps the linear order of the tensor it is cut from. */
  lemma BoxOrderRight(b: Box, dims: Coord, j: nat, k: nat)
    requires BoxIn(b, dims) && j < k < Numel(LocalDims(b))
    ensures var cj := ShiftUp(CoordRight(LocalDims(b), j), b.lower);
            var ck := ShiftUp(CoordRight(LocalDims(b), k), b.lower);
            InBounds(cj, dims) && InBounds(ck, dims) && IndexRight(cj, dims) < IndexRight(ck, dims)
  {
    var ld := LocalDims(b);
    var lj, lk := CoordRight(ld, j), CoordRight(ld, k);
    CoordRightSpec(ld, j);
    CoordRightSpec(ld, k);
    LexTotal(lj, lk);
    if LexLess(lk, lj) {
      IndexRightMonotone(lk, lj, ld);
    }
    LexLessShift(lj, lk, b.lower);
    IndexRightMonotone(ShiftUp(lj, b.lower), ShiftUp(lk, b.lower), dims);
  }

  lemma BoxOrderLeft(b: Box, dims: Coord, j: nat, k: nat)
    requires BoxIn(b, dims) && j < k < Numel(LocalDims(b))
    ensures var cj := ShiftUp(CoordAt(Left, LocalDims(b), j), b.lower);
            var ck := ShiftUp(CoordAt(Left, LocalDims(b), k), b.lower);
            InBounds(cj, dims) && InBounds(ck, dims) && IndexLeft(cj, dims) < IndexLeft(ck, dims)
  {
    var rb := Box(Reverse(b.lower), Reverse(b.upper));
    assert LocalDims(rb) == Reverse(LocalDims(b));
    LeftIsReversedRight(LocalDims(b), LocalDims(b));
    BoxOrderRight(rb, Reverse(dims), j, k);
    LeftShift(b, dims, j);
    LeftShift(b, dims, k);
  }

  lemma {:induction false} ReverseShift(l: Coord, lower: Coord)
    requires |l| == |lower|
    ensures ShiftUp(Reverse(l), Reverse(lower)) == Reverse(ShiftUp(l, lower))
  {
    var up := ShiftUp(l, lower);
    forall m | 0 <= m < |l| ensures ShiftUp(Reverse(l), Reverse(lower))[m] == Reverse(up)[m] {
      assert up[|l| - 1 - m] == l[|l| - 1 - m] + lower[|l| - 1 - m];
    }
  }

  lemma LeftShift(b: Box, dims: Coord, j: nat)
    requires BoxIn(b, dims) && j < Numel(LocalDims(b))
    ensures Numel(Reverse(LocalDims(b))) == Numel(LocalDims(b))
    ensures var cj := ShiftUp(CoordAt(Left, LocalDims(b), j), b.lower);
            && InBounds(cj, dims)
            && IndexLeft(cj, dims)
            == IndexRight(ShiftUp(CoordRight(Reverse(LocalDims(b)), j), Reverse(b.lower)), Reverse(dims))
  {
    hide Numel, IndexLeft, IndexRight, CoordRight;
    LeftIsReversedRight(LocalDims(b), LocalDims(b));
    var c := CoordRight(Reverse(LocalDims(b)), j);
    CoordAtSpec(Left, LocalDims(b), j);
    var l := CoordAt(Left, LocalDims(b), j);
    assert l == Reverse(c);
    ReverseShift(l, b.lower);
    ReverseTwice(c);
    LeftIsReversedRight(ShiftUp(l, b.lower), dims);
  }

  lemma BoxOrder(layout: TensorLayout, b: Box, dims: Coord, j: nat, k: nat)
    requires BoxIn(b, dims) && j < k < Numel(LocalDims(b))
    ensures GlobalIndex(layout, b, dims, j) < GlobalIndex(layout, b, dims, k)
  {
    if layout.Right? {
      BoxOrderRight(b, dims, j, k);
    } else {
      BoxOrderLeft(b, dims, j, k);
    }
  }

  /** Global position of the j-th entry of a box. */
  function GlobalIndex(layout: TensorLayout, b: Box, dims: Coord, j: nat): nat
    requires BoxIn(b, dims) && j < Numel(LocalDims(b))
  {
    Index(layout, ShiftUp(CoordAt(layout, LocalDims(b), j), b.lower), dims)
  }

  /** The entries of a box, read in the tensor's own order, are in the box's own order: the list of
      tagged positions is the list of global indices of local indices 0, 1, 2, ... */
  lemma BoxPositions(layout: TensorLayout, b: Box, dims: Coord, tags: seq<nat>, t: nat)
    requires BoxIn(b, dims) && |tags| == Numel(dims)
    requires forall k: nat :: k < |tags| ==> (tags[k] == t <==> InBox(CoordAt(layout, dims, k), b))
    ensures |Positions(tags, t)| == Numel(LocalDims(b))
    ensures forall j: nat :: j < Numel(LocalDims(b)) ==>
              Positions(tags, t)[j] == GlobalIndex(layout, b, dims, j)
  {
    var mine := GlobalIndices(layout, b, dims);
    forall i, j | 0 <= i < j < |mine| ensures mine[i] < mine[j] {
      BoxOrder(layout, b, dims, i, j);
    }
    PositionsSpec(tags, t);
    forall x: nat ensures x in mine <==> x in Positions(tags, t) {
      GlobalIndicesAreBox(layout, b, dims, x);
    }
    IncreasingUnique(mine, Positions(tags, t));
  }

  /** Global indices of local indices 0, 1, 2, ... */
  function GlobalIndices(layout: TensorLayout, b: Box, dims: Coord): (r: seq<nat>)
    requires BoxIn(b, dims)
    ensures |r| == Numel(LocalDims(b))
  {
    seq(Numel(LocalDims(b)), j requires 0 <= j < Numel(LocalDims(b)) => GlobalIndex(layout, b, dims, j))
  }

  lemma GlobalIndicesAreBox(layout: TensorLayout, b: Box, dims: Coord, x: nat)
    requires BoxIn(b, dims)
    ensures x in GlobalIndices(layout, b, dims) <==> x < Numel(dims) && InBox(CoordAt(layout, dims, x), b)
  {
    var mine := GlobalIndices(layout, b, dims);
    if x in mine {
      var j: nat :| j < |mine| && mine[j] == x;
      BoxEntry(layout, b, dims, j);
    }
    if x < Numel(dims) && InBox(CoordAt(layout, dims, x), b) {
      var j := BoxLocal(layout, b, dims, x);
      assert mine[j] == x;
    }
  }

  /** A coordinate of the box has a local index. */
  lemma BoxLocal(layout: TensorLayout, b: Box, dims: Coord, x: nat) returns (j: nat)
    requires BoxIn(b, dims) && x < Numel(dims) && InBox(CoordAt(layout, dims, x), b)
    ensures j < Numel(LocalDims(b)) && GlobalIndex(layout, b, dims, j) == x
  {
    var c, ld := CoordAt(layout, dims, x), LocalDims(b);
    ShiftInverse(c, b);
    var l := ShiftDown(c, b.lower);
    IndexBound(layout, l, ld);
    j := Index(layout, l, ld);
    CoordAtSpec(layout, dims, x);
    CoordAtSpec(layout, ld, j);
    IndexInjective(layout, CoordAt(layout, ld, j), l, ld);
  }

  /** A local index names a coordinate inside the box, and the global index leads back to it. */
  lemma BoxEntry(layout: TensorLayout, b: Box, dims: Coord, j: nat)
    requires BoxIn(b, dims) && j < Numel(LocalDims(b))
    ensures var c := ShiftUp(CoordAt(layout, LocalDims(b), j), b.lower);
            && InBox(c, b)
            && GlobalIndex(layout, b, dims, j) < Numel(dims)
            && CoordAt(layout, dims, GlobalIndex(layout, b, dims, j)) == c
  {
    var c := ShiftUp(CoordAt(layout, LocalDims(b), j), b.lower);
    CoordAtSpec(layout, LocalDims(b), j);
    assert InBounds(c, dims);
    IndexBound(layout, c, dims);
    CoordAtSpec(layout, dims, Index(layout, c, dims));
    IndexInjective(layout, CoordAt(layout, dims, Index(layout, c, dims)), c, dims);
  }
}
