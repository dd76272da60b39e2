/** The matricised tensor times Khatri-Rao product, by the reference loop over nonzeros. */
module Mttkrp {
  import opened Layout
  import opened Vectors

  /** A nonzero: its coordinates and its value. A dense tensor is the list of all its entries. */
  datatype Entry = Entry(coo: seq<nat>, val: real)

  /** Matrix entry; zero outside the matrix. */
  function At(m: Mat, i: int, r: int): real
  {
    if 0 <= i < |m| && 0 <= r < |m[i]| then m[i][r] else 0.0
  }

  lemma AtIsEntry(m: Mat, i: nat, r: nat)
    ensures i < |m| && r < |m[i]| ==> At(m, i, r) == m[i][r]
    ensures i >= |m| || r >= |m[i]| ==> At(m, i, r) == 0.0
  {
  }

  function Weight(w: Vec, r: int): real
  {
    if 0 <= r < |w| then w[r] else 0.0
  }

  /** Entry of the factor of mode m that a coordinate selects. */
  function FactorAt(u: seq<Mat>, coo: seq<nat>, m: nat, r: nat): real
  {
    if m < |u| && m < |coo| then At(u[m], coo[m], r) else 0.0
  }

  /** Product over the first k modes, leaving out mode n (none when n is no mode). */
  function SkipProd(u: seq<Mat>, coo: seq<nat>, n: nat, r: nat, k: nat): real
  {
    if k == 0 then 1.0
    else if k - 1 == n then SkipProd(u, coo, n, r, k - 1)
    else SkipProd(u, coo, n, r, k - 1) * FactorAt(u, coo, k - 1, r)
  }

  /** What one nonzero adds to its row of the mode-n result. */
  function Term(x: Entry, u: seq<Mat>, w: Vec, n: nat, r: nat): real
  {
    x.val * Weight(w, r) * SkipProd(u, x.coo, n, r, |u|)
  }

  function IfRow(x: Entry, n: nat, row: nat, value: real): real
  {
    if n < |x.coo| && x.coo[n] == row then value else 0.0
  }

  /** Entry (row, r) of the mode-n MTTKRP. */
  function MttkrpAt(xs: seq<Entry>, u: seq<Mat>, w: Vec, n: nat, row: nat, r: nat): real
  {
    if |xs| == 0 then 0.0
    else
      var k := |xs| - 1;
      MttkrpAt(xs[..k], u, w, n, row, r) + IfRow(xs[k], n, row, Term(xs[k], u, w, n, r))
  }

  ghost predicate FactorsFit(u: seq<Mat>, dims: seq<nat>, nc: nat)
  {
    |u| == |dims| && forall m :: 0 <= m < |u| ==> IsMat(u[m], dims[m], nc)
  }

  ghost predicate CoordsFit(xs: seq<Entry>, dims: seq<nat>)
  {
    forall i :: 0 <= i < |xs| ==> InBounds(xs[i].coo, dims)
  }

  // ----- written out over the entries

  /** The coordinate selects an entry of factor m. */
  ghost predicate HasEntry(u: seq<Mat>, coo: seq<nat>, m: nat, r: nat)
  {
    m < |coo| && m < |u| && coo[m] < |u[m]| && r < |u[m][coo[m]]|
  }

  /** s lists the entries of the factors that the coordinate selects, with one in place of mode n. */
  ghost predicate SelectedFactors(u: seq<Mat>, coo: seq<nat>, n: nat, r: nat, s: Vec)
  {
    forall m: nat :: m < |s| ==>
      if m == n then s[m] == 1.0 else HasEntry(u, coo, m, r) && s[m] == u[m][coo[m]][r]
  }

  lemma LastFactor(u: seq<Mat>, coo: seq<nat>, n: nat, r: nat, s: Vec)
    requires |s| > 0 && SelectedFactors(u, coo, n, r, s)
    ensures s[|s| - 1] == if |s| - 1 == n then 1.0 else FactorAt(u, coo, |s| - 1, r)
  {
  }

  lemma {:induction false} SkipProdIsProduct(u: seq<Mat>, coo: seq<nat>, n: nat, r: nat, k: nat, s: Vec)
    requires k == |s| <= |u| && SelectedFactors(u, coo, n, r, s)
    ensures SkipProd(u, coo, n, r, k) == ProductOf(s)
  {
    if k > 0 {
      hide ProductOf, At;
      SkipProdIsProduct(u, coo, n, r, k - 1, s[..k - 1]);
      ProductSnoc(s[..k - 1], s[k - 1]);
      assert s == s[..k - 1] + [s[k - 1]];
      LastFactor(u, coo, n, r, s);
    }
  }

  /** What one nonzero adds: its value times the weight of the component times the entries of the other
      modes' factors that its subscripts select. */
  lemma TermIsPlain(x: Entry, u: seq<Mat>, w: Vec, n: nat, r: nat, s: Vec)
    requires r < |w| && |s| == |u|
    requires SelectedFactors(u, x.coo, n, r, s)
    ensures Term(x, u, w, n, r) == x.val * w[r] * ProductOf(s)
  {
    SkipProdIsProduct(u, x.coo, n, r, |u|, s);
  }

  lemma {:induction false} MttkrpIsTotal(xs: seq<Entry>, u: seq<Mat>, w: Vec, n: nat, row: nat, r: nat, s: Vec)
    requires |s| == |xs| && forall i: nat :: i < |xs| ==> s[i] == IfRow(xs[i], n, row, Term(xs[i], u, w, n, r))
    ensures MttkrpAt(xs, u, w, n, row, r) == Total(s)
  {
    hide Term;
    if |xs| > 0 {
      var k := |xs| - 1;
      MttkrpIsTotal(xs[..k], u, w, n, row, r, s[..k]);
    }
  }

  /** An entry of the MTTKRP: the sum over the nonzeros of that row. */
  lemma MttkrpIsPlain(xs: seq<Entry>, u: seq<Mat>, w: Vec, dims: seq<nat>, nc: nat, n: nat, row: nat, r: nat)
    requires FactorsFit(u, dims, nc) && CoordsFit(xs, dims) && |w| == nc && r < nc && n < |dims|
    ensures MttkrpAt(xs, u, w, n, row, r)
         == Total(seq(|xs|, i requires 0 <= i < |xs| =>
              if xs[i].coo[n] == row then
                xs[i].val * w[r]
                * ProductOf(seq(|u|, m requires 0 <= m < |u| => if m == n then 1.0 else u[m][xs[i].coo[m]][r]))
              else 0.0))
  {
    var s := seq(|xs|, i requires 0 <= i < |xs| =>
      if xs[i].coo[n] == row then
        xs[i].val * w[r]
        * ProductOf(seq(|u|, m requires 0 <= m < |u| => if m == n then 1.0 else u[m][xs[i].coo[m]][r]))
      else 0.0);
    forall i: nat | i < |xs| ensures s[i] == IfRow(xs[i], n, row, Term(xs[i], u, w, n, r)) {
      assert InBounds(xs[i].coo, dims);
      TermIsPlain(xs[i], u, w, n, r,
                  seq(|u|, m requires 0 <= m < |u| => if m == n then 1.0 else u[m][xs[i].coo[m]][r]));
    }
    MttkrpIsTotal(xs, u, w, n, row, r, s);
  }

  /** Every column of an MTTKRP is proportional to its weight. */
  lemma {:induction false} MttkrpWeight(x: seq<Entry>, u: seq<Mat>, w: Vec, n: nat, i: nat, q: nat, nc: nat)
    requires q < nc
    ensures MttkrpAt(x, u, w, n, i, q) == Weight(w, q) * MttkrpAt(x, u, Ones(nc), n, i, q)
  {
    if |x| > 0 {
      var e := x[|x| - 1];
      MttkrpWeight(x[..|x| - 1], u, w, n, i, q, nc);
      TermWeight(e.val, Weight(w, q), SkipProd(u, e.coo, n, q, |u|));
      assert Weight(Ones(nc), q) == 1.0;
    }
  }

  lemma TermWeight(v: real, w: real, s: real)
    ensures v * w * s == w * (v * 1.0 * s)
  {
  }

  // ----- the reference loop

  /** The cell (component j, mode n) comes before (jj, nn) in the loops over components and modes. */
  predicate Before(j: nat, n: nat, jj: nat, nn: nat)
  {
    j < jj || (j == jj && n < nn)
  }

  /** Every cell holds its start value plus the entry's term, for the cells already visited. */
  ghost predicate Added(after: seq<Mat>, before: seq<Mat>, x: Entry, u: seq<Mat>, w: Vec, jj: nat, nn: nat)
  {
    |after| == |before| &&
    forall n: nat, row: nat, r: nat :: n < |before| && row < |before[n]| && r < |before[n][row]| ==>
      At(after[n], row, r) == At(before[n], row, r)
        + if Before(r, n, jj, nn) then IfRow(x, n, row, Term(x, u, w, n, r)) else 0.0
  }

  ghost predicate SameShape(a: seq<Mat>, b: seq<Mat>)
  {
    && |a| == |b|
    && forall n :: 0 <= n < |a| ==> |a[n]| == |b[n]| && forall i :: 0 <= i < |a[n]| ==> |a[n][i]| == |b[n][i]|
  }

  /** The atomic add of one value to one cell. */
  function AddTo(a: seq<Mat>, n: nat, row: nat, r: nat, v: real): (b: seq<Mat>)
    requires n < |a| && row < |a[n]| && r < |a[n][row]|
    ensures SameShape(a, b)
    ensures forall m: nat, i: nat, j: nat :: m < |a| ==>
              At(b[m], i, j) == At(a[m], i, j) + if m == n && i == row && j == r then v else 0.0
  {
    a[n := a[n][row := a[n][row][r := a[n][row][r] + v]]]
  }

  /** tmp starts at value times weight and is multiplied by the entries of the other modes. */
  method TermLoop(x: Entry, u: seq<Mat>, w: Vec, n: nat, j: nat) returns (tmp: real)
    ensures tmp == Term(x, u, w, n, j)
    ensures forall s: Vec | j < |w| && |s| == |u| && SelectedFactors(u, x.coo, n, j, s) ::
              tmp == x.val * w[j] * ProductOf(s)
  {
    hide At, Weight, FactorAt, SelectedFactors, ProductOf;
    tmp := x.val * Weight(w, j);
    var m := 0;
    while m < |u|
      invariant 0 <= m <= |u|
      invariant tmp == x.val * Weight(w, j) * SkipProd(u, x.coo, n, j, m)
    {
      if m != n {
        MulAssocReal(x.val * Weight(w, j), SkipProd(u, x.coo, n, j, m), FactorAt(u, x.coo, m, j));
        tmp := tmp * FactorAt(u, x.coo, m, j);
      }
      m := m + 1;
    }
    TermOfLists(x, u, w, n, j);
  }

  lemma TermOfLists(x: Entry, u: seq<Mat>, w: Vec, n: nat, j: nat)
    ensures forall s: Vec | j < |w| && |s| == |u| && SelectedFactors(u, x.coo, n, j, s) ::
              Term(x, u, w, n, j) == x.val * w[j] * ProductOf(s)
  {
    hide *;
    forall s: Vec | j < |w| && |s| == |u| && SelectedFactors(u, x.coo, n, j, s)
      ensures Term(x, u, w, n, j) == x.val * w[j] * ProductOf(s)
    {
      TermIsPlain(x, u, w, n, j, s);
    }
  }

  lemma MulAssocReal(a: real, b: real, c: real)
    ensures (a * b) * c == a * (b * c)
  {
  }

  method AddEntry(before: seq<Mat>, x: Entry, u: seq<Mat>, w: Vec, dims: seq<nat>, nc: nat) returns (after: seq<Mat>)
    requires FactorsFit(u, dims, nc) && FactorsFit(before, dims, nc) && InBounds(x.coo, dims)
    ensures SameShape(before, after) && Added(after, before, x, u, w, nc, 0)
  {
    after := before;
    var j := 0;
    while j < nc
      invariant 0 <= j <= nc && SameShape(before, after) && Added(after, before, x, u, w, j, 0)
    {
      var n := 0;
      while n < |dims|
        invariant 0 <= n <= |dims| && SameShape(before, after) && Added(after, before, x, u, w, j, n)
      {
        var tmp := TermLoop(x, u, w, n, j);
        AddedStep(after, before, x, u, w, dims, nc, j, n);
        after := AddTo(after, n, x.coo[n], j, tmp);
        n := n + 1;
      }
      AddedRow(after, before, x, u, w, j, n);
      j := j + 1;
    }
  }

  lemma AddedStep(after: seq<Mat>, before: seq<Mat>, x: Entry, u: seq<Mat>, w: Vec, dims: seq<nat>, nc: nat,
      jj: nat, nn: nat)
    requires FactorsFit(before, dims, nc) && SameShape(before, after) && InBounds(x.coo, dims)
    requires jj < nc && nn < |dims| && Added(after, before, x, u, w, jj, nn)
    ensures Added(AddTo(after, nn, x.coo[nn], jj, Term(x, u, w, nn, jj)), before, x, u, w, jj, nn + 1)
  {
    var next := AddTo(after, nn, x.coo[nn], jj, Term(x, u, w, nn, jj));
    forall n: nat, row: nat, r: nat | n < |before| && row < |before[n]| && r < |before[n][row]|
      ensures At(next[n], row, r) == At(before[n], row, r)
                + if Before(r, n, jj, nn + 1) then IfRow(x, n, row, Term(x, u, w, n, r)) else 0.0
    {
      assert At(after[n], row, r) == At(before[n], row, r)
                + if Before(r, n, jj, nn) then IfRow(x, n, row, Term(x, u, w, n, r)) else 0.0;
    }
  }

  lemma AddedRow(after: seq<Mat>, before: seq<Mat>, x: Entry, u: seq<Mat>, w: Vec, jj: nat, nn: nat)
    requires |before| <= nn && Added(after, before, x, u, w, jj, nn)
    ensures Added(after, before, x, u, w, jj + 1, 0)
  {
  }

  /** Loop over nonzeros, components and modes, adding atomically into the answers. */
  method MttkrpReference(xs: seq<Entry>, u: seq<Mat>, w: Vec, dims: seq<nat>, nc: nat) returns (ans: seq<Mat>)
    requires FactorsFit(u, dims, nc) && CoordsFit(xs, dims)
    ensures FactorsFit(ans, dims, nc)
    ensures forall n: nat, row: nat, r: nat :: n < |dims| && row < dims[n] && r < nc ==>
              At(ans[n], row, r) == MttkrpAt(xs, u, w, n, row, r)
    ensures |w| == nc ==> forall n: nat, row: nat, r: nat :: n < |dims| && row < dims[n] && r < nc ==>
              ans[n][row][r] == w[r] * MttkrpAt(xs, u, Ones(nc), n, row, r)
  {
    ans := seq(|dims|, n requires 0 <= n < |dims| => seq(dims[n], _ => Zeros(nc)));
    var i := 0;
    while i < |xs|
      invariant 0 <= i <= |xs| && FactorsFit(ans, dims, nc)
      invariant forall n: nat, row: nat, r: nat :: n < |dims| && row < dims[n] && r < nc ==>
                  At(ans[n], row, r) == MttkrpAt(xs[..i], u, w, n, row, r)
    {
      ghost var before := ans;
      ans := AddEntry(ans, xs[i], u, w, dims, nc);
      assert xs[..i + 1][..i] == xs[..i];
      forall n: nat, row: nat, r: nat | n < |dims| && row < dims[n] && r < nc
        ensures At(ans[n], row, r) == MttkrpAt(xs[..i + 1], u, w, n, row, r)
      {
        assert At(ans[n], row, r) == At(before[n], row, r) + IfRow(xs[i], n, row, Term(xs[i], u, w, n, r));
      }
      i := i + 1;
    }
    assert xs[..i] == xs;
    if |w| == nc {
      hide MttkrpAt;
      forall n: nat, row: nat, r: nat | n < |dims| && row < dims[n] && r < nc
        ensures ans[n][row][r] == w[r] * MttkrpAt(xs, u, Ones(nc), n, row, r)
      {
        MttkrpWeight(xs, u, w, n, row, r, nc);
        assert IsMat(ans[n], dims[n], nc) && At(ans[n], row, r) == ans[n][row][r];
      }
    }
  }
}
