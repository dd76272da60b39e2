/** The fourth moment tensor of a data matrix, the cut of its columns into blocks and of its rows into
    tiles, and for which tile sizes the tiles add up to the moments. */
module Moments {
  import opened Arithmetic
  import opened Vectors
  import opened Sums
  import opened Mttkrp
  import opened BlockEnumeration
  import opened Permutations

  // ----- what the tensor is

  /** The terms of an entry, one per row of the data. */
  function Terms(x: Mat, q: Quad): nat -> real
  {
    (row: nat) => (At(x, row, q.j) * At(x, row, q.i)) * (At(x, row, q.l) * At(x, row, q.k))
  }

  /** One over the number of rows. */
  function Alpha(rows: nat): real
  {
    if rows == 0 then 0.0 else 1.0 / rows as real
  }

  lemma AlphaIsReciprocal(rows: nat)
    requires rows > 0
    ensures rows as real * Alpha(rows) == 1.0
  {
  }

  /** Mean over the rows of the product of four columns. */
  function Moment(x: Mat, q: Quad): real
  {
    Alpha(|x|) * Sum(|x|, Terms(x, q))
  }

  /** Written out: times the number of rows, it is the sum over the rows of the four entries' product. */
  lemma MomentIsPlain(x: Mat, cols: nat, q: Quad, s: Vec)
    requires |x| > 0 && (forall row :: 0 <= row < |x| ==> |x[row]| == cols)
    requires q.i < cols && q.j < cols && q.k < cols && q.l < cols && |s| == |x|
    requires forall row :: 0 <= row < |x| ==> s[row] == x[row][q.i] * x[row][q.j] * x[row][q.k] * x[row][q.l]
    ensures |x| as real * Moment(x, q) == Total(s)
  {
    hide *;
    TermsArePlain(x, cols, q, s);
    MomentFromTerms(x, q, s);
  }

  lemma MomentFromTerms(x: Mat, q: Quad, s: Vec)
    requires |x| > 0 && |s| == |x| && forall row: nat :: row < |x| ==> s[row] == Terms(x, q)(row)
    ensures |x| as real * Moment(x, q) == Total(s)
  {
    hide Terms, Sum, Total, Alpha;
    AlphaIsReciprocal(|x|);
    SumIsTotal(|x|, Terms(x, q), s);
    MeanTimesRows(|x| as real, Alpha(|x|), Sum(|x|, Terms(x, q)), Moment(x, q));
  }

  lemma TermsArePlain(x: Mat, cols: nat, q: Quad, s: Vec)
    requires (forall row :: 0 <= row < |x| ==> |x[row]| == cols)
    requires q.i < cols && q.j < cols && q.k < cols && q.l < cols && |s| == |x|
    requires forall row :: 0 <= row < |x| ==> s[row] == x[row][q.i] * x[row][q.j] * x[row][q.k] * x[row][q.l]
    ensures forall row: nat :: row < |x| ==> s[row] == Terms(x, q)(row)
  {
    forall row: nat | row < |x| ensures s[row] == Terms(x, q)(row) {
      TermIsPlain(x, cols, q, row);
    }
  }

  lemma TermIsPlain(x: Mat, cols: nat, q: Quad, row: nat)
    requires row < |x| && |x[row]| == cols && q.i < cols && q.j < cols && q.k < cols && q.l < cols
    ensures Terms(x, q)(row) == x[row][q.i] * x[row][q.j] * x[row][q.k] * x[row][q.l]
  {
    FourInOrder(x[row][q.i], x[row][q.j], x[row][q.k], x[row][q.l]);
  }

  lemma FourInOrder(a: real, b: real, c: real, d: real)
    ensures (b * a) * (d * c) == a * b * c * d
  {
  }

  lemma MeanTimesRows(n: real, a: real, sum: real, mean: real)
    requires n * a == 1.0 && mean == a * sum
    ensures n * mean == sum
  {
    assert n * (a * sum) == (n * a) * sum;
  }

  function Indices(q: Quad): seq<nat>
  {
    [q.i, q.j, q.k, q.l]
  }

  /** The same four indices in some order. */
  ghost predicate IsArrangement(a: Quad, b: Quad)
  {
    Arranged(Indices(a), Indices(b))
  }

  ghost predicate InTensor(q: Quad, n: nat)
  {
    q.i < n && q.j < n && q.k < n && q.l < n
  }

  // ----- a product does not depend on the order of its factors

  function ColumnProduct(x: Mat, row: nat, cols: seq<nat>): real
  {
    if |cols| == 0 then 1.0 else At(x, row, cols[0]) * ColumnProduct(x, row, cols[1..])
  }

  /** A factor from the middle can be moved to the front. */
  lemma {:induction false} MoveToFront(x: Mat, row: nat, cols: seq<nat>, p: nat)
    requires p < |cols|
    ensures ColumnProduct(x, row, cols) == At(x, row, cols[p]) * ColumnProduct(x, row, cols[..p] + cols[p + 1..])
  {
    if p == 0 {
      assert cols[..0] + cols[1..] == cols[1..];
    } else {
      var tail, rest := cols[1..], cols[..p] + cols[p + 1..];
      MoveToFront(x, row, tail, p - 1);
      WithoutMiddle(cols, p);
      ProductCons(x, row, cols);
      ProductCons(x, row, rest);
      hide At, ColumnProduct;
      ExchangeFactors(At(x, row, cols[0]), At(x, row, cols[p]), ColumnProduct(x, row, rest[1..]));
    }
  }

  lemma ProductCons(x: Mat, row: nat, cols: seq<nat>)
    requires |cols| > 0
    ensures ColumnProduct(x, row, cols) == At(x, row, cols[0]) * ColumnProduct(x, row, cols[1..])
  {
  }

  lemma WithoutMiddle(cols: seq<nat>, p: nat)
    requires 0 < p < |cols|
    ensures (cols[..p] + cols[p + 1..])[0] == cols[0]
    ensures (cols[..p] + cols[p + 1..])[1..] == cols[1..][..p - 1] + cols[1..][p - 1 + 1..]
  {
  }

  lemma ExchangeFactors(a: real, b: real, c: real)
    ensures a * (b * c) == b * (a * c)
  {
  }

  /** Taking the first factor of one list out of the other. */
  lemma TakeOut(s: seq<nat>, t: seq<nat>) returns (p: nat)
    requires |s| > 0 && multiset(s) == multiset(t)
    ensures p < |t| && t[p] == s[0]
    ensures multiset(s[1..]) == multiset(t[..p] + t[p + 1..])
  {
    assert s[0] in multiset(t);
    p :| p < |t| && t[p] == s[0];
    assert t == t[..p] + [t[p]] + t[p + 1..];
    assert s == [s[0]] + s[1..];
    assert multiset(s) == multiset{s[0]} + multiset(s[1..]);
    assert multiset(t) == multiset{t[p]} + multiset(t[..p] + t[p + 1..]);
    assert multiset(s) - multiset{s[0]} == multiset(s[1..]);
    assert multiset(t) - multiset{s[0]} == multiset(t[..p] + t[p + 1..]);
  }

  lemma {:induction false} ProductOfArrangement(x: Mat, row: nat, s: seq<nat>, t: seq<nat>)
    requires multiset(s) == multiset(t)
    ensures ColumnProduct(x, row, s) == ColumnProduct(x, row, t)
  {
    if |s| == 0 {
      assert |multiset(t)| == 0;
    } else {
      var p := TakeOut(s, t);
      ProductOfArrangement(x, row, s[1..], t[..p] + t[p + 1..]);
      MoveToFront(x, row, t, p);
    }
  }

  lemma TermIsProduct(x: Mat, row: nat, q: Quad)
    ensures Terms(x, q)(row) == ColumnProduct(x, row, Indices(q))
  {
    var s1, s2, s3 := [q.j, q.k, q.l], [q.k, q.l], [q.l];
    assert Indices(q)[1..] == s1 && s1[1..] == s2 && s2[1..] == s3 && s3[1..] == [];
    assert ColumnProduct(x, row, s3[1..]) == 1.0;
    var d := ColumnProduct(x, row, s3);
    assert d == At(x, row, q.l) * 1.0;
    assert ColumnProduct(x, row, s2) == At(x, row, q.k) * d;
    assert ColumnProduct(x, row, s1) == At(x, row, q.j) * ColumnProduct(x, row, s2);
    FourFactors(At(x, row, q.i), At(x, row, q.j), At(x, row, q.k), At(x, row, q.l));
  }

  lemma FourFactors(a: real, b: real, c: real, d: real)
    ensures (b * a) * (d * c) == a * (b * (c * (d * 1.0)))
  {
  }

  lemma TermArrangement(x: Mat, row: nat, p: Quad, q: Quad)
    requires IsArrangement(p, q)
    ensures Terms(x, p)(row) == Terms(x, q)(row)
  {
    TermIsProduct(x, row, p);
    TermIsProduct(x, row, q);
    ProductOfArrangement(x, row, Indices(p), Indices(q));
  }

  /** The moment tensor is symmetric in all four indices. */
  lemma MomentSymmetric(x: Mat, p: Quad, q: Quad)
    requires IsArrangement(p, q)
    ensures Moment(x, p) == Moment(x, q)
  {
    hide Terms, IsArrangement, Sum, Alpha;
    forall row: nat | row < |x| ensures Terms(x, p)(row) == Terms(x, q)(row) {
      TermArrangement(x, row, p, q);
    }
    SumExt(|x|, Terms(x, p), Terms(x, q));
  }

  // ----- column blocks

  /** Sizes of the job: the data, columns per block, rows per tile, number of teams. */
  datatype Job = Job(x: Mat, cols: nat, s: nat, tile: nat, teams: nat) {

    ghost predicate Valid()
    {
      IsMat(x, |x|, cols) && s > 0 && tile > 0 && teams > 0
    }

    // ----- what the rows of the data count for

    /** Rows in whole tiles. */
    function FullRows(): nat
      requires tile > 0
    {
      SubtractMultiple(|x|, tile);
      |x| - |x| % tile
    }

    /** Rows of whole tiles count for one over the number of rows, those of a partial tile for one. */
    function RowWeight(row: nat): real
      requires tile > 0
    {
      if row < FullRows() then Alpha(|x|) else 1.0
    }

    function Weighted(e: Quad): nat -> real
      requires tile > 0
    {
      (row: nat) => RowWeight(row) * Terms(x, e)(row)
    }

    /** The value that the tiles add up to. */
    function Result(e: Quad): real
      requires tile > 0
    {
      Sum(|x|, Weighted(e))
    }

    /** No block is computed with what the partial tile of another block left in its team's scratch:
        there is no partial tile, or nothing else, or no team has a second block. */
    ghost predicate Clean()
      requires s > 0 && tile > 0
    {
      |x| % tile == 0 || |x| < tile || teams >= UniqueBlockCount(NBlocks())
    }

    /** Tiles of rows; the last one may be partial. */
    function NTile(): nat
      requires tile > 0
    {
      if |x| % tile == 0 then |x| / tile else |x| / tile + 1
    }

    predicate Partial(i: nat)
      requires tile > 0
    {
      i + 1 == NTile() && |x| % tile != 0
    }

    /** Rows in the first i tiles. */
    function RowsDone(i: nat): nat
      requires tile > 0
    {
      if i * tile < |x| then i * tile else |x|
    }

    lemma AllRows()
      requires tile > 0
      ensures RowsDone(0) == 0 && RowsDone(NTile()) == |x|
    {
      SubtractMultiple(|x|, tile);
      if NTile() > 0 {
        TileRows(NTile() - 1);
        assert NTile() - 1 + 1 == NTile();
      }
    }

    lemma TileRows(i: nat)
      requires tile > 0 && i < NTile()
      ensures RowsDone(i) == i * tile <= |x|
      ensures Partial(i) ==> i * tile == FullRows() && RowsDone(i + 1) == |x| == i * tile + |x| % tile
      ensures !Partial(i) ==> RowsDone(i + 1) == i * tile + tile <= FullRows()
    {
      var q := |x| / tile;
      SubtractMultiple(|x|, tile);
      assert FullRows() == q * tile;
      Distribute(i, 1, tile);
      MulMono(i, q, tile);
      if i < q {
        MulMono(i + 1, q, tile);
      }
    }

    function NBlocks(): nat
      requires s > 0
    {
      (cols + s - 1) / s
    }

    /** Columns of a block; the last block may be odd. */
    function BlockSize(b: nat): int
      requires s > 0
    {
      if cols % s == 0 || b != NBlocks() - 1 then s else cols - s * (NBlocks() - 1)
    }

    /** A block starts at b * s, is not empty, and stays inside the matrix. */
    lemma BlockSizeSpec(b: nat)
      requires s > 0 && b < NBlocks()
      ensures 0 < BlockSize(b) <= s && b * s + BlockSize(b) <= cols
      ensures b == NBlocks() - 1 ==> b * s + BlockSize(b) == cols
      ensures b < NBlocks() - 1 ==> BlockSize(b) == s
    {
      SubtractMultiple(cols, s);
      SubtractMultiple(cols + s - 1, s);
      var n := NBlocks();
      MulMono(b + 1, n, s);
      Distribute(b, 1, s);
      Distribute(n - 1, 1, s);
      if cols % s == 0 {
        QuotientUnique(cols + s - 1, s, cols / s, s - 1);
      }
    }

    /** Every column lies in the block of its quotient, at the position of its remainder. */
    lemma ColumnInBlock(c: nat)
      requires s > 0 && c < cols
      ensures c / s < NBlocks() && c % s < BlockSize(c / s) && (c / s) * s + c % s == c
    {
      SubtractMultiple(c, s);
      SubtractMultiple(cols + s - 1, s);
      var b, n := c / s, NBlocks();
      if b >= n {
        MulMono(n, b, s);
      }
      BlockSizeSpec(b);
    }

    /** Columns of the data that row ii and column ji of a block's matrix stand for. */
    function Decode(q: Quad, ii: nat, ji: nat): (r: Quad)
      requires s > 0
    {
      Quad(Place(q.i, s, Low(ii, BlockSize(q.i))), Place(q.j, s, High(ii, BlockSize(q.i))),
           Place(q.k, s, Low(ji, BlockSize(q.k))), Place(q.l, s, High(ji, BlockSize(q.k))))
    }

    function RowLimit(q: Quad): int
      requires s > 0
    {
      BlockSize(q.i) * BlockSize(q.j)
    }

    function ColLimit(q: Quad): int
      requires s > 0
    {
      BlockSize(q.k) * BlockSize(q.l)
    }

    lemma BlocksOf(q: Quad)
      requires s > 0 && IsUnique(q, NBlocks())
      ensures 0 < BlockSize(q.i) <= s && 0 < BlockSize(q.j) <= s && 0 < BlockSize(q.k) <= s && 0 < BlockSize(q.l) <= s
      ensures 0 <= RowLimit(q) <= s * s && 0 <= ColLimit(q) <= s * s
    {
      BlockSizeSpec(q.i);
      BlockSizeSpec(q.j);
      BlockSizeSpec(q.k);
      BlockSizeSpec(q.l);
      ProductBound(BlockSize(q.i), BlockSize(q.j), s);
      ProductBound(BlockSize(q.k), BlockSize(q.l), s);
    }

    ghost predicate EntryIs(m: Mat, q: Quad, ii: nat, ji: nat)
      requires s > 0 && tile > 0
    {
      At(m, ii, ji) == Result(Decode(q, ii, ji))
    }

    /** The block's matrix holds the results for the columns it stands for. */
    ghost predicate HoldsBlock(m: Mat, q: Quad)
      requires s > 0 && tile > 0
    {
      && IsUnique(q, NBlocks())
      && forall ii: nat, ji: nat :: ii < RowLimit(q) && ji < ColLimit(q) ==> EntryIs(m, q, ii, ji)
    }
  }

  /** Column pos of block b. */
  function Place(b: nat, s: nat, pos: nat): nat
  {
    b * s + pos
  }

  function Low(c: nat, size: int): nat
  {
    if size > 0 then c % size else 0
  }

  function High(c: nat, size: int): nat
  {
    if size > 0 then c / size else 0
  }

  lemma ProductBound(a: int, b: int, s: nat)
    requires 0 <= a <= s && 0 <= b <= s
    ensures 0 <= a * b <= s * s
  {
    MulMono(a, s, b);
    MulMono(b, s, s);
  }

  lemma ResultSymmetric(job: Job, p: Quad, q: Quad)
    requires job.tile > 0 && IsArrangement(p, q)
    ensures job.Result(p) == job.Result(q)
  {
    hide Terms, IsArrangement, Sum, Alpha, Job.RowWeight;
    forall row: nat | row < |job.x| ensures job.Weighted(p)(row) == job.Weighted(q)(row) {
      TermArrangement(job.x, row, p, q);
    }
    SumExt(|job.x|, job.Weighted(p), job.Weighted(q));
  }

  /** Written out: the sum over the rows of the four entries' product, those of whole tiles at one over the
      number of rows and those of a partial tile at one. */
  lemma ResultIsPlain(job: Job, q: Quad, s: Vec)
    requires job.Valid() && InTensor(q, job.cols) && |s| == |job.x|
    requires forall row :: 0 <= row < |job.x| ==>
               s[row] == (if row < |job.x| - |job.x| % job.tile then 1.0 / |job.x| as real else 1.0)
                         * (job.x[row][q.i] * job.x[row][q.j] * job.x[row][q.k] * job.x[row][q.l])
    ensures job.Result(q) == Total(s)
  {
    hide Terms, Sum, Total;
    forall row: nat | row < |job.x| ensures s[row] == job.Weighted(q)(row) {
      TermIsPlain(job.x, job.cols, q, row);
    }
    SumIsTotal(|job.x|, job.Weighted(q), s);
  }

  // ----- the tile size

  /** The tile size divides the number of rows, or there is one row. */
  predicate WholeTiles(rows: nat, tile: nat)
    requires tile > 0
  {
    rows % tile == 0 || rows == 1
  }

  lemma ResultIsMoment(job: Job, e: Quad)
    requires job.tile > 0 && WholeTiles(|job.x|, job.tile)
    ensures job.Result(e) == Moment(job.x, e)
  {
    var n := |job.x|;
    forall row: nat | row < n ensures job.Weighted(e)(row) == Alpha(n) * Terms(job.x, e)(row) {
    }
    SumScale(n, Alpha(n), Terms(job.x, e), job.Weighted(e));
  }

  lemma ResultsAreMoments(job: Job)
    requires job.tile > 0 && job.s > 0 && WholeTiles(|job.x|, job.tile)
    ensures job.Clean() && forall e :: job.Result(e) == Moment(job.x, e)
  {
    forall e ensures job.Result(e) == Moment(job.x, e) {
      ResultIsMoment(job, e);
    }
  }

  /** One column of ones, in one block. */
  function OnesJob(rows: nat, tile: nat): Job
  {
    Job(seq(rows, _ => [1.0]), 1, 1, tile, 1)
  }

  lemma {:induction false} SumOfOnes(n: nat, f: nat -> real, c: real)
    requires forall i: nat :: i < n ==> f(i) == c
    ensures Sum(n, f) == n as real * c
  {
    if n > 0 {
      SumOfOnes(n - 1, f, c);
      assert n as real * c == (n - 1) as real * c + c;
    }
  }

  lemma OnesTerms(rows: nat, tile: nat, row: nat)
    requires tile > 0 && row < rows
    ensures var job, e := OnesJob(rows, tile), Quad(0, 0, 0, 0);
            && Terms(job.x, e)(row) == 1.0
            && job.Weighted(e)(row) == if row < job.FullRows() then Alpha(rows) else 1.0
  {
  }

  lemma OnesSums(rows: nat, tile: nat)
    requires tile > 0
    ensures var job, e := OnesJob(rows, tile), Quad(0, 0, 0, 0);
            && job.Result(e) == job.FullRows() as real * Alpha(rows) + (rows % tile) as real
            && Moment(job.x, e) == Alpha(rows) * rows as real
  {
    var job, e := OnesJob(rows, tile), Quad(0, 0, 0, 0);
    var full, rest, f, g := job.FullRows(), rows % tile, job.Weighted(e), Terms(job.x, e);
    assert full + rest == rows;
    forall row: nat | row < rows ensures g(row) == 1.0 && f(row) == if row < full then Alpha(rows) else 1.0 {
      OnesTerms(rows, tile, row);
    }
    hide Terms, Job.Weighted, Alpha, Job.FullRows, Job.RowWeight, Sum, OnesJob;
    OnesSplit(rows, full, rest, f, Alpha(rows));
    SumOfOnes(rows, g, 1.0);
  }

  lemma OnesSplit(rows: nat, full: nat, rest: nat, f: nat -> real, a: real)
    requires full + rest == rows
    requires forall row: nat :: row < rows ==> f(row) == if row < full then a else 1.0
    ensures Sum(rows, f) == full as real * a + rest as real
  {
    forall i: nat | i < rest ensures Shifted(f, full)(i) == 1.0 {
      assert Shifted(f, full)(i) == f(full + i);
    }
    SumSplit(full, rest, f);
    SumOfOnes(full, f, a);
    SumOfOnes(rest, Shifted(f, full), 1.0);
  }

  /** Its only moment is one, but the tiles add up to something else. */
  lemma OnesResult(rows: nat, tile: nat)
    requires tile > 0 && !WholeTiles(rows, tile)
    ensures var job, e := OnesJob(rows, tile), Quad(0, 0, 0, 0);
            job.Valid() && job.Clean() && InTensor(e, job.cols) && job.Result(e) != Moment(job.x, e)
  {
    OnesSums(rows, tile);
    assert UniqueBlockCount(1) == 1;
    hide Job.Result, Moment;
    var full := OnesJob(rows, tile).FullRows();
    OnesDiffer(rows, full, rows % tile, Alpha(rows));
  }

  lemma OnesDiffer(rows: nat, full: nat, rest: nat, a: real)
    requires rows == full + rest && rest > 0 && rows > 1 && a == 1.0 / rows as real
    ensures full as real * a + rest as real != a * rows as real
  {
    ReciprocalBelowOne(rows as real, a);
    ScaledDiffer(a, rows as real, full as real, rest as real);
  }

  lemma ScaledDiffer(a: real, n: real, f: real, r: real)
    requires n == f + r && r > 0.0 && a < 1.0
    ensures f * a + r != a * n
  {
    var b := 1.0 - a;
    PositiveProduct(r, b, r * b);
    SplitProduct(a, b, n, f, r);
  }

  lemma ReciprocalBelowOne(n: real, a: real)
    requires n > 1.0 && a == 1.0 / n
    ensures a < 1.0
  {
    assert a * n == 1.0;
  }

  lemma SplitProduct(a: real, b: real, n: real, f: real, r: real)
    requires n == f + r && a + b == 1.0
    ensures f * a + r == a * n + r * b
  {
    assert r == r * a + r * b;
  }

  /** The tiles add up to the moments for all data exactly when the tile size divides the number of
      rows or there is one row. */
  lemma TileSizeIsRight(rows: nat, tile: nat)
    requires tile > 0
    ensures WholeTiles(rows, tile) <==>
            forall job: Job, e: Quad ::
              job.Valid() && job.Clean() && |job.x| == rows && job.tile == tile && InTensor(e, job.cols) ==>
              job.Result(e) == Moment(job.x, e)
  {
    if WholeTiles(rows, tile) {
      forall job: Job, e: Quad | job.Valid() && |job.x| == rows && job.tile == tile
        ensures job.Result(e) == Moment(job.x, e)
      {
        ResultIsMoment(job, e);
      }
    } else {
      OnesResult(rows, tile);
    }
  }
}
