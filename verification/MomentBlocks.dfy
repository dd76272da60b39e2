/** The matrices of the unique blocks: per tile of rows two Khatri-Rao products and one small matrix
    product, the blocks split over the teams. */
module MomentBlocks {
  import opened Arithmetic
  import opened Vectors
  import opened Sums
  import opened Mttkrp
  import opened FactorMatrix
  import opened UniformBlocking
  import opened BlockEnumeration
  import opened Moments

  // ----- scratch matrices

  /** What a team keeps from tile to tile and from block to block: two matrices of products and the
      number of rows that a tile fills. */
  datatype Scratch = Scratch(krp1: Mat, krp2: Mat, rows: nat) {

    ghost predicate Fits(job: Job)
    {
      IsMat(krp1, job.tile, job.s * job.s) && IsMat(krp2, job.tile, job.s * job.s) && rows <= job.tile
    }
  }

  /** Products of two columns in the first rows of the scratch matrix: column c stands for column
      c / size2 of the first block and column c % size2 of the second. The rest stays as it was. */
  function KhatriRao(x: Mat, block1: nat, block2: nat, size2: int, s: nat, rows: nat, baseRow: nat, ncols: int,
      before: Mat, tile: nat): (m: Mat)
    ensures IsMat(m, tile, s * s)
    ensures forall j: nat, c: nat :: j < rows && j < tile && c < ncols && c < s * s ==>
              At(m, j, c) == At(x, baseRow + j, Place(block1, s, High(c, size2)))
                             * At(x, baseRow + j, Place(block2, s, Low(c, size2)))
    ensures forall j: nat, c: nat :: j < tile && c < s * s && (j >= rows || c >= ncols) ==>
              At(m, j, c) == At(before, j, c)
  {
    Tabulate(tile, s * s, (j: nat, c: nat) =>
      if j < rows && c < ncols then
        At(x, baseRow + j, Place(block1, s, High(c, size2))) * At(x, baseRow + j, Place(block2, s, Low(c, size2)))
      else At(before, j, c))
  }

  function ColumnTerms(a: Mat, b: Mat, ii: nat, ji: nat): nat -> real
  {
    (row: nat) => At(a, row, ii) * At(b, row, ji)
  }

  /** c + alpha a' b over the first rows. */
  function TransposedGemm(alpha: real, a: Mat, b: Mat, rows: nat, c: Mat, size: nat): (m: Mat)
    ensures IsMat(m, size, size)
    ensures forall ii: nat, ji: nat :: ii < size && ji < size ==>
              At(m, ii, ji) == At(c, ii, ji) + alpha * Sum(rows, ColumnTerms(a, b, ii, ji))
  {
    Tabulate(size, size, (ii: nat, ji: nat) => At(c, ii, ji) + alpha * Sum(rows, ColumnTerms(a, b, ii, ji)))
  }

  // ----- what is new and what is left over

  /** Only the first `fill` rows of every whole tile are new: what a row counts for. */
  function FillWeight(job: Job, fill: nat, row: nat): real
    requires job.tile > 0
  {
    if row < job.FullRows() && row % job.tile >= fill then 0.0 else job.RowWeight(row)
  }

  function NewTerms(job: Job, fill: nat, e: Quad): nat -> real
    requires job.tile > 0
  {
    (row: nat) => FillWeight(job, fill, row) * Terms(job.x, e)(row)
  }

  function LeftTerms(sc: Scratch, ii: nat, ji: nat): nat -> real
  {
    Shifted(ColumnTerms(sc.krp1, sc.krp2, ii, ji), sc.rows)
  }

  /** What the rows of the scratch that a tile does not fill add to an entry. */
  function LeftOver(job: Job, sc: Scratch, ii: nat, ji: nat): real
  {
    if sc.rows <= job.tile then Sum(job.tile - sc.rows, LeftTerms(sc, ii, ji)) else 0.0
  }

  /** Whole tiles among the first i. */
  function FullTiles(job: Job, i: nat): nat
    requires job.tile > 0
  {
    if job.NTile() == i && |job.x| % job.tile != 0 && i > 0 then i - 1 else i
  }

  /** An entry after the first i tiles of a block that began with scratch sc: what is new, and the left-over
      rows once for every whole tile. */
  ghost predicate EntryAt(job: Job, q: Quad, sc: Scratch, m: Mat, ii: nat, ji: nat, i: nat)
    requires job.s > 0 && job.tile > 0
  {
    At(m, ii, ji) == Sum(job.RowsDone(i), NewTerms(job, sc.rows, job.Decode(q, ii, ji)))
                     + FullTiles(job, i) as real * (Alpha(|job.x|) * LeftOver(job, sc, ii, ji))
  }

  ghost predicate BlockAt(job: Job, q: Quad, sc: Scratch, m: Mat, i: nat)
    requires job.s > 0 && job.tile > 0
  {
    forall ii: nat, ji: nat :: ii < job.RowLimit(q) && ji < job.ColLimit(q) ==> EntryAt(job, q, sc, m, ii, ji, i)
  }

  /** The matrix of a block that began with scratch sc. */
  ghost predicate FilledBlock(job: Job, q: Quad, sc: Scratch, m: Mat)
    requires job.s > 0 && job.tile > 0
  {
    IsUnique(q, job.NBlocks()) && BlockAt(job, q, sc, m, job.NTile())
  }

  /** The rows from `from` on hold the same. */
  ghost predicate SameTail(job: Job, a: Scratch, b: Scratch, from: nat)
  {
    forall j: nat, c: nat :: from <= j < job.tile && c < job.s * job.s ==>
      At(a.krp1, j, c) == At(b.krp1, j, c) && At(a.krp2, j, c) == At(b.krp2, j, c)
  }

  /** The scratch after a tile. */
  function FillTile(job: Job, q: Quad, base: nat, rows: nat, sc: Scratch): (after: Scratch)
    requires job.s > 0
  {
    Scratch(KhatriRao(job.x, q.j, q.i, job.BlockSize(q.i), job.s, rows, base, job.RowLimit(q), sc.krp1, job.tile),
            KhatriRao(job.x, q.l, q.k, job.BlockSize(q.k), job.s, rows, base, job.ColLimit(q), sc.krp2, job.tile), rows)
  }

  // ----- one tile

  /** Rows with one weight, added to a weighted sum. */
  lemma WeightedRows(job: Job, fill: nat, e: Quad, base: nat, rows: nat, alpha: real, terms: nat -> real)
    requires job.tile > 0
    requires forall row: nat :: base <= row < base + rows ==> FillWeight(job, fill, row) == alpha
    requires forall r: nat :: r < rows ==> terms(r) == Terms(job.x, e)(base + r)
    ensures Sum(base + rows, NewTerms(job, fill, e)) == Sum(base, NewTerms(job, fill, e)) + alpha * Sum(rows, terms)
  {
    hide FillWeight, Terms;
    var f := NewTerms(job, fill, e);
    SumSplit(base, rows, f);
    forall r: nat | r < rows ensures Shifted(f, base)(r) == alpha * terms(r) {
      assert Shifted(f, base)(r) == f(base + r);
    }
    SumScale(rows, alpha, terms, Shifted(f, base));
  }

  /** Products of the two columns, row by row, after a tile has been filled in. */
  function TileProducts(job: Job, q: Quad, base: nat, rows: nat, sc: Scratch, ii: nat, ji: nat): nat -> real
    requires job.s > 0
  {
    var after := FillTile(job, q, base, rows, sc);
    ColumnTerms(after.krp1, after.krp2, ii, ji)
  }

  /** The rows that a tile fills hold the terms of every column pair of the block. */
  lemma FilledTerms(job: Job, q: Quad, base: nat, rows: nat, sc: Scratch, ii: nat, ji: nat)
    requires job.s > 0 && job.tile > 0 && ii < job.RowLimit(q) <= job.s * job.s
    requires ji < job.ColLimit(q) <= job.s * job.s && rows <= job.tile
    ensures forall r: nat :: r < rows ==>
              TileProducts(job, q, base, rows, sc, ii, ji)(r) == Terms(job.x, job.Decode(q, ii, ji))(base + r)
  {
    hide Place, Low, High, Job.BlockSize, At, Job.RowLimit, Job.ColLimit;
  }

  /** The rows that it does not fill are those that were there. */
  lemma KeptTerms(job: Job, q: Quad, base: nat, rows: nat, cur: Scratch, sc: Scratch, ii: nat, ji: nat)
    requires job.s > 0 && job.tile > 0 && ii < job.s * job.s && ji < job.s * job.s && cur.rows == sc.rows <= job.tile
    requires SameTail(job, cur, sc, sc.rows) && rows == sc.rows
    ensures LeftOver(job, sc, ii, ji)
         == Sum(job.tile - rows, Shifted(TileProducts(job, q, base, rows, cur, ii, ji), rows))
  {
    hide *;
    var terms, rest := TileProducts(job, q, base, rows, cur, ii, ji), job.tile - rows;
    forall k: nat | k < rest ensures Shifted(terms, rows)(k) == LeftTerms(sc, ii, ji)(k) {
      KeptTerm(job, q, base, rows, cur, sc, ii, ji, k);
    }
    SumExt(rest, Shifted(terms, rows), LeftTerms(sc, ii, ji));
    LeftOverIs(job, sc, ii, ji);
  }

  lemma KeptTerm(job: Job, q: Quad, base: nat, rows: nat, cur: Scratch, sc: Scratch, ii: nat, ji: nat, k: nat)
    requires job.s > 0 && ii < job.s * job.s && ji < job.s * job.s && rows == sc.rows && rows + k < job.tile
    requires SameTail(job, cur, sc, rows)
    ensures Shifted(TileProducts(job, q, base, rows, cur, ii, ji), rows)(k) == LeftTerms(sc, ii, ji)(k)
  {
    hide At, KhatriRao, Job.RowLimit, Job.ColLimit, Job.BlockSize;
    var j := rows + k;
    assert At(cur.krp1, j, ii) == At(sc.krp1, j, ii);
  }

  lemma LeftOverIs(job: Job, sc: Scratch, ii: nat, ji: nat)
    requires sc.rows <= job.tile
    ensures LeftOver(job, sc, ii, ji) == Sum(job.tile - sc.rows, LeftTerms(sc, ii, ji))
  {
  }

  /** The new rows of a whole tile count for one over the number of rows, its other rows for nothing. */
  lemma WholeTileWeights(job: Job, fill: nat, i: nat, base: nat)
    requires job.tile > 0 && i < job.NTile() && !job.Partial(i) && base == i * job.tile
    ensures forall row: nat :: base <= row < base + job.tile ==>
              FillWeight(job, fill, row) == if row < base + fill then Alpha(|job.x|) else 0.0
  {
    job.TileRows(i);
    hide Alpha, Job.NTile, Job.RowsDone;
    forall row: nat | base <= row < base + job.tile
      ensures FillWeight(job, fill, row) == if row < base + fill then Alpha(|job.x|) else 0.0
    {
      QuotientUnique(row, job.tile, i, row - base);
    }
  }

  lemma WholeTileSum(job: Job, fill: nat, e: Quad, base: nat, terms: nat -> real)
    requires job.tile > 0 && fill <= job.tile
    requires forall row: nat :: base <= row < base + job.tile ==>
               FillWeight(job, fill, row) == if row < base + fill then Alpha(|job.x|) else 0.0
    requires forall r: nat :: r < fill ==> terms(r) == Terms(job.x, e)(base + r)
    ensures Sum(base + job.tile, NewTerms(job, fill, e))
         == Sum(base, NewTerms(job, fill, e)) + Alpha(|job.x|) * Sum(fill, terms)
  {
    hide *;
    WeightedRows(job, fill, e, base, fill, Alpha(|job.x|), terms);
    WeightedRows(job, fill, e, base + fill, job.tile - fill, 0.0, RowsFrom(job, e, base + fill));
  }

  lemma WholeTileTerms(job: Job, fill: nat, e: Quad, i: nat, base: nat, terms: nat -> real)
    requires job.tile > 0 && i < job.NTile() && !job.Partial(i) && fill <= job.tile && base == i * job.tile
    requires forall r: nat :: r < fill ==> terms(r) == Terms(job.x, e)(base + r)
    ensures Sum(job.RowsDone(i + 1), NewTerms(job, fill, e))
         == Sum(job.RowsDone(i), NewTerms(job, fill, e)) + Alpha(|job.x|) * Sum(fill, terms)
  {
    job.TileRows(i);
    WholeTileWeights(job, fill, i, base);
    assert job.RowsDone(i) == base && job.RowsDone(i + 1) == base + job.tile;
    hide *;
    WholeTileSum(job, fill, e, base, terms);
  }

  function RowsFrom(job: Job, e: Quad, base: nat): (terms: nat -> real)
    ensures forall r: nat :: terms(r) == Terms(job.x, e)(base + r)
  {
    Shifted(Terms(job.x, e), base)
  }

  lemma PartialTileTerms(job: Job, fill: nat, e: Quad, i: nat, base: nat, terms: nat -> real)
    requires job.tile > 0 && i < job.NTile() && job.Partial(i) && base == i * job.tile
    requires forall r: nat :: r < |job.x| % job.tile ==> terms(r) == Terms(job.x, e)(base + r)
    ensures Sum(job.RowsDone(i + 1), NewTerms(job, fill, e))
         == Sum(job.RowsDone(i), NewTerms(job, fill, e)) + Sum(|job.x| % job.tile, terms)
  {
    job.TileRows(i);
    assert job.RowsDone(i) == base && job.RowsDone(i + 1) == base + |job.x| % job.tile;
    assert forall row: nat :: base <= row < base + |job.x| % job.tile ==> FillWeight(job, fill, row) == 1.0;
    hide *;
    WeightedRows(job, fill, e, base, |job.x| % job.tile, 1.0, terms);
  }

  /** A block's scratch before tile i when it began with sc: rows that no tile fills and columns that the
      block does not have are as they were, the others are those of the last tile. */
  ghost predicate Running(job: Job, q: Quad, sc: Scratch, cur: Scratch, i: nat)
    requires job.s > 0 && job.tile > 0
  {
    && cur.Fits(job) && cur.rows == sc.rows && i <= job.NTile()
    && if i == 0 then cur == sc else SameAs(job, cur, FillTile(job, q, (i - 1) * job.tile, sc.rows, sc))
  }

  ghost predicate SameAs(job: Job, a: Scratch, b: Scratch)
  {
    SameTail(job, a, b, 0)
  }

  lemma RunningTail(job: Job, q: Quad, sc: Scratch, cur: Scratch, i: nat)
    requires job.s > 0 && job.tile > 0 && Running(job, q, sc, cur, i)
    ensures SameTail(job, cur, sc, sc.rows) && cur.rows == sc.rows <= job.tile
  {
    hide Job.BlockSize;
  }

  lemma RunningStep(job: Job, q: Quad, sc: Scratch, cur: Scratch, i: nat)
    requires job.s > 0 && job.tile > 0 && Running(job, q, sc, cur, i) && i < job.NTile()
    ensures Running(job, q, sc, FillTile(job, q, i * job.tile, sc.rows, cur), i + 1)
  {
    hide Job.BlockSize, Place, Low, High, Job.RowLimit, Job.ColLimit;
  }

  lemma FullTilesStep(job: Job, i: nat)
    requires job.tile > 0 && i < job.NTile()
    ensures !job.Partial(i) ==> FullTiles(job, i + 1) == i + 1 && FullTiles(job, i) == i
    ensures job.Partial(i) ==> FullTiles(job, i + 1) == FullTiles(job, i)
  {
    hide Job.NTile;
  }

  lemma OneMore(n: nat, z: real)
    ensures (n + 1) as real * z == n as real * z + z
  {
  }

  /** An entry after a whole tile, from the sums over its new rows and over what is left over. */
  lemma WholeTileEntry(job: Job, q: Quad, sc: Scratch, cur: Scratch, i: nat, base: nat, before: Mat, m: Mat, ii: nat,
      ji: nat)
    requires job.s > 0 && job.tile > 0 && i < job.NTile() && !job.Partial(i) && base == i * job.tile
    requires Running(job, q, sc, cur, i)
    requires ii < job.RowLimit(q) <= job.s * job.s && ji < job.ColLimit(q) <= job.s * job.s
    requires At(m, ii, ji) == At(before, ii, ji)
                              + Alpha(|job.x|) * Sum(job.tile, TileProducts(job, q, base, sc.rows, cur, ii, ji))
    requires EntryAt(job, q, sc, before, ii, ji, i)
    ensures EntryAt(job, q, sc, m, ii, ji, i + 1)
  {
    hide *;
    FullTilesStep(job, i);
    RunningTail(job, q, sc, cur, i);
    var terms := TileProducts(job, q, base, sc.rows, cur, ii, ji);
    FilledTerms(job, q, base, sc.rows, cur, ii, ji);
    KeptTerms(job, q, base, sc.rows, cur, sc, ii, ji);
    WholeTileTerms(job, sc.rows, job.Decode(q, ii, ji), i, base, terms);
    SumSplit(sc.rows, job.tile - sc.rows, terms);
    assert Sum(job.tile, terms) == Sum(sc.rows, terms) + LeftOver(job, sc, ii, ji);
    OneMore(i, Alpha(|job.x|) * LeftOver(job, sc, ii, ji));
    EntryGrows(job, q, sc, before, m, ii, ji, i, Sum(sc.rows, terms), LeftOver(job, sc, ii, ji));
  }

  lemma EntryGrows(job: Job, q: Quad, sc: Scratch, before: Mat, m: Mat, ii: nat, ji: nat, i: nat, a: real, left: real)
    requires job.s > 0 && job.tile > 0 && EntryAt(job, q, sc, before, ii, ji, i)
    requires left == LeftOver(job, sc, ii, ji) && FullTiles(job, i + 1) == i + 1 && FullTiles(job, i) == i
    requires At(m, ii, ji) == At(before, ii, ji) + Alpha(|job.x|) * (a + left)
    requires Sum(job.RowsDone(i + 1), NewTerms(job, sc.rows, job.Decode(q, ii, ji)))
          == Sum(job.RowsDone(i), NewTerms(job, sc.rows, job.Decode(q, ii, ji))) + Alpha(|job.x|) * a
    requires (i + 1) as real * (Alpha(|job.x|) * left) == i as real * (Alpha(|job.x|) * left) + Alpha(|job.x|) * left
    ensures EntryAt(job, q, sc, m, ii, ji, i + 1)
  {
    hide Alpha, Sum, NewTerms, LeftOver, FullTiles, Job.Decode, At;
    assert Alpha(|job.x|) * (a + left) == Alpha(|job.x|) * a + Alpha(|job.x|) * left;
  }

  lemma PartialTileEntry(job: Job, q: Quad, sc: Scratch, cur: Scratch, i: nat, base: nat, before: Mat, m: Mat,
      ii: nat, ji: nat)
    requires job.s > 0 && job.tile > 0 && i < job.NTile() && job.Partial(i) && base == i * job.tile
    requires ii < job.RowLimit(q) <= job.s * job.s && ji < job.ColLimit(q) <= job.s * job.s
    requires var rows := |job.x| % job.tile;
             At(m, ii, ji) == At(before, ii, ji) + 1.0 * Sum(rows, TileProducts(job, q, base, rows, cur, ii, ji))
    requires EntryAt(job, q, sc, before, ii, ji, i)
    ensures EntryAt(job, q, sc, m, ii, ji, i + 1)
  {
    hide Alpha, Sum, NewTerms, LeftOver, FullTiles, Job.Decode, At, TileProducts, Job.NTile, Job.RowsDone, Job.Partial;
    hide Job.RowLimit, Job.ColLimit, Terms;
    var rows, e := |job.x| % job.tile, job.Decode(q, ii, ji);
    FullTilesStep(job, i);
    FilledTerms(job, q, base, rows, cur, ii, ji);
    PartialTileTerms(job, sc.rows, e, i, base, TileProducts(job, q, base, rows, cur, ii, ji));
  }

  /** Adding a tile. It fills as many rows of the scratch as the last one did, or, when it is partial, its
      own rows; a whole tile multiplies all rows of the scratch, whatever the others hold. */
  method AddTile(job: Job, q: Quad, i: nat, before: Mat, cur: Scratch, ghost sc: Scratch)
    returns (m: Mat, after: Scratch)
    requires job.Valid() && IsUnique(q, job.NBlocks()) && i < job.NTile() && Running(job, q, sc, cur, i)
    requires BlockAt(job, q, sc, before, i)
    ensures BlockAt(job, q, sc, m, i + 1) && after.Fits(job)
    ensures !job.Partial(i) ==> Running(job, q, sc, after, i + 1)
    ensures job.Partial(i) ==> after.rows == |job.x| % job.tile && SameTail(job, after, cur, |job.x| % job.tile)
    ensures job.Partial(i) ==> AddsProducts(before, m, after, after.rows, job.s * job.s, 1.0)
    ensures !job.Partial(i) ==> AddsProducts(before, m, after, job.tile, job.s * job.s, |job.x| as real)
  {
    var baseRowInd, size := i * job.tile, job.s * job.s;
    var rows := if job.Partial(i) then |job.x| % job.tile else cur.rows;
    after := FillTile(job, q, baseRowInd, rows, cur);
    var alpha, used := TileScale(job, i, rows);
    m := TransposedGemm(alpha, after.krp1, after.krp2, used, before, size);
    ScratchAfter(job, q, sc, cur, i, baseRowInd, rows, after);
    assert !job.Partial(i) ==> rows == sc.rows;
    hide *;
    ghost var n := if job.Partial(i) then 1.0 else |job.x| as real;
    AddedIsPlain(alpha, after, used, before, m, size, n);
    TileAdded(job, q, sc, cur, i, baseRowInd, rows, used, alpha, before, m);
  }

  /** What the products of a tile are multiplied with, and how many rows are multiplied. */
  method TileScale(job: Job, i: nat, rows: nat) returns (alpha: real, used: nat)
    requires job.tile > 0 && i < job.NTile()
    ensures used == (if job.Partial(i) then rows else job.tile)
    ensures alpha == if job.Partial(i) then 1.0 else Alpha(|job.x|)
    ensures (if job.Partial(i) then 1.0 else |job.x| as real) * alpha == 1.0
  {
    SomeRows(job, i);
    alpha, used := 1.0 / |job.x| as real, job.tile;
    if job.Partial(i) {
      alpha, used := 1.0, rows;
    }
  }

  lemma SomeRows(job: Job, i: nat)
    requires job.tile > 0 && i < job.NTile()
    ensures |job.x| > 0 && 1.0 / |job.x| as real == Alpha(|job.x|) && |job.x| as real * Alpha(|job.x|) == 1.0
  {
    AlphaIsReciprocal(|job.x|);
  }

  /** n times what an entry has grown by is the sum over the rows of the products of two columns. */
  ghost predicate AddsProducts(before: Mat, m: Mat, sc: Scratch, rows: nat, size: nat, n: real)
  {
    forall ii: nat, ji: nat, s: Vec ::
      ii < size && ji < size && |s| == rows
      && (forall j: nat :: j < |s| ==> s[j] == At(sc.krp1, j, ii) * At(sc.krp2, j, ji)) ==>
      n * (At(m, ii, ji) - At(before, ii, ji)) == Total(s)
  }

  lemma AddedIsPlain(alpha: real, sc: Scratch, used: nat, before: Mat, m: Mat, size: nat, n: real)
    requires n * alpha == 1.0 && m == TransposedGemm(alpha, sc.krp1, sc.krp2, used, before, size)
    ensures AddsProducts(before, m, sc, used, size, n)
  {
    hide At, Sum, Total, TransposedGemm;
    forall ii: nat, ji: nat, s: Vec |
      ii < size && ji < size && |s| == used
      && (forall j: nat :: j < |s| ==> s[j] == At(sc.krp1, j, ii) * At(sc.krp2, j, ji))
      ensures n * (At(m, ii, ji) - At(before, ii, ji)) == Total(s)
    {
      SumIsTotal(used, ColumnTerms(sc.krp1, sc.krp2, ii, ji), s);
      MeanTimesRows(n, alpha, Total(s), At(m, ii, ji) - At(before, ii, ji));
    }
  }

  lemma ScratchAfter(job: Job, q: Quad, sc: Scratch, cur: Scratch, i: nat, base: nat, rows: nat, after: Scratch)
    requires job.s > 0 && job.tile > 0 && i < job.NTile() && Running(job, q, sc, cur, i) && base == i * job.tile
    requires rows == (if job.Partial(i) then |job.x| % job.tile else cur.rows)
    requires after == FillTile(job, q, base, rows, cur)
    ensures after.Fits(job)
    ensures !job.Partial(i) ==> Running(job, q, sc, after, i + 1)
    ensures job.Partial(i) ==> after.rows == |job.x| % job.tile && SameTail(job, after, cur, |job.x| % job.tile)
  {
    hide Job.BlockSize, Place, Low, High, Job.RowLimit, Job.ColLimit;
    if !job.Partial(i) {
      RunningStep(job, q, sc, cur, i);
    }
  }

  lemma TileAdded(job: Job, q: Quad, sc: Scratch, cur: Scratch, i: nat, base: nat, rows: nat, used: nat, alpha: real,
      before: Mat, m: Mat)
    requires job.s > 0 && job.tile > 0 && IsUnique(q, job.NBlocks()) && i < job.NTile() && Running(job, q, sc, cur, i)
    requires base == i * job.tile && BlockAt(job, q, sc, before, i)
    requires if job.Partial(i) then rows == used == |job.x| % job.tile && alpha == 1.0
             else rows == sc.rows && used == job.tile && alpha == Alpha(|job.x|)
    requires var after := FillTile(job, q, base, rows, cur);
             m == TransposedGemm(alpha, after.krp1, after.krp2, used, before, job.s * job.s)
    ensures BlockAt(job, q, sc, m, i + 1)
  {
    var next := i + 1;
    hide EntryAt, Job.RowLimit, Job.ColLimit, Alpha, At, Running, FillTile, TransposedGemm, Job.NTile, Job.Partial;
    hide IsUnique;
    forall ii: nat, ji: nat | ii < job.RowLimit(q) && ji < job.ColLimit(q)
      ensures EntryAt(job, q, sc, m, ii, ji, next)
    {
      TileAddedAt(job, q, sc, cur, i, base, rows, used, alpha, before, m, ii, ji);
    }
  }

  lemma TileAddedAt(job: Job, q: Quad, sc: Scratch, cur: Scratch, i: nat, base: nat, rows: nat, used: nat, alpha: real,
      before: Mat, m: Mat, ii: nat, ji: nat)
    requires job.s > 0 && job.tile > 0 && IsUnique(q, job.NBlocks()) && i < job.NTile() && Running(job, q, sc, cur, i)
    requires ii < job.RowLimit(q) && ji < job.ColLimit(q) && base == i * job.tile && BlockAt(job, q, sc, before, i)
    requires if job.Partial(i) then rows == used == |job.x| % job.tile && alpha == 1.0
             else rows == sc.rows && used == job.tile && alpha == Alpha(|job.x|)
    requires var after := FillTile(job, q, base, rows, cur);
             m == TransposedGemm(alpha, after.krp1, after.krp2, used, before, job.s * job.s)
    ensures EntryAt(job, q, sc, m, ii, ji, i + 1)
  {
    hide EntryAt, Job.RowLimit, Job.ColLimit, Alpha, At, Running, FillTile, TransposedGemm, Job.NTile, Job.Partial;
    hide IsUnique, Sum, Job.BlockSize;
    job.BlocksOf(q);
    assert EntryAt(job, q, sc, before, ii, ji, i);
    assert At(m, ii, ji)
        == At(before, ii, ji) + alpha * Sum(used, TileProducts(job, q, base, rows, cur, ii, ji));
    hide *;
    if job.Partial(i) {
      PartialTileEntry(job, q, sc, cur, i, base, before, m, ii, ji);
    } else {
      WholeTileEntry(job, q, sc, cur, i, base, before, m, ii, ji);
    }
  }

  // ----- one block

  /** What a team's first block leaves: the rows of its last whole tile, and the count of its partial one. */
  function LeftBy(job: Job, q: Quad, sc: Scratch): (left: Scratch)
    requires job.s > 0 && job.tile > 0 && job.NTile() >= 2
  {
    FillTile(job, q, (job.NTile() - 2) * job.tile, job.tile, sc).(rows := |job.x| % job.tile)
  }

  /** The scratch after a block that ends with a partial tile. */
  ghost predicate EndsPartial(job: Job, q: Quad, sc: Scratch, after: Scratch)
    requires job.s > 0 && job.tile > 0
  {
    var r := |job.x| % job.tile;
    && after.rows == r && (sc.rows == r ==> SameTail(job, after, sc, r))
    && (sc.rows == job.tile && job.NTile() >= 2 ==> SameTail(job, after, LeftBy(job, q, sc), r))
  }

  lemma LastTile(job: Job, q: Quad, sc: Scratch, cur: Scratch, after: Scratch)
    requires job.Valid() && job.NTile() > 0 && Running(job, q, sc, cur, job.NTile() - 1)
    requires after.rows == |job.x| % job.tile && SameTail(job, after, cur, |job.x| % job.tile)
    ensures EndsPartial(job, q, sc, after)
  {
    RunningTail(job, q, sc, cur, job.NTile() - 1);
    hide FillTile, Job.RowsDone;
  }

  function ZeroBlock(size: nat): (m: Mat)
    ensures IsMat(m, size, size)
  {
    Tabulate(size, size, (ii: nat, ji: nat) => 0.0)
  }

  lemma NoTiles(job: Job, q: Quad, sc: Scratch, m: Mat)
    requires job.Valid() && sc.Fits(job) && IsUnique(q, job.NBlocks())
    requires m == ZeroBlock(job.s * job.s)
    ensures BlockAt(job, q, sc, m, 0) && Running(job, q, sc, sc, 0)
  {
    job.BlocksOf(q);
    job.AllRows();
    hide Job.RowLimit, Job.ColLimit, LeftOver, NewTerms, Alpha, Job.RowsDone;
    forall ii: nat, ji: nat | ii < job.RowLimit(q) && ji < job.ColLimit(q) ensures EntryAt(job, q, sc, m, ii, ji, 0) {
      assert At(m, ii, ji) == 0.0 && FullTiles(job, 0) as real == 0.0;
    }
  }

  /** All tiles of one block, whatever the scratch held before. */
  method ComputeBlock(job: Job, q: Quad, sc: Scratch) returns (m: Mat, after: Scratch)
    requires job.Valid() && IsUnique(q, job.NBlocks()) && sc.Fits(job)
    ensures FilledBlock(job, q, sc, m) && after.Fits(job)
    ensures |job.x| % job.tile == 0 ==> after.rows == sc.rows
    ensures |job.x| % job.tile != 0 ==> EndsPartial(job, q, sc, after)
  {
    hide BlockAt, Running, EndsPartial, Scratch.Fits, IsUnique, SameTail, ZeroBlock;
    m := ZeroBlock(job.s * job.s);
    after := sc;
    NoTiles(job, q, sc, m);
    var i := 0;
    while i < job.NTile()
      invariant 0 <= i <= job.NTile() && after.Fits(job) && BlockAt(job, q, sc, m, i)
      invariant i < job.NTile() || |job.x| % job.tile == 0 ==> Running(job, q, sc, after, i) && after.rows == sc.rows
      invariant i == job.NTile() && |job.x| % job.tile != 0 ==> EndsPartial(job, q, sc, after)
    {
      ghost var cur := after;
      m, after := AddTile(job, q, i, m, after, sc);
      if job.Partial(i) {
        LastTile(job, q, sc, cur, after);
      } else {
        RunningRows(job, q, sc, after, i + 1);
      }
      i := i + 1;
    }
  }

  lemma RunningRows(job: Job, q: Quad, sc: Scratch, cur: Scratch, i: nat)
    requires job.s > 0 && job.tile > 0 && Running(job, q, sc, cur, i)
    ensures cur.rows == sc.rows
  {
  }

  /** Two scratches with the same left-over rows make the same block. */
  lemma SameScratch(job: Job, q: Quad, a: Scratch, b: Scratch, m: Mat)
    requires job.Valid() && FilledBlock(job, q, a, m) && a.rows == b.rows && SameTail(job, a, b, a.rows)
    ensures FilledBlock(job, q, b, m)
  {
    job.BlocksOf(q);
    hide Job.RowLimit, Job.ColLimit, Sum, Alpha, NewTerms, LeftOver, SameTail, Job.NTile, Job.RowsDone, FullTiles;
    var n := job.NTile();
    forall ii: nat, ji: nat | ii < job.RowLimit(q) && ji < job.ColLimit(q) ensures EntryAt(job, q, b, m, ii, ji, n) {
      assert EntryAt(job, q, a, m, ii, ji, n);
      SameLeftOver(job, a, b, ii, ji);
    }
  }

  lemma SameLeftOver(job: Job, a: Scratch, b: Scratch, ii: nat, ji: nat)
    requires a.rows == b.rows && SameTail(job, a, b, a.rows) && ii < job.s * job.s && ji < job.s * job.s
    ensures LeftOver(job, a, ii, ji) == LeftOver(job, b, ii, ji)
  {
    hide Sum;
    if a.rows <= job.tile {
      SumExt(job.tile - a.rows, LeftTerms(a, ii, ji), LeftTerms(b, ii, ji));
    }
  }

  /** A block that began with a fresh scratch, or has no whole tile, holds its results. */
  lemma FreshIsRight(job: Job, q: Quad, sc: Scratch, m: Mat)
    requires job.Valid() && FilledBlock(job, q, sc, m) && (sc.rows == job.tile || |job.x| < job.tile)
    ensures job.HoldsBlock(m, q)
  {
    hide BlockAt;
    forall ii: nat, ji: nat | ii < job.RowLimit(q) && ji < job.ColLimit(q) ensures job.EntryIs(m, q, ii, ji) {
      FreshEntry(job, q, sc, m, ii, ji);
    }
  }

  lemma FreshEntry(job: Job, q: Quad, sc: Scratch, m: Mat, ii: nat, ji: nat)
    requires job.Valid() && BlockAt(job, q, sc, m, job.NTile()) && (sc.rows == job.tile || |job.x| < job.tile)
    requires ii < job.RowLimit(q) && ji < job.ColLimit(q)
    ensures job.EntryIs(m, q, ii, ji)
  {
    hide Job.RowLimit, Job.ColLimit, Alpha, Job.Decode, NewTerms, LeftOver, Job.NTile, Job.RowsDone, FullTiles, At;
    hide Job.Weighted;
    assert EntryAt(job, q, sc, m, ii, ji, job.NTile());
    NothingLeft(job, sc, ii, ji);
    job.AllRows();
    AllNew(job, sc.rows, job.Decode(q, ii, ji));
  }

  lemma NothingLeft(job: Job, sc: Scratch, ii: nat, ji: nat)
    requires job.tile > 0 && (sc.rows == job.tile || |job.x| < job.tile)
    ensures FullTiles(job, job.NTile()) as real * (Alpha(|job.x|) * LeftOver(job, sc, ii, ji)) == 0.0
  {
    hide Alpha, LeftTerms;
    if sc.rows == job.tile {
      assert LeftOver(job, sc, ii, ji) == 0.0;
    } else {
      assert FullTiles(job, job.NTile()) == 0;
    }
  }

  lemma AllNew(job: Job, fill: nat, e: Quad)
    requires job.tile > 0 && (fill == job.tile || |job.x| < job.tile)
    ensures Sum(|job.x|, NewTerms(job, fill, e)) == job.Result(e)
  {
    hide Terms, Alpha, Sum;
    assert |job.x| < job.tile ==> job.FullRows() == 0;
    forall row: nat | row < |job.x| ensures NewTerms(job, fill, e)(row) == job.Weighted(e)(row) {
      assert FillWeight(job, fill, row) == job.RowWeight(row);
    }
    SumExt(|job.x|, NewTerms(job, fill, e), job.Weighted(e));
  }

  // ----- all blocks, split over the teams

  /** The scratch of a team before its first block. */
  function FreshScratch(job: Job, garbage: Mat): Scratch
  {
    Scratch(garbage, garbage, job.tile)
  }

  /** Block b of a team that begins with block `start`. When the last tile is partial and there are whole
      ones, every block but the team's first adds up what the first one left. */
  ghost predicate TeamResult(job: Job, m: Mat, quads: seq<Quad>, start: nat, b: nat, garbage: Mat)
    requires job.s > 0 && job.tile > 0 && start <= b < |quads|
  {
    if b == start || |job.x| % job.tile == 0 || |job.x| < job.tile then job.HoldsBlock(m, quads[b])
    else job.NTile() >= 2 && FilledBlock(job, quads[b], LeftBy(job, quads[start], FreshScratch(job, garbage)), m)
  }

  /** A team's scratch before block b. */
  ghost predicate TeamScratch(job: Job, sc: Scratch, quads: seq<Quad>, start: nat, b: nat, garbage: Mat)
    requires job.s > 0 && job.tile > 0 && start <= b <= |quads|
  {
    && sc.Fits(job)
    && if b == start then sc == FreshScratch(job, garbage)
       else if |job.x| % job.tile == 0 then sc.rows == job.tile
       else sc.rows == |job.x| % job.tile && (job.NTile() >= 2 ==>
         SameTail(job, sc, LeftBy(job, quads[start], FreshScratch(job, garbage)), |job.x| % job.tile))
  }

  lemma OneTile(job: Job)
    requires job.tile > 0 && |job.x| % job.tile != 0
    ensures job.NTile() >= 2 <==> |job.x| >= job.tile
  {
  }

  lemma TeamStep(job: Job, quads: seq<Quad>, start: nat, b: nat, garbage: Mat, sc: Scratch, m: Mat, after: Scratch)
    requires job.Valid() && start <= b < |quads| && TeamScratch(job, sc, quads, start, b, garbage)
    requires FilledBlock(job, quads[b], sc, m) && after.Fits(job)
    requires |job.x| % job.tile == 0 ==> after.rows == sc.rows
    requires |job.x| % job.tile != 0 ==> EndsPartial(job, quads[b], sc, after)
    ensures TeamResult(job, m, quads, start, b, garbage) && TeamScratch(job, after, quads, start, b + 1, garbage)
  {
    var r := |job.x| % job.tile;
    hide FilledBlock, Job.HoldsBlock, FillTile, IsMat;
    if r != 0 {
      OneTile(job);
    }
    if b == start || r == 0 || |job.x| < job.tile {
      FreshIsRight(job, quads[b], sc, m);
    } else {
      var left := LeftBy(job, quads[start], FreshScratch(job, garbage));
      SameScratch(job, quads[b], sc, left, m);
    }
  }

  lemma FreshTeam(job: Job, quads: seq<Quad>, start: nat, garbage: Mat)
    requires job.Valid() && start <= |quads| && IsMat(garbage, job.tile, job.s * job.s)
    ensures FreshScratch(job, garbage).Fits(job)
    ensures TeamScratch(job, FreshScratch(job, garbage), quads, start, start, garbage)
  {
  }

  /** A team goes through its blocks with one scratch, whose matrices may hold anything at first. */
  method TeamBlocks(job: Job, quads: seq<Quad>, start: nat, count: nat, garbage: Mat, results: array<Mat>)
    requires job.Valid() && start + count <= |quads| == results.Length
    requires forall b :: 0 <= b < |quads| ==> IsUnique(quads[b], job.NBlocks())
    requires IsMat(garbage, job.tile, job.s * job.s)
    modifies results
    ensures forall b :: 0 <= b < |quads| && (b < start || b >= start + count) ==> results[b] == old(results[b])
    ensures forall b :: start <= b < start + count ==> TeamResult(job, results[b], quads, start, b, garbage)
  {
    hide IsUnique, TeamResult, TeamScratch, FilledBlock, EndsPartial, Scratch.Fits, FreshScratch;
    var scratch := FreshScratch(job, garbage);
    FreshTeam(job, quads, start, garbage);
    var blockLinInd := start;
    while blockLinInd < start + count
      invariant start <= blockLinInd <= start + count && scratch.Fits(job)
      invariant TeamScratch(job, scratch, quads, start, blockLinInd, garbage)
      invariant forall b :: 0 <= b < |quads| && (b < start || b >= start + count) ==> results[b] == old(results[b])
      invariant forall b :: start <= b < blockLinInd ==> TeamResult(job, results[b], quads, start, b, garbage)
    {
      ghost var before := scratch;
      var m;
      m, scratch := ComputeBlock(job, quads[blockLinInd], scratch);
      TeamStep(job, quads, start, blockLinInd, garbage, before, m, scratch);
      results[blockLinInd] := m;
      blockLinInd := blockLinInd + 1;
    }
  }

  /** Team t has block b. */
  predicate InTeam(job: Job, blocks: nat, t: nat, b: nat)
    requires job.teams > 0
  {
    Start(blocks, job.teams, t) <= b < Start(blocks, job.teams, t + 1) && b < blocks
  }

  /** Team t has the results of its blocks. */
  ghost predicate TeamDone(job: Job, results: seq<Mat>, quads: seq<Quad>, garbage: Mat, t: nat)
    requires job.s > 0 && job.tile > 0 && job.teams > 0 && |results| == |quads|
  {
    forall b: nat :: InTeam(job, |quads|, t, b) ==>
      TeamResult(job, results[b], quads, Start(|quads|, job.teams, t), b, garbage)
  }

  /** The first l teams have theirs. */
  ghost predicate TeamsDone(job: Job, results: seq<Mat>, quads: seq<Quad>, garbage: Mat, l: nat)
    requires job.s > 0 && job.tile > 0 && job.teams > 0 && |results| == |quads| && l <= job.teams
  {
    forall t: nat :: t < l ==> TeamDone(job, results, quads, garbage, t)
  }

  method ComputeBlocks(job: Job, quads: seq<Quad>, garbage: Mat) returns (results: array<Mat>)
    requires job.Valid() && forall b :: 0 <= b < |quads| ==> IsUnique(quads[b], job.NBlocks())
    requires IsMat(garbage, job.tile, job.s * job.s)
    ensures fresh(results) && results.Length == |quads|
    ensures TeamsDone(job, results[..], quads, garbage, job.teams)
  {
    results := new Mat[|quads|];
    var lRank := 0;
    StartBounds(|quads|, job.teams);
    hide TeamResult, IsUnique, TeamDone;
    while lRank < job.teams
      invariant 0 <= lRank <= job.teams
      invariant TeamsDone(job, results[..], quads, garbage, lRank)
    {
      ghost var before := results[..];
      OneTeam(job, quads, lRank, garbage, results);
      forall t: nat | t < lRank ensures TeamDone(job, results[..], quads, garbage, t) {
        TeamKept(job, before, results[..], quads, garbage, t, lRank);
      }
      lRank := lRank + 1;
    }
  }

  method OneTeam(job: Job, quads: seq<Quad>, lRank: nat, garbage: Mat, results: array<Mat>)
    requires job.Valid() && lRank < job.teams && |quads| == results.Length
    requires forall b :: 0 <= b < |quads| ==> IsUnique(quads[b], job.NBlocks())
    requires IsMat(garbage, job.tile, job.s * job.s)
    modifies results
    ensures forall b: nat :: b < |quads| && !InTeam(job, |quads|, lRank, b) ==> results[..][b] == old(results[..])[b]
    ensures TeamDone(job, results[..], quads, garbage, lRank)
  {
    hide TeamResult, IsUnique;
    StartBounds(|quads|, job.teams);
    var start, count := TeamSplit(|quads|, job.teams, lRank);
    StartMonotone(|quads|, job.teams, lRank + 1, job.teams);
    TeamBlocks(job, quads, start, count, garbage, results);
  }

  lemma TeamKept(job: Job, before: seq<Mat>, after: seq<Mat>, quads: seq<Quad>, garbage: Mat, t: nat, l: nat)
    requires job.s > 0 && job.tile > 0 && t < l < job.teams && |before| == |after| == |quads|
    requires TeamDone(job, before, quads, garbage, t)
    requires forall b: nat :: b < |quads| && !InTeam(job, |quads|, l, b) ==> after[b] == before[b]
    ensures TeamDone(job, after, quads, garbage, t)
  {
    hide TeamResult;
    var start := Start(|quads|, job.teams, t);
    forall b: nat | InTeam(job, |quads|, t, b) ensures TeamResult(job, after[b], quads, start, b, garbage) {
      OtherTeam(job, |quads|, t, l, b);
    }
  }

  lemma OtherTeam(job: Job, blocks: nat, t: nat, l: nat, b: nat)
    requires t < l < job.teams && InTeam(job, blocks, t, b)
    ensures !InTeam(job, blocks, l, b)
  {
    StartMonotone(blocks, job.teams, t + 1, l);
  }

  /** When no team meets what its first block left, every block holds its results. */
  lemma CleanIsRight(job: Job, results: seq<Mat>, quads: seq<Quad>, garbage: Mat, b: nat)
    requires job.Valid() && |results| == |quads| == UniqueBlockCount(job.NBlocks()) && b < |quads|
    requires TeamsDone(job, results, quads, garbage, job.teams) && job.Clean()
    ensures job.HoldsBlock(results[b], quads[b])
  {
    hide Job.HoldsBlock, FilledBlock;
    var t := TeamOf(job, |quads|, b);
    assert TeamDone(job, results, quads, garbage, t);
    FewBlocks(|quads|, job.teams, t, Start(|quads|, job.teams, t + 1) - Start(|quads|, job.teams, t));
  }

  lemma TeamOf(job: Job, blocks: nat, b: nat) returns (t: nat)
    requires job.teams > 0 && b < blocks
    ensures t < job.teams && InTeam(job, blocks, t, b)
  {
    StartBounds(blocks, job.teams);
    t := 0;
    while Start(blocks, job.teams, t + 1) <= b
      invariant t < job.teams && Start(blocks, job.teams, t) <= b
      decreases job.teams - t
    {
      t := t + 1;
    }
  }

  /** With at least as many teams as blocks no team has two. */
  lemma FewBlocks(blocks: nat, teams: nat, lRank: nat, count: int)
    requires teams > 0 && lRank < teams
    requires Start(blocks, teams, lRank) + count == Start(blocks, teams, lRank + 1)
    ensures teams >= blocks ==> count <= 1
  {
    SubtractMultiple(blocks, teams);
    if teams >= blocks && blocks / teams > 0 {
      MulMono(1, blocks / teams, teams);
    }
  }
}
