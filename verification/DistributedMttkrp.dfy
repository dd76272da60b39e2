/** Distributed MTTKRP: partition the nonzeros, import the rows they touch, multiply locally, export
    the contributions. Every owner ends up with its rows of the serial result. */
module DistributedMttkrp {
  import opened Sequences
  import opened Vectors
  import opened UniformBlocking
  import opened Layout
  import opened ProcessGrid
  import opened Mttkrp
  import opened Redistribution
  import opened SparseDistribution
  import opened RowOwnership
  import opened KtensorUpdate
  import opened RowLists
  import opened TwoSidedUpdate

  /** A grid, a global tensor within it, and global factors with weights. */
  datatype Job = Job(g: Grid, x: seq<Entry>, u: seq<Mat>, w: Vec, nc: nat) {

    ghost predicate Valid()
    {
      && g.Valid() && AllOfOrder(x, |g.dims|) && CoordsFit(x, g.dims)
      && FactorsFit(u, g.dims, nc)
    }

    /** Nonzeros of a rank in global coordinates. */
    ghost function Owned(t: nat): seq<Entry>
      requires Valid() && t < g.Size()
    {
      OwnedEntries(x, g)[t]
    }

    /** Lower corner of a rank's block. */
    ghost function Lower(t: nat): (c: Coord)
      requires Valid() && t < g.Size()
      ensures |c| == |g.dims|
    {
      g.BlockOf(t).lower
    }

    /** The factor rows of a layer. */
    ghost function LayerMat(m: nat, coord: nat): (r: Mat)
      requires Valid() && m < |g.dims| && coord < g.procs[m]
      ensures |r| == LayerRows(g, m, coord)
    {
      u[m][LayerStart(g, m, coord)..LayerStart(g, m, coord) + LayerRows(g, m, coord)]
    }

    /** Nonzeros of a rank in the coordinates of its block. */
    ghost function Local(t: nat): (r: seq<Entry>)
      requires Valid() && t < g.Size()
      ensures |r| == |Owned(t)|
      ensures forall i :: 0 <= i < |r| ==>
                InBox(Owned(t)[i].coo, g.BlockOf(t)) && r[i] == ToLocal(Owned(t)[i], Lower(t))
    {
      InBlock(t);
      seq(|Owned(t)|, i requires 0 <= i < |Owned(t)| => ToLocal(Owned(t)[i], Lower(t)))
    }

    lemma InBlock(t: nat)
      requires Valid() && t < g.Size()
      ensures forall i :: 0 <= i < |Owned(t)| ==> InBox(Owned(t)[i].coo, g.BlockOf(t))
    {
      forall i | 0 <= i < |Owned(t)| ensures InBox(Owned(t)[i].coo, g.BlockOf(t)) {
        OwnedEntriesInBlock(x, g, t, i);
      }
    }

    /** Rows of mode m that a rank's nonzeros touch. */
    ghost function Needed(t: nat, m: nat): set<nat>
      requires Valid() && t < g.Size()
    {
      SetOf(Subs(Local(t), m))
    }
  }

  /** Subscripts of one mode. */
  function Subs(xs: seq<Entry>, m: nat): (r: seq<nat>)
    ensures |r| == |xs|
  {
    seq(|xs|, i requires 0 <= i < |xs| => if m < |xs[i].coo| then xs[i].coo[m] else 0)
  }

  // ----- sums

  lemma {:induction false} MttkrpPointwise(xs: seq<Entry>, u1: seq<Mat>, row1: nat, ys: seq<Entry>, u2: seq<Mat>,
      row2: nat, w: Vec, n: nat, r: nat)
    requires |xs| == |ys|
    requires forall i :: 0 <= i < |xs| ==>
               IfRow(xs[i], n, row1, Term(xs[i], u1, w, n, r)) == IfRow(ys[i], n, row2, Term(ys[i], u2, w, n, r))
    ensures MttkrpAt(xs, u1, w, n, row1, r) == MttkrpAt(ys, u2, w, n, row2, r)
  {
    if |xs| > 0 {
      var k := |xs| - 1;
      MttkrpPointwise(xs[..k], u1, row1, ys[..k], u2, row2, w, n, r);
    }
  }

  lemma {:induction false} MttkrpUntouched(xs: seq<Entry>, u: seq<Mat>, w: Vec, n: nat, row: nat, r: nat)
    requires forall i :: 0 <= i < |xs| ==> n >= |xs[i].coo| || xs[i].coo[n] != row
    ensures MttkrpAt(xs, u, w, n, row, r) == 0.0
  {
    if |xs| > 0 {
      MttkrpUntouched(xs[..|xs| - 1], u, w, n, row, r);
    }
  }

  lemma {:induction false} TotalUpdate(v: Vec, t: nat, d: real)
    requires t < |v|
    ensures Total(v[t := v[t] + d]) == Total(v) + d
  {
    var n := |v| - 1;
    if t < n {
      TotalUpdate(v[..n], t, d);
      assert v[t := v[t] + d][..n] == v[..n][t := v[..n][t] + d];
    } else {
      assert v[t := v[t] + d][..n] == v[..n];
    }
  }

  lemma {:induction false} TotalZero(v: Vec)
    requires forall i :: 0 <= i < |v| ==> v[i] == 0.0
    ensures Total(v) == 0.0
  {
    if |v| > 0 {
      TotalZero(v[..|v| - 1]);
    }
  }

  /** One partial result per tag. */
  function PartResults(xs: seq<Entry>, tags: seq<nat>, parts: nat, u: seq<Mat>, w: Vec, n: nat, row: nat,
      r: nat): (v: Vec)
    requires |xs| == |tags|
    ensures |v| == parts
    ensures forall t :: 0 <= t < parts ==> v[t] == MttkrpAt(Filter(xs, tags, t), u, w, n, row, r)
  {
    seq(parts, t requires 0 <= t < parts => MttkrpAt(Filter(xs, tags, t), u, w, n, row, r))
  }

  lemma MttkrpSnoc(xs: seq<Entry>, x: Entry, u: seq<Mat>, w: Vec, n: nat, row: nat, r: nat)
    ensures MttkrpAt(xs + [x], u, w, n, row, r)
         == MttkrpAt(xs, u, w, n, row, r) + IfRow(x, n, row, Term(x, u, w, n, r))
  {
    assert (xs + [x])[..|xs|] == xs;
  }

  /** Splitting the nonzeros splits the sum. */
  lemma {:induction false} PartResultsSum(xs: seq<Entry>, tags: seq<nat>, parts: nat, u: seq<Mat>, w: Vec, n: nat,
      row: nat, r: nat)
    requires |xs| == |tags| && forall i :: 0 <= i < |tags| ==> tags[i] < parts
    ensures Total(PartResults(xs, tags, parts, u, w, n, row, r)) == MttkrpAt(xs, u, w, n, row, r)
  {
    hide Term, Total;
    var v := PartResults(xs, tags, parts, u, w, n, row, r);
    if |xs| == 0 {
      TotalZero(v);
    } else {
      var k := |xs| - 1;
      PartResultsSum(xs[..k], tags[..k], parts, u, w, n, row, r);
      var before := PartResults(xs[..k], tags[..k], parts, u, w, n, row, r);
      var d := IfRow(xs[k], n, row, Term(xs[k], u, w, n, r));
      forall t | 0 <= t < parts ensures v[t] == before[tags[k] := before[tags[k]] + d][t] {
        MttkrpSnoc(Filter(xs[..k], tags[..k], t), xs[k], u, w, n, row, r);
        FilterStep(xs, tags, t);
      }
      assert v == before[tags[k] := before[tags[k]] + d];
      TotalUpdate(before, tags[k], d);
    }
  }

  /** Terms that are zero outside a tag can be left out. */
  lemma {:induction false} FilterTotal(v: Vec, tags: seq<nat>, c: nat)
    requires |v| == |tags| && forall t :: 0 <= t < |v| && tags[t] != c ==> v[t] == 0.0
    ensures Total(Filter(v, tags, c)) == Total(v)
  {
    if |v| > 0 {
      var n := |v| - 1;
      FilterTotal(v[..n], tags[..n], c);
      FilterStep(v, tags, c);
      TotalSnoc(Filter(v[..n], tags[..n], c), v[n]);
    }
  }

  // ----- one rank

  /** After the import a rank's overlap of a mode agrees with the global factor on its own rows. */
  ghost predicate Imported(job: Job, t: nat, overlap: seq<Mat>, m: nat)
    requires job.Valid() && t < job.g.Size() && m < |job.g.dims| == |overlap|
  {
    exists before: Mat ::
      ImportedRows(overlap[m], before, job.LayerMat(m, LayerOf(job.g, m, t)), job.Needed(t, m))
  }

  lemma LocalFactor(job: Job, t: nat, overlap: seq<Mat>, m: nat, i: nat, r: nat)
    requires job.Valid() && t < job.g.Size() && m < |job.g.dims| == |overlap|
    requires Imported(job, t, overlap, m) && i < |job.Owned(t)|
    ensures FactorAt(overlap, job.Local(t)[i].coo, m, r) == FactorAt(job.u, job.Owned(t)[i].coo, m, r)
  {
    var all := job.LayerMat(m, LayerOf(job.g, m, t));
    var before :| ImportedRows(overlap[m], before, all, job.Needed(t, m));
    LocalRow(job, t, m, i);
    LocalRowNeeded(job, t, m, i);
    hide Job.LayerMat, Job.Needed, Job.Local, Job.Owned, LayerOf, LayerRows, LayerStart;
    assert overlap[m][job.Local(t)[i].coo[m]] == all[job.Local(t)[i].coo[m]];
  }

  /** Where a nonzero's row is in the rows of its layer. */
  lemma LocalRow(job: Job, t: nat, m: nat, i: nat)
    requires job.Valid() && t < job.g.Size() && m < |job.g.dims| && i < |job.Owned(t)|
    ensures |job.Local(t)[i].coo| == |job.Owned(t)[i].coo| == |job.g.dims|
    ensures var c, row := LayerOf(job.g, m, t), job.Local(t)[i].coo[m];
            row < LayerRows(job.g, m, c) && job.LayerMat(m, c)[row] == job.u[m][job.Owned(t)[i].coo[m]]
  {
    var c := LayerOf(job.g, m, t);
    var x, b := job.Owned(t)[i], job.g.BlockOf(t);
    var y := job.Local(t)[i];
    hide Job.Owned, Job.Local;
    assert InBox(x.coo, b) && b.lower[m] == LayerStart(job.g, m, c);
    assert y.coo[m] == x.coo[m] - b.lower[m] < LayerRows(job.g, m, c);
  }

  lemma LocalRowNeeded(job: Job, t: nat, m: nat, i: nat)
    requires job.Valid() && t < job.g.Size() && i < |job.Owned(t)| && m < |job.Local(t)[i].coo|
    ensures job.Local(t)[i].coo[m] in job.Needed(t, m)
  {
    hide Job.Local, Job.Owned;
    assert Subs(job.Local(t), m)[i] == job.Local(t)[i].coo[m];
  }

  lemma {:induction false} SkipProdPointwise(u1: seq<Mat>, c1: seq<nat>, u2: seq<Mat>, c2: seq<nat>, n: nat,
      r: nat, k: nat)
    requires forall m: nat :: m < k && m != n ==> FactorAt(u1, c1, m, r) == FactorAt(u2, c2, m, r)
    ensures SkipProd(u1, c1, n, r, k) == SkipProd(u2, c2, n, r, k)
  {
    if k > 0 {
      SkipProdPointwise(u1, c1, u2, c2, n, r, k - 1);
    }
  }

  lemma TermPointwise(x: Entry, u1: seq<Mat>, y: Entry, u2: seq<Mat>, w: Vec, n: nat, r: nat)
    requires x.val == y.val && |u1| == |u2|
    requires forall m: nat :: m < |u1| && m != n ==> FactorAt(u1, x.coo, m, r) == FactorAt(u2, y.coo, m, r)
    ensures Term(x, u1, w, n, r) == Term(y, u2, w, n, r)
  {
    SkipProdPointwise(u1, x.coo, u2, y.coo, n, r, |u1|);
  }

  lemma LocalTerm(job: Job, t: nat, overlap: seq<Mat>, n: nat, r: nat, i: nat)
    requires job.Valid() && t < job.g.Size() && n < |job.g.dims| == |overlap|
    requires forall m :: 0 <= m < |overlap| && m != n ==> Imported(job, t, overlap, m)
    requires i < |job.Owned(t)|
    ensures Term(job.Local(t)[i], overlap, job.w, n, r) == Term(job.Owned(t)[i], job.u, job.w, n, r)
  {
    var x, y := job.Local(t)[i], job.Owned(t)[i];
    forall m: nat | m < |overlap| && m != n ensures FactorAt(overlap, x.coo, m, r) == FactorAt(job.u, y.coo, m, r) {
      LocalFactor(job, t, overlap, m, i, r);
    }
    TermPointwise(x, overlap, y, job.u, job.w, n, r);
  }

  lemma LocalCoordinate(job: Job, t: nat, n: nat, i: nat)
    requires job.Valid() && t < job.g.Size() && n < |job.g.dims| && i < |job.Owned(t)|
    ensures |job.Local(t)[i].coo| == |job.Owned(t)[i].coo| == |job.g.dims|
    ensures job.Local(t)[i].coo[n] + LayerStart(job.g, n, LayerOf(job.g, n, t)) == job.Owned(t)[i].coo[n]
  {
    job.InBlock(t);
    assert job.Local(t)[i] == ToLocal(job.Owned(t)[i], job.Lower(t));
  }

  /** A rank's local product is its share of the global one. */
  lemma LocalIsShare(job: Job, t: nat, overlap: seq<Mat>, n: nat, row: nat, r: nat)
    requires job.Valid() && t < job.g.Size() && n < |job.g.dims| == |overlap|
    requires forall m :: 0 <= m < |overlap| && m != n ==> Imported(job, t, overlap, m)
    ensures MttkrpAt(job.Local(t), overlap, job.w, n, row, r)
         == MttkrpAt(job.Owned(t), job.u, job.w, n, LayerStart(job.g, n, LayerOf(job.g, n, t)) + row, r)
  {
    hide Imported, Term, MttkrpAt, LayerOf;
    var xs, ys := job.Local(t), job.Owned(t);
    var start := LayerStart(job.g, n, LayerOf(job.g, n, t));
    forall i | 0 <= i < |xs|
      ensures IfRow(xs[i], n, row, Term(xs[i], overlap, job.w, n, r))
           == IfRow(ys[i], n, start + row, Term(ys[i], job.u, job.w, n, r))
    {
      LocalTerm(job, t, overlap, n, r, i);
      LocalCoordinate(job, t, n, i);
    }
    MttkrpPointwise(xs, overlap, row, ys, job.u, start + row, job.w, n, r);
  }

  /** The result of a rank's local product, on the rows its nonzeros touch; other rows are arbitrary. */
  ghost predicate LocalResult(job: Job, t: nat, overlap: seq<Mat>, n: nat, result: Mat)
    requires job.Valid() && t < job.g.Size() && n < |job.g.dims|
  {
    forall row: nat, r: nat :: row in job.Needed(t, n) && r < job.nc ==>
      At(result, row, r) == MttkrpAt(job.Local(t), overlap, job.w, n, row, r)
  }

  // ----- one layer

  ghost function LayerNeeded(job: Job, n: nat, coord: nat): (r: seq<set<nat>>)
    requires job.Valid() && n < |job.g.dims|
    ensures |r| == |job.g.SubComm(n, coord)|
    ensures forall p :: 0 <= p < |r| ==>
              job.g.SubComm(n, coord)[p] < job.g.Size() && r[p] == job.Needed(job.g.SubComm(n, coord)[p], n)
  {
    SubRanksBelow(job.g, n, coord);
    seq(|job.g.SubComm(n, coord)|, p requires 0 <= p < |job.g.SubComm(n, coord)| =>
      job.Needed(job.g.SubComm(n, coord)[p], n))
  }

  lemma SubRanksBelow(g: Grid, n: nat, coord: nat)
    requires n < |g.procs|
    ensures forall p :: 0 <= p < |g.SubComm(n, coord)| ==>
              g.SubComm(n, coord)[p] < g.Size() && g.CoordsOf(g.SubComm(n, coord)[p])[n] == coord
  {
    g.SubCommSpec(n, coord);
    forall p | 0 <= p < |g.SubComm(n, coord)|
      ensures g.SubComm(n, coord)[p] < g.Size() && g.CoordsOf(g.SubComm(n, coord)[p])[n] == coord
    {
      Member(g.SubComm(n, coord), p);
    }
  }

  /** Shares of all ranks in one cell of the mode-n result. */
  ghost function Shares(job: Job, n: nat, grow: nat, r: nat): (v: Vec)
    requires job.Valid()
    ensures |v| == job.g.Size()
    ensures forall t :: 0 <= t < |v| ==> v[t] == MttkrpAt(job.Owned(t), job.u, job.w, n, grow, r)
  {
    PartResults(job.x, OwnerTags(job.x, job.g), job.g.Size(), job.u, job.w, n, grow, r)
  }

  /** Only the ranks of a row's layer contribute to it, and together they make up the serial result. */
  lemma LayerMakesUpTheRow(job: Job, n: nat, coord: nat, grow: nat, r: nat)
    requires job.Valid() && n < |job.g.dims| && coord < job.g.procs[n]
    requires InPart(job.g.blocking[n], coord, grow)
    ensures Total(Filter(Shares(job, n, grow, r), job.g.ModeTags(n), coord))
         == MttkrpAt(job.x, job.u, job.w, n, grow, r)
  {
    var v := Shares(job, n, grow, r);
    forall t | 0 <= t < |v| && job.g.ModeTags(n)[t] != coord ensures v[t] == 0.0 {
      OtherLayersAreSilent(job, n, coord, grow, r, t);
    }
    FilterTotal(v, job.g.ModeTags(n), coord);
    SharesMakeUpTheRow(job, n, grow, r);
  }

  lemma SharesMakeUpTheRow(job: Job, n: nat, grow: nat, r: nat)
    requires job.Valid()
    ensures Total(Shares(job, n, grow, r)) == MttkrpAt(job.x, job.u, job.w, n, grow, r)
  {
    forall i | 0 <= i < |job.x| ensures OwnerTags(job.x, job.g)[i] < job.g.Size() {
      SomeRank(job.g, job.x[i].coo);
    }
    PartResultsSum(job.x, OwnerTags(job.x, job.g), job.g.Size(), job.u, job.w, n, grow, r);
  }

  lemma OtherLayersAreSilent(job: Job, n: nat, coord: nat, grow: nat, r: nat, t: nat)
    requires job.Valid() && n < |job.g.dims| && coord < job.g.procs[n] && t < job.g.Size()
    requires InPart(job.g.blocking[n], coord, grow) && job.g.CoordsOf(t)[n] != coord
    ensures MttkrpAt(job.Owned(t), job.u, job.w, n, grow, r) == 0.0
  {
    var b := job.g.BlockOf(t);
    var c := LayerOf(job.g, n, t);
    job.InBlock(t);
    forall i | 0 <= i < |job.Owned(t)| ensures job.Owned(t)[i].coo[n] != grow {
      assert InBox(job.Owned(t)[i].coo, b);
      assert InPart(job.g.blocking[n], c, job.Owned(t)[i].coo[n]);
      if job.Owned(t)[i].coo[n] == grow {
        PartUnique(job.g.blocking[n], job.g.dims[n], job.g.procs[n], c, coord, grow);
      }
    }
    MttkrpUntouched(job.Owned(t), job.u, job.w, n, grow, r);
  }

  /** A rank of the layer has imported the other modes and multiplied its nonzeros. */
  ghost predicate RankDone(job: Job, n: nat, t: nat, overlap: seq<Mat>, result: Mat)
    requires job.Valid() && n < |job.g.dims|
  {
    && t < job.g.Size() && |overlap| == |job.g.dims|
    && (forall m :: 0 <= m < |overlap| && m != n ==> Imported(job, t, overlap, m))
    && LocalResult(job, t, overlap, n, result)
  }

  lemma UnneededRow(job: Job, t: nat, overlap: seq<Mat>, n: nat, row: nat, r: nat)
    requires job.Valid() && t < job.g.Size() && row !in job.Needed(t, n)
    ensures MttkrpAt(job.Local(t), overlap, job.w, n, row, r) == 0.0
  {
    var xs := job.Local(t);
    forall i | 0 <= i < |xs| ensures n >= |xs[i].coo| || xs[i].coo[n] != row {
      assert Subs(xs, n)[i] in Subs(xs, n);
    }
    MttkrpUntouched(xs, overlap, job.w, n, row, r);
  }

  /** A rank's result, masked to the rows it touches, is its share of the serial result. */
  lemma RankShare(job: Job, n: nat, t: nat, overlap: seq<Mat>, result: Mat, row: nat, r: nat)
    requires job.Valid() && n < |job.g.dims| && r < job.nc && RankDone(job, n, t, overlap, result)
    ensures (if row in job.Needed(t, n) then At(result, row, r) else 0.0)
         == MttkrpAt(job.Owned(t), job.u, job.w, n, LayerStart(job.g, n, LayerOf(job.g, n, t)) + row, r)
  {
    LocalIsShare(job, t, overlap, n, row, r);
    if row !in job.Needed(t, n) {
      UnneededRow(job, t, overlap, n, row, r);
    }
  }

  lemma MaskedCell(results: Pieces, needed: seq<set<nat>>, rows: nat, nc: nat, p: nat, row: nat, r: nat)
    requires IsOverlap(results, |needed|, rows, nc) && p < |results| && row < rows && r < nc
    ensures IsOverlap(Masked(results, needed, nc), |results|, rows, nc)
    ensures Masked(results, needed, nc)[p][row][r] == if row in needed[p] then At(results[p], row, r) else 0.0
  {
    assert |MaskRows(results[p], needed[p], nc)[row]| == nc;
  }

  ghost predicate LayerDone(job: Job, n: nat, sub: seq<nat>, overlaps: seq<seq<Mat>>, results: seq<Mat>)
    requires job.Valid() && n < |job.g.dims|
  {
    && |overlaps| == |results| == |sub|
    && forall p :: 0 <= p < |sub| ==> RankDone(job, n, sub[p], overlaps[p], results[p])
  }

  lemma MaskedShare(job: Job, n: nat, c: nat, overlaps: seq<seq<Mat>>, results: seq<Mat>, rows: nat, p: nat,
      row: nat, r: nat)
    requires job.Valid() && n < |job.g.dims| && c < job.g.procs[n]
    requires LayerDone(job, n, job.g.SubComm(n, c), overlaps, results)
    requires IsOverlap(results, |results|, rows, job.nc) && row < rows && r < job.nc && p < |results|
    ensures IsOverlap(Masked(results, LayerNeeded(job, n, c), job.nc), |results|, rows, job.nc)
    ensures Masked(results, LayerNeeded(job, n, c), job.nc)[p][row][r]
         == MttkrpAt(job.Owned(job.g.SubComm(n, c)[p]), job.u, job.w, n, LayerStart(job.g, n, c) + row, r)
  {
    hide MttkrpAt, Masked, Imported, LocalResult;
    var t := job.g.SubComm(n, c)[p];
    SubRanksBelow(job.g, n, c);
    MaskedCell(results, LayerNeeded(job, n, c), rows, job.nc, p, row, r);
    RankShare(job, n, t, overlaps[p], results[p], row, r);
  }

  /** The share of the p-th rank of a layer. */
  lemma ShareOf(job: Job, n: nat, c: nat, grow: nat, r: nat, p: nat)
    requires job.Valid() && n < |job.g.dims| && p < |job.g.SubComm(n, c)|
    ensures job.g.SubComm(n, c)[p] < job.g.Size()
    ensures |Filter(Shares(job, n, grow, r), job.g.ModeTags(n), c)| == |job.g.SubComm(n, c)|
    ensures Filter(Shares(job, n, grow, r), job.g.ModeTags(n), c)[p]
         == MttkrpAt(job.Owned(job.g.SubComm(n, c)[p]), job.u, job.w, n, grow, r)
  {
    hide MttkrpAt, Filter, Positions;
    FilterByPositions(Shares(job, n, grow, r), job.g.ModeTags(n), c);
  }

  /** The reduced and masked results of a layer are the serial result. */
  lemma LayerIsSerial(job: Job, n: nat, c: nat, overlaps: seq<seq<Mat>>, results: seq<Mat>, row: nat, grow: nat,
      r: nat)
    requires job.Valid() && n < |job.g.dims| && c < job.g.procs[n] && grow == LayerStart(job.g, n, c) + row
    requires LayerDone(job, n, job.g.SubComm(n, c), overlaps, results)
    requires IsOverlap(results, |results|, LayerRows(job.g, n, c), job.nc)
    requires IsOverlap(Masked(results, LayerNeeded(job, n, c), job.nc), |results|, LayerRows(job.g, n, c), job.nc)
    requires row < LayerRows(job.g, n, c) && r < job.nc
    ensures RowSum(Masked(results, LayerNeeded(job, n, c), job.nc), LayerRows(job.g, n, c), job.nc, row, |results|)[r]
         == MttkrpAt(job.x, job.u, job.w, n, grow, r)
  {
    hide MttkrpAt, Filter, RowSum, Masked, Total;
    var rows := LayerRows(job.g, n, c);
    var masked := Masked(results, LayerNeeded(job, n, c), job.nc);
    var vals := Filter(Shares(job, n, grow, r), job.g.ModeTags(n), c);
    FilterByPositions(Shares(job, n, grow, r), job.g.ModeTags(n), c);
    forall p | 0 <= p < |results| ensures masked[p][row][r] == vals[p] {
      MaskedShare(job, n, c, overlaps, results, rows, p, row, r);
      ShareOf(job, n, c, grow, r, p);
    }
    RowSumComponent(masked, rows, job.nc, row, r, vals, |results|);
    assert vals[..|results|] == vals;
    LayerMakesUpTheRow(job, n, c, grow, r);
  }

  lemma ExportedCell(owned: Mat, uo: Pieces, needed: seq<set<nat>>, rows: nat, nc: nat, start: nat, size: nat,
      k: nat, r: nat)
    requires ExportedRows(owned, uo, needed, rows, nc, start, size) && k < size && r < nc
    ensures IsOverlap(Masked(uo, needed, nc), |uo|, rows, nc) && start + k < rows
    ensures At(owned, k, r) == RowSum(Masked(uo, needed, nc), rows, nc, start + k, |uo|)[r]
  {
  }

  /** After import, local multiplication and export, every owner holds exactly its rows of the serial
      product: for every mode, whatever the untouched rows of the local results contain. */
  lemma DistributedIsSerial(job: Job, n: nat, rank: nat, overlaps: seq<seq<Mat>>, results: seq<Mat>, owned: Mat,
      c: nat, start: nat, k: nat, r: nat)
    requires job.Valid() && n < |job.g.dims| && rank < job.g.Size() && c == LayerOf(job.g, n, rank)
    requires LayerDone(job, n, job.g.SubComm(n, c), overlaps, results)
    requires IsOverlap(results, |results|, LayerRows(job.g, n, c), job.nc)
    requires ExportedRows(owned, results, LayerNeeded(job, n, c), LayerRows(job.g, n, c), job.nc,
                          start, RowCount(job.g, n, rank))
    requires LayerStart(job.g, n, c) + start == RowOffset(job.g, n, rank)
    requires k < RowCount(job.g, n, rank) && r < job.nc
    ensures At(owned, k, r) == MttkrpAt(job.x, job.u, job.w, n, RowOffset(job.g, n, rank) + k, r)
  {
    hide MttkrpAt, RowSum, Masked, RowOffset, RowCount, LayerNeeded, LayerDone, IsOverlap, ExportedRows, At;
    var rows := LayerRows(job.g, n, c);
    var needed := LayerNeeded(job, n, c);
    ExportedCell(owned, results, needed, rows, job.nc, start, RowCount(job.g, n, rank), k, r);
    assert LayerStart(job.g, n, c) + (start + k) == RowOffset(job.g, n, rank) + k;
    LayerIsSerial(job, n, c, overlaps, results, start + k, RowOffset(job.g, n, rank) + k, r);
  }
}
