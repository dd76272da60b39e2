/** One distributed MTTKRP from end to end: rank 0's tensor and factors are spread over the grid,
    needed rows are imported, every rank multiplies its own nonzeros, and contributions are exported. */
module DistributedRun {
  import opened Sequences
  import opened Vectors
  import opened UniformBlocking
  import opened Layout
  import opened ProcessGrid
  import opened Mttkrp
  import opened Records
  import opened Redistribution
  import opened SparseDistribution
  import opened RowOwnership
  import opened KtensorUpdate
  import opened RowLists
  import opened TwoSidedUpdate
  import opened DistributedMttkrp

  lemma {:induction false} SizePositive(procs: Coord)
    requires forall m :: 0 <= m < |procs| ==> procs[m] > 0
    ensures Numel(procs) > 0
  {
    if |procs| > 0 {
      SizePositive(procs[1..]);
    }
  }

  // ----- nonzeros

  method LocaliseOne(job: Job, t: nat, owned: seq<Record>) returns (local: seq<Entry>)
    requires job.Valid() && t < job.g.Size() && UnpackedAll(owned, |job.g.dims|) == job.Owned(t)
    ensures local == job.Local(t) && CoordsFit(local, LocalDims(job.g.BlockOf(t)))
  {
    hide Job.Owned;
    job.InBlock(t);
    local := LocalTensor(owned, job.g.BlockOf(t));
    assert local == job.Local(t);
  }

  /** Every rank has the nonzeros of its block, in the block's coordinates. */
  ghost predicate NonzerosSpread(job: Job, locals: seq<seq<Entry>>)
    requires job.Valid()
  {
    && |locals| == job.g.Size()
    && forall t: nat :: t < |locals| ==>
         locals[t] == job.Local(t) && CoordsFit(locals[t], LocalDims(job.g.BlockOf(t)))
  }

  /** Distribute the nonzeros and shift every rank's to its block. */
  method SplitNonzeros(job: Job, garbage: Record) returns (r: Outcome<seq<seq<Entry>>>)
    requires job.Valid()
    ensures r.Done? <==> Distributable(job.x, job.g.dims)
    ensures r.Undefined? <==> ROOM < |job.g.dims| <= MAX_MODES && |job.x| > 0
    ensures r.Done? ==> NonzerosSpread(job, r.value)
  {
    SizePositive(job.g.procs);
    var distributed := DistributeSparse(job.x, job.g, garbage);
    if distributed.Failed? {
      return Failed;
    } else if distributed.Undefined? {
      return Undefined;
    }
    var owned := distributed.value;
    forall t: nat | t < |owned| ensures UnpackedAll(owned[t], |job.g.dims|) == job.Owned(t) {
      assert UnpackedEach(owned, |job.g.dims|)[t] == OwnedEntries(job.x, job.g)[t];
    }
    hide Job.Local, Job.Owned, OwnedEntries;
    var locals: seq<seq<Entry>> := [];
    while |locals| < job.g.Size()
      invariant |locals| <= job.g.Size()
      invariant forall t: nat :: t < |locals| ==>
                  locals[t] == job.Local(t) && CoordsFit(locals[t], LocalDims(job.g.BlockOf(t)))
    {
      var local := LocaliseOne(job, |locals|, owned[|locals|]);
      locals := locals + [local];
    }
    r := Done(locals);
  }

  // ----- factor rows of one layer

  /** Row offsets of the ranks of a layer. */
  function LayerOffsets(rows: nat, np: nat): (r: seq<nat>)
    ensures |r| == np && forall p :: 0 <= p < np ==> r[p] == Start(rows, np, p)
  {
    seq(np, p requires 0 <= p < np => Start(rows, np, p))
  }

  lemma OffsetsAreCuts(rows: nat, np: nat)
    requires np > 0
    ensures IsCuts(LayerOffsets(rows, np) + [rows], np, rows)
  {
    StartBounds(rows, np);
    var cuts := LayerOffsets(rows, np) + [rows];
    forall p | 0 <= p <= np ensures cuts[p] == Start(rows, np, p) {
    }
    forall p, q | 0 <= p <= q <= np ensures cuts[p] <= cuts[q] {
      StartMonotone(rows, np, p, q);
    }
  }

  /** The rows that each rank of a layer owns. */
  ghost function LayerPieces(job: Job, m: nat, c: nat): (r: Pieces)
    requires job.Valid() && m < |job.g.dims| && c < job.g.procs[m]
    ensures |r| == |job.g.SubComm(m, c)|
    ensures forall p :: 0 <= p < |r| ==>
              job.g.SubComm(m, c)[p] < job.g.Size()
              && r[p] == OwnedRows(job.g, m, job.u[m], job.g.SubComm(m, c)[p])
  {
    SubRanksBelow(job.g, m, c);
    seq(|job.g.SubComm(m, c)|, p requires 0 <= p < |job.g.SubComm(m, c)| =>
      OwnedRows(job.g, m, job.u[m], job.g.SubComm(m, c)[p]))
  }

  /** The p-th rank of a layer owns the p-th part of the layer's rows. */
  lemma PieceIsPart(job: Job, m: nat, c: nat, p: nat)
    requires job.Valid() && m < |job.g.dims| && c < job.g.procs[m] && p < |job.g.SubComm(m, c)|
    ensures var t := job.g.SubComm(m, c)[p];
            && t < job.g.Size() && LayerOf(job.g, m, t) == c && SubRank(job.g, m, t) == p
            && SubCommOf(job.g, m, t) == job.g.SubComm(m, c)
  {
    SubRanksBelow(job.g, m, c);
    job.g.SubCommSpec(m, c);
    IndexOfAt(job.g.SubComm(m, c), p);
  }

  /** Consecutive uniform slices. */
  ghost predicate AreSlices<T>(pieces: seq<seq<T>>, all: seq<T>, np: nat)
    requires np > 0
  {
    |pieces| == np && forall p: nat :: p < np ==> IsSlice(pieces[p], all, np, p)
  }

  ghost predicate IsSlice<T>(piece: seq<T>, all: seq<T>, np: nat, p: nat)
    requires np > 0
  {
    var lo, hi := Start(|all|, np, p), Start(|all|, np, p + 1);
    lo <= hi <= |all| && piece == all[lo..hi]
  }

  lemma {:induction false} SlicesUpTo<T>(pieces: seq<seq<T>>, all: seq<T>, np: nat, k: nat)
    requires np > 0 && AreSlices(pieces, all, np) && k <= np
    ensures SlicesOf(pieces[..k], all, np)
  {
    if k == 0 {
      assert pieces[..0] == [] && all[..0] == [];
    } else {
      SlicesUpTo(pieces, all, np, k - 1);
      assert IsSlice(pieces[k - 1], all, np, k - 1);
      SlicesPush(pieces[..k - 1], all, np, Start(|all|, np, k - 1), Start(|all|, np, k));
      PrefixStep(pieces, k);
    }
  }

  lemma PieceIsSlice(job: Job, m: nat, c: nat, p: nat, t: nat)
    requires job.Valid() && m < |job.g.dims| && c < job.g.procs[m] && p < |job.g.SubComm(m, c)|
    requires t == job.g.SubComm(m, c)[p]
    ensures t < job.g.Size()
    ensures IsSlice(OwnedRows(job.g, m, job.u[m], t), job.LayerMat(m, c), |job.g.SubComm(m, c)|, p)
  {
    PieceIsPart(job, m, c, p);
    var rows, np := LayerRows(job.g, m, c), |job.g.SubComm(m, c)|;
    StartMonotone(rows, np, p + 1, np);
    StartBounds(rows, np);
    var lo, first, last := LayerStart(job.g, m, c), Start(rows, np, p), Start(rows, np, p + 1);
    assert RowOffset(job.g, m, t) == lo + first && RowOffset(job.g, m, t) + RowCount(job.g, m, t) == lo + last;
    SliceOfSlice(job.u[m], lo, lo + rows, first, last);
  }

  lemma SliceOfSlice<T>(s: seq<T>, lo: nat, hi: nat, first: nat, last: nat)
    requires lo <= hi <= |s| && first <= last <= hi - lo
    ensures s[lo..hi][first..last] == s[lo + first..lo + last]
  {
    var a, b := s[lo..hi][first..last], s[lo + first..lo + last];
    forall i | 0 <= i < last - first ensures a[i] == b[i] {
      assert a[i] == s[lo..hi][first + i] == s[lo + (first + i)];
    }
  }

  lemma PrefixStep<T>(s: seq<T>, k: nat)
    requires 0 < k <= |s|
    ensures s[..k] == s[..k - 1] + [s[k - 1]]
  {
  }

  /** Together the ranks of a layer hold the layer's rows, at the offsets of the tables. */
  lemma LayerIsCut(job: Job, m: nat, c: nat)
    requires job.Valid() && m < |job.g.dims| && c < job.g.procs[m] && |job.g.SubComm(m, c)| > 0
    ensures var np := |job.g.SubComm(m, c)|;
            && Flatten(LayerPieces(job, m, c)) == job.LayerMat(m, c)
            && HasOffsets(LayerPieces(job, m, c), LayerOffsets(LayerRows(job.g, m, c), np), LayerRows(job.g, m, c))
  {
    var np, all, pieces := |job.g.SubComm(m, c)|, job.LayerMat(m, c), LayerPieces(job, m, c);
    forall p: nat | p < np ensures IsSlice(pieces[p], all, np, p) {
      PieceIsSlice(job, m, c, p, job.g.SubComm(m, c)[p]);
    }
    SlicesUpTo(pieces, all, np, np);
    assert pieces[..np] == pieces;
    StartBounds(|all|, np);
    assert all[..|all|] == all;
    forall p: nat | p < np ensures LayerOffsets(LayerRows(job.g, m, c), np)[p] == StartOf(pieces, p) {
      SlicesStart(pieces, all, np, p);
    }
  }

  // ----- the update object of one layer

  /** The maps of one layer, built from the subscripts of its ranks. */
  method LayerUpdate(job: Job, m: nat, c: nat, locals: seq<seq<Entry>>, path: MapPath)
    returns (upd: KtensorTwoSidedUpdate)
    requires job.Valid() && m < |job.g.dims| && c < job.g.procs[m]
    requires |locals| == job.g.Size() && forall t: nat :: t < |locals| ==> locals[t] == job.Local(t)
    ensures fresh(upd) && upd.Valid() && upd.np == |job.g.SubComm(m, c)| > 0 && upd.rows == LayerRows(job.g, m, c)
    ensures upd.offsets == LayerOffsets(upd.rows, upd.np) && upd.needed == LayerNeeded(job, m, c)
  {
    job.g.LayerNotEmpty(m, c);
    SubRanksBelow(job.g, m, c);
    var sub := job.g.SubComm(m, c);
    var rows := LayerRows(job.g, m, c);
    OffsetsAreCuts(rows, |sub|);
    upd := new KtensorTwoSidedUpdate(|sub|, rows, LayerOffsets(rows, |sub|));
    var subs := seq(|sub|, p requires 0 <= p < |sub| => Subs(locals[sub[p]], m));
    SubscriptsBelow(job, m, c, subs);
    upd.UpdateTensor(subs, path);
    assert NeededRows(subs) == LayerNeeded(job, m, c);
  }

  lemma SubscriptsBelow(job: Job, m: nat, c: nat, subs: seq<seq<nat>>)
    requires job.Valid() && m < |job.g.dims| && c < job.g.procs[m] && |subs| == |job.g.SubComm(m, c)|
    requires forall p :: 0 <= p < |subs| ==>
               job.g.SubComm(m, c)[p] < job.g.Size() && subs[p] == Subs(job.Local(job.g.SubComm(m, c)[p]), m)
    ensures SubsBelow(subs, LayerRows(job.g, m, c))
  {
    forall p, i | 0 <= p < |subs| && 0 <= i < |subs[p]| ensures subs[p][i] < LayerRows(job.g, m, c) {
      PieceIsPart(job, m, c, p);
      LocalSubscript(job, m, c, job.g.SubComm(m, c)[p], i);
    }
  }

  lemma LocalSubscript(job: Job, m: nat, c: nat, t: nat, i: nat)
    requires job.Valid() && m < |job.g.dims| && t < job.g.Size() && c == LayerOf(job.g, m, t) && i < |job.Local(t)|
    ensures Subs(job.Local(t), m)[i] < LayerRows(job.g, m, c)
  {
    LocalCoordinate(job, t, m, i);
    job.InBlock(t);
    assert InBox(job.Owned(t)[i].coo, job.g.BlockOf(t));
  }

  // ----- import

  /** A rank's overlap of mode m has its layer's shape and the needed rows of the global factor. */
  ghost predicate OverlapReady(job: Job, m: nat, t: nat, overlap: Mat)
    requires job.Valid() && m < |job.g.dims| && t < job.g.Size()
  {
    var c := LayerOf(job.g, m, t);
    && IsMat(overlap, LayerRows(job.g, m, c), job.nc)
    && exists before: Mat :: ImportedRows(overlap, before, job.LayerMat(m, c), job.Needed(t, m))
  }

  /** The overlaps of all ranks in the first layers of mode m are ready. */
  ghost predicate LayersReady(job: Job, m: nat, overlaps: seq<Mat>, k: nat)
    requires job.Valid() && m < |job.g.dims|
  {
    && |overlaps| == job.g.Size()
    && forall t: nat :: t < |overlaps| && LayerOf(job.g, m, t) < k ==> OverlapReady(job, m, t, overlaps[t])
  }

  /** Values for the ranks of one layer, written at their place among all ranks. */
  method Scatter(overlaps: seq<Mat>, sub: seq<nat>, values: seq<Mat>) returns (after: seq<Mat>)
    requires |values| == |sub| && Increasing(sub) && forall p :: 0 <= p < |sub| ==> sub[p] < |overlaps|
    ensures |after| == |overlaps|
    ensures forall p :: 0 <= p < |sub| ==> after[sub[p]] == values[p]
    ensures forall t :: 0 <= t < |after| && t !in sub ==> after[t] == overlaps[t]
  {
    after := overlaps;
    var p := 0;
    while p < |sub|
      invariant 0 <= p <= |sub| && |after| == |overlaps|
      invariant forall q :: 0 <= q < p ==> after[sub[q]] == values[q]
      invariant forall t :: 0 <= t < |after| && t !in sub[..p] ==> after[t] == overlaps[t]
    {
      after := after[sub[p] := values[p]];
      p := p + 1;
    }
  }

  /** The pieces that the ranks of a layer hold. */
  method TakePieces(job: Job, m: nat, c: nat, owned: seq<Mat>) returns (pieces: Pieces)
    requires job.Valid() && m < |job.g.dims| && c < job.g.procs[m]
    requires |owned| == job.g.Size() && forall t: nat :: t < |owned| ==> owned[t] == OwnedRows(job.g, m, job.u[m], t)
    ensures pieces == LayerPieces(job, m, c)
  {
    hide OwnedRows;
    SubRanksBelow(job.g, m, c);
    var sub := job.g.SubComm(m, c);
    pieces := seq(|sub|, p requires 0 <= p < |sub| => owned[sub[p]]);
    assert pieces == LayerPieces(job, m, c);
  }

  function ZeroOverlaps(np: nat, rows: nat, nc: nat): (r: Pieces)
    ensures IsOverlap(r, np, rows, nc)
  {
    seq(np, _ => seq(rows, _ => Zeros(nc)))
  }

  /** The overlaps of the ranks of one layer. */
  method ImportPieces(job: Job, m: nat, c: nat, owned: seq<Mat>, locals: seq<seq<Entry>>, path: MapPath)
    returns (imported: Pieces)
    requires job.Valid() && m < |job.g.dims| && c < job.g.procs[m]
    requires |locals| == job.g.Size() && forall t: nat :: t < |locals| ==> locals[t] == job.Local(t)
    requires |owned| == job.g.Size() && forall t: nat :: t < |owned| ==> owned[t] == OwnedRows(job.g, m, job.u[m], t)
    ensures |imported| == |job.g.SubComm(m, c)|
    ensures forall p :: 0 <= p < |imported| ==> job.g.SubComm(m, c)[p] < job.g.Size()
                                                && OverlapReady(job, m, job.g.SubComm(m, c)[p], imported[p])
  {
    var upd := LayerUpdate(job, m, c, locals, path);
    LayerIsCut(job, m, c);
    var rows := LayerRows(job.g, m, c);
    var start := ZeroOverlaps(|job.g.SubComm(m, c)|, rows, job.nc);
    assert forall p :: 0 <= p < |start| ==> |start[p]| == rows;
    hide Grid.SubComm, KtensorTwoSidedUpdate.Valid, ZeroOverlaps, LayerPieces, LayerNeeded, HasOffsets;
    hide Job.LayerMat, OwnedRows, Job.Needed, OverlapReady, ImportedRows, IsOverlap, Flatten, LayerOffsets;
    var pieces := TakePieces(job, m, c, owned);
    imported := upd.DoImportSparse(start, pieces);
    LayerImported(job, m, c, start, imported);
  }

  /** Import one layer of one mode. */
  method ImportLayer(job: Job, m: nat, c: nat, owned: seq<Mat>, locals: seq<seq<Entry>>, path: MapPath,
      overlaps: seq<Mat>)
    returns (after: seq<Mat>)
    requires job.Valid() && m < |job.g.dims| && c < job.g.procs[m]
    requires |locals| == job.g.Size() && forall t: nat :: t < |locals| ==> locals[t] == job.Local(t)
    requires |owned| == job.g.Size() && forall t: nat :: t < |owned| ==> owned[t] == OwnedRows(job.g, m, job.u[m], t)
    requires LayersReady(job, m, overlaps, c)
    ensures LayersReady(job, m, after, c + 1)
  {
    hide OverlapReady, OwnedRows, Job.Local;
    var imported := ImportPieces(job, m, c, owned, locals, path);
    job.g.SubCommSpec(m, c);
    after := Scatter(overlaps, job.g.SubComm(m, c), imported);
    OneMoreLayer(job, m, c, overlaps, imported, after);
  }

  lemma LayerImported(job: Job, m: nat, c: nat, start: Pieces, imported: Pieces)
    requires job.Valid() && m < |job.g.dims| && c < job.g.procs[m]
    requires |start| == |imported| == |job.g.SubComm(m, c)|
    requires IsOverlap(start, |start|, LayerRows(job.g, m, c), job.nc)
    requires forall p :: 0 <= p < |imported| ==>
               ImportedRows(imported[p], start[p], job.LayerMat(m, c), LayerNeeded(job, m, c)[p])
    ensures forall p :: 0 <= p < |imported| ==> job.g.SubComm(m, c)[p] < job.g.Size()
                                                && OverlapReady(job, m, job.g.SubComm(m, c)[p], imported[p])
  {
    hide Job.LayerMat, Job.Needed, ImportedRows, OverlapReady;
    forall p | 0 <= p < |imported|
      ensures job.g.SubComm(m, c)[p] < job.g.Size() && OverlapReady(job, m, job.g.SubComm(m, c)[p], imported[p])
    {
      PieceIsPart(job, m, c, p);
      ImportedIsReady(job, m, job.g.SubComm(m, c)[p], imported[p], start[p]);
    }
  }

  lemma OneMoreLayer(job: Job, m: nat, c: nat, before: seq<Mat>, imported: seq<Mat>, after: seq<Mat>)
    requires job.Valid() && m < |job.g.dims| && c < job.g.procs[m] && LayersReady(job, m, before, c)
    requires |imported| == |job.g.SubComm(m, c)| && |after| == |before|
    requires forall p :: 0 <= p < |imported| ==> job.g.SubComm(m, c)[p] < |after|
                                                 && OverlapReady(job, m, job.g.SubComm(m, c)[p], imported[p])
                                                 && after[job.g.SubComm(m, c)[p]] == imported[p]
    requires forall t :: 0 <= t < |after| && t !in job.g.SubComm(m, c) ==> after[t] == before[t]
    ensures LayersReady(job, m, after, c + 1)
  {
    hide OverlapReady;
    var sub := job.g.SubComm(m, c);
    job.g.SubCommSpec(m, c);
    forall t: nat | t < |after| && LayerOf(job.g, m, t) < c + 1 ensures OverlapReady(job, m, t, after[t]) {
      if LayerOf(job.g, m, t) == c {
        assert t in sub;
        var p :| 0 <= p < |sub| && sub[p] == t;
      } else {
        assert OverlapReady(job, m, t, before[t]);
      }
    }
  }

  lemma ImportedIsReady(job: Job, m: nat, t: nat, overlap: Mat, before: Mat)
    requires job.Valid() && m < |job.g.dims| && t < job.g.Size()
    requires IsMat(before, LayerRows(job.g, m, LayerOf(job.g, m, t)), job.nc)
    requires ImportedRows(overlap, before, job.LayerMat(m, LayerOf(job.g, m, t)), job.Needed(t, m))
    ensures OverlapReady(job, m, t, overlap)
  {
    hide Job.Needed;
    var all := job.LayerMat(m, LayerOf(job.g, m, t));
    forall row: nat | row < |overlap| ensures |overlap[row]| == job.nc {
      assert |all[row]| == job.nc;
    }
  }

  /** Import all layers of one mode. */
  method ImportMode(job: Job, m: nat, owned: seq<Mat>, locals: seq<seq<Entry>>, path: MapPath)
    returns (overlaps: seq<Mat>)
    requires job.Valid() && m < |job.g.dims|
    requires |locals| == job.g.Size() && forall t: nat :: t < |locals| ==> locals[t] == job.Local(t)
    requires |owned| == job.g.Size() && forall t: nat :: t < |owned| ==> owned[t] == OwnedRows(job.g, m, job.u[m], t)
    ensures |overlaps| == job.g.Size()
    ensures forall t: nat :: t < |overlaps| ==> OverlapReady(job, m, t, overlaps[t])
  {
    overlaps := seq(job.g.Size(), _ => []);
    var c := 0;
    while c < job.g.procs[m]
      invariant 0 <= c <= job.g.procs[m] && LayersReady(job, m, overlaps, c)
    {
      overlaps := ImportLayer(job, m, c, owned, locals, path, overlaps);
      c := c + 1;
    }
  }

  // ----- local multiplication

  /** Overlaps of every mode for one rank. */
  ghost predicate RankReady(job: Job, t: nat, overlap: seq<Mat>)
    requires job.Valid() && t < job.g.Size()
  {
    |overlap| == |job.g.dims| && forall m: nat :: m < |overlap| ==> OverlapReady(job, m, t, overlap[m])
  }

  lemma ReadyFits(job: Job, t: nat, overlap: seq<Mat>)
    requires job.Valid() && t < job.g.Size() && RankReady(job, t, overlap)
    ensures FactorsFit(overlap, LocalDims(job.g.BlockOf(t)), job.nc)
    ensures forall m :: 0 <= m < |overlap| ==> Imported(job, t, overlap, m)
  {
    forall m: nat | m < |overlap|
      ensures Imported(job, t, overlap, m) && IsMat(overlap[m], LocalDims(job.g.BlockOf(t))[m], job.nc)
    {
      assert OverlapReady(job, m, t, overlap[m]);
    }
  }

  /** One rank multiplies its nonzeros with its overlaps. */
  method MultiplyLocal(job: Job, t: nat, local: seq<Entry>, overlap: seq<Mat>, n: nat) returns (result: Mat)
    requires job.Valid() && t < job.g.Size() && n < |job.g.dims| && RankReady(job, t, overlap)
    requires local == job.Local(t) && CoordsFit(local, LocalDims(job.g.BlockOf(t)))
    ensures IsMat(result, LayerRows(job.g, n, LayerOf(job.g, n, t)), job.nc)
    ensures RankDone(job, n, t, overlap, result)
  {
    ReadyFits(job, t, overlap);
    var dims := LocalDims(job.g.BlockOf(t));
    forall i | 0 <= i < |local| ensures InBounds(local[i].coo, dims) {
    }
    var ans := MttkrpReference(local, overlap, job.w, dims, job.nc);
    result := ans[n];
    assert dims[n] == LayerRows(job.g, n, LayerOf(job.g, n, t));
    forall row: nat, r: nat | row in job.Needed(t, n) && r < job.nc
      ensures At(result, row, r) == MttkrpAt(job.Local(t), overlap, job.w, n, row, r)
    {
      var i :| 0 <= i < |Subs(local, n)| && Subs(local, n)[i] == row;
      LocalSubscript(job, n, LayerOf(job.g, n, t), t, i);
    }
  }

  // ----- export

  /** Every rank of the layer has multiplied; overlaps[t] and results[t] belong to rank t. */
  ghost predicate AllMultiplied(job: Job, n: nat, overlaps: seq<seq<Mat>>, results: seq<Mat>)
    requires job.Valid() && n < |job.g.dims|
  {
    && |overlaps| == |results| == job.g.Size()
    && forall t: nat :: t < |results| ==>
         RankDone(job, n, t, overlaps[t], results[t])
         && IsMat(results[t], LayerRows(job.g, n, LayerOf(job.g, n, t)), job.nc)
  }

  /** A rank holds its rows of the mode-n MTTKRP of the whole tensor. */
  ghost predicate HoldsItsRows(job: Job, n: nat, t: nat, mat: Mat)
    requires job.Valid() && n < |job.g.dims| && t < job.g.Size()
  {
    && IsMat(mat, RowCount(job.g, n, t), job.nc)
    && forall k: nat, r: nat :: k < |mat| && r < job.nc ==>
         At(mat, k, r) == MttkrpAt(job.x, job.u, job.w, n, RowOffset(job.g, n, t) + k, r)
  }

  lemma HeldShape(job: Job, n: nat, t: nat, mat: Mat)
    requires job.Valid() && n < |job.g.dims| && t < job.g.Size() && HoldsItsRows(job, n, t, mat)
    ensures |mat| == RowCount(job.g, n, t) && forall k :: 0 <= k < |mat| ==> |mat[k]| == job.nc
  {
  }

  /** Written out: entry (k, q) of what rank t holds. */
  lemma HeldEntry(job: Job, n: nat, t: nat, mat: Mat, k: nat, q: nat)
    requires job.Valid() && n < |job.g.dims| && t < job.g.Size() && HoldsItsRows(job, n, t, mat)
    requires k < |mat| && q < |mat[k]|
    ensures mat[k][q] == MttkrpAt(job.x, job.u, job.w, n, RowOffset(job.g, n, t) + k, q)
  {
    hide RowOffset, RowCount, MttkrpAt;
    AtIsEntry(mat, k, q);
  }

  ghost function Selected<T>(all: seq<T>, sub: seq<nat>): (r: seq<T>)
    requires forall p :: 0 <= p < |sub| ==> sub[p] < |all|
    ensures |r| == |sub| && forall p :: 0 <= p < |r| ==> r[p] == all[sub[p]]
  {
    seq(|sub|, p requires 0 <= p < |sub| => all[sub[p]])
  }

  lemma SelectedDone(job: Job, n: nat, c: nat, overlaps: seq<seq<Mat>>, results: seq<Mat>)
    requires job.Valid() && n < |job.g.dims| && c < job.g.procs[n] && AllMultiplied(job, n, overlaps, results)
    ensures forall p :: 0 <= p < |job.g.SubComm(n, c)| ==> job.g.SubComm(n, c)[p] < job.g.Size()
    ensures LayerDone(job, n, job.g.SubComm(n, c),
                      Selected(overlaps, job.g.SubComm(n, c)), Selected(results, job.g.SubComm(n, c)))
    ensures IsOverlap(Selected(results, job.g.SubComm(n, c)), |job.g.SubComm(n, c)|, LayerRows(job.g, n, c), job.nc)
  {
    hide RankDone;
    SubRanksBelow(job.g, n, c);
    forall p | 0 <= p < |job.g.SubComm(n, c)|
      ensures IsMat(Selected(results, job.g.SubComm(n, c))[p], LayerRows(job.g, n, c), job.nc)
    {
      PieceIsPart(job, n, c, p);
    }
  }

  lemma ExportedShape(owned: Mat, uo: Pieces, needed: seq<set<nat>>, rows: nat, nc: nat, start: nat, size: nat)
    requires ExportedRows(owned, uo, needed, rows, nc, start, size)
    ensures IsMat(owned, size, nc)
  {
  }

  lemma ExportedEntries(job: Job, n: nat, t: nat, c: nat, start: nat, overlaps: seq<seq<Mat>>, results: seq<Mat>,
      mine: Mat)
    requires job.Valid() && n < |job.g.dims| && t < job.g.Size() && c == LayerOf(job.g, n, t)
    requires LayerDone(job, n, job.g.SubComm(n, c), overlaps, results)
    requires IsOverlap(results, |results|, LayerRows(job.g, n, c), job.nc)
    requires ExportedRows(mine, results, LayerNeeded(job, n, c), LayerRows(job.g, n, c), job.nc,
                          start, RowCount(job.g, n, t))
    requires LayerStart(job.g, n, c) + start == RowOffset(job.g, n, t) && |mine| == RowCount(job.g, n, t)
    ensures forall k: nat, r: nat :: k < |mine| && r < job.nc ==>
              At(mine, k, r) == MttkrpAt(job.x, job.u, job.w, n, RowOffset(job.g, n, t) + k, r)
  {
    hide Grid.SubComm, LayerDone, IsOverlap, MttkrpAt, ExportedRows, At, RowOffset, RowCount, LayerNeeded, LayerOf;
    forall k: nat, r: nat | k < |mine| && r < job.nc
      ensures At(mine, k, r) == MttkrpAt(job.x, job.u, job.w, n, RowOffset(job.g, n, t) + k, r)
    {
      DistributedIsSerial(job, n, t, overlaps, results, mine, c, start, k, r);
    }
  }

  lemma ExportedHolds(job: Job, n: nat, t: nat, c: nat, start: nat, overlaps: seq<seq<Mat>>, results: seq<Mat>,
      mine: Mat)
    requires job.Valid() && n < |job.g.dims| && t < job.g.Size() && c == LayerOf(job.g, n, t)
    requires LayerDone(job, n, job.g.SubComm(n, c), overlaps, results)
    requires IsOverlap(results, |results|, LayerRows(job.g, n, c), job.nc)
    requires ExportedRows(mine, results, LayerNeeded(job, n, c), LayerRows(job.g, n, c), job.nc,
                          start, RowCount(job.g, n, t))
    requires LayerStart(job.g, n, c) + start == RowOffset(job.g, n, t) && |mine| == RowCount(job.g, n, t)
    ensures HoldsItsRows(job, n, t, mine)
  {
    hide Grid.SubComm, LayerDone, IsOverlap, MttkrpAt, ExportedRows, At, RowOffset, RowCount, LayerNeeded, LayerOf;
    hide IsMat, LayerRows, LayerStart;
    ExportedShape(mine, results, LayerNeeded(job, n, c), LayerRows(job.g, n, c), job.nc, start,
                  RowCount(job.g, n, t));
    ExportedEntries(job, n, t, c, start, overlaps, results, mine);
  }

  /** What the export leaves with the p-th rank of a layer are its rows of the serial result. */
  lemma ExportedIsSerial(job: Job, n: nat, c: nat, overlaps: seq<seq<Mat>>, results: seq<Mat>, p: nat, mine: Mat)
    requires job.Valid() && n < |job.g.dims| && c < job.g.procs[n] && p < |job.g.SubComm(n, c)|
    requires LayerDone(job, n, job.g.SubComm(n, c), overlaps, results)
    requires IsOverlap(results, |results|, LayerRows(job.g, n, c), job.nc)
    requires ExportedRows(mine, results, LayerNeeded(job, n, c), LayerRows(job.g, n, c), job.nc,
                          StartOf(LayerPieces(job, n, c), p), |LayerPieces(job, n, c)[p]|)
    ensures job.g.SubComm(n, c)[p] < job.g.Size() && HoldsItsRows(job, n, job.g.SubComm(n, c)[p], mine)
  {
    assert |mine| == |LayerPieces(job, n, c)[p]|;
    hide Grid.SubComm, LayerDone, IsOverlap, ExportedRows, RowOffset, StartOf, LayerNeeded, RowCount, HoldsItsRows;
    var t := job.g.SubComm(n, c)[p];
    PieceIsPart(job, n, c, p);
    PieceStart(job, n, c, p, t);
    ExportedHolds(job, n, t, c, StartOf(LayerPieces(job, n, c), p), overlaps, results, mine);
  }

  lemma PieceStart(job: Job, n: nat, c: nat, p: nat, t: nat)
    requires job.Valid() && n < |job.g.dims| && c < job.g.procs[n] && p < |job.g.SubComm(n, c)|
    requires t == job.g.SubComm(n, c)[p] < job.g.Size()
    ensures LayerStart(job.g, n, c) + StartOf(LayerPieces(job, n, c), p) == RowOffset(job.g, n, t)
    ensures |LayerPieces(job, n, c)[p]| == RowCount(job.g, n, t)
  {
    PieceIsPart(job, n, c, p);
    LayerIsCut(job, n, c);
    assert LayerOffsets(LayerRows(job.g, n, c), |job.g.SubComm(n, c)|)[p] == StartOf(LayerPieces(job, n, c), p);
  }

  /** The results of the ranks of one layer. */
  method ChooseResults(job: Job, n: nat, c: nat, results: seq<Mat>, ghost overlaps: seq<seq<Mat>>)
    returns (chosen: seq<Mat>, ghost done: seq<seq<Mat>>)
    requires job.Valid() && n < |job.g.dims| && c < job.g.procs[n] && AllMultiplied(job, n, overlaps, results)
    ensures LayerDone(job, n, job.g.SubComm(n, c), done, chosen)
    ensures |chosen| == |job.g.SubComm(n, c)| && IsOverlap(chosen, |chosen|, LayerRows(job.g, n, c), job.nc)
  {
    SelectedDone(job, n, c, overlaps, results);
    hide LayerDone, IsOverlap, AllMultiplied;
    var sub := job.g.SubComm(n, c);
    chosen := seq(|sub|, p requires 0 <= p < |sub| => results[sub[p]]);
    assert chosen == Selected(results, sub);
    done := Selected(overlaps, sub);
  }

  /** Export one layer: the ranks' rows of the result. */
  method ExportPieces(job: Job, n: nat, c: nat, results: seq<Mat>, locals: seq<seq<Entry>>, path: MapPath,
      ghost overlaps: seq<seq<Mat>>) returns (mine: seq<Mat>)
    requires job.Valid() && n < |job.g.dims| && c < job.g.procs[n] && AllMultiplied(job, n, overlaps, results)
    requires |locals| == job.g.Size() && forall t: nat :: t < |locals| ==> locals[t] == job.Local(t)
    ensures |mine| == |job.g.SubComm(n, c)|
    ensures forall p :: 0 <= p < |mine| ==> job.g.SubComm(n, c)[p] < job.g.Size()
                                            && HoldsItsRows(job, n, job.g.SubComm(n, c)[p], mine[p])
  {
    var upd := LayerUpdate(job, n, c, locals, path);
    LayerIsCut(job, n, c);
    hide Grid.SubComm, KtensorTwoSidedUpdate.Valid, Job.Needed, Selected, LayerPieces, LayerNeeded, HasOffsets;
    hide Job.LayerMat, Flatten, LayerDone, IsOverlap, LayerOffsets, HoldsItsRows, ExportedRows, AllMultiplied;
    hide StartOf;
    ghost var done: seq<seq<Mat>>;
    var chosen: seq<Mat>;
    chosen, done := ChooseResults(job, n, c, results, overlaps);
    mine := upd.DoExportSparse(chosen, job.nc, LayerPieces(job, n, c));
    LayerExported(job, n, c, done, chosen, mine);
  }

  lemma LayerExported(job: Job, n: nat, c: nat, overlaps: seq<seq<Mat>>, results: seq<Mat>, mine: seq<Mat>)
    requires job.Valid() && n < |job.g.dims| && c < job.g.procs[n] && |mine| == |job.g.SubComm(n, c)|
    requires LayerDone(job, n, job.g.SubComm(n, c), overlaps, results)
    requires IsOverlap(results, |results|, LayerRows(job.g, n, c), job.nc)
    requires forall p :: 0 <= p < |mine| ==>
               ExportedRows(mine[p], results, LayerNeeded(job, n, c), LayerRows(job.g, n, c), job.nc,
                            StartOf(LayerPieces(job, n, c), p), |LayerPieces(job, n, c)[p]|)
    ensures forall p :: 0 <= p < |mine| ==> job.g.SubComm(n, c)[p] < job.g.Size()
                                            && HoldsItsRows(job, n, job.g.SubComm(n, c)[p], mine[p])
  {
    hide Grid.SubComm, LayerDone, IsOverlap, ExportedRows, StartOf, LayerNeeded, HoldsItsRows;
    forall p | 0 <= p < |mine|
      ensures job.g.SubComm(n, c)[p] < job.g.Size() && HoldsItsRows(job, n, job.g.SubComm(n, c)[p], mine[p])
    {
      ExportedIsSerial(job, n, c, overlaps, results, p, mine[p]);
    }
  }

  /** The ranks of the first k layers hold their rows. */
  ghost predicate LayersExported(job: Job, n: nat, owned: seq<Mat>, k: nat)
    requires job.Valid() && n < |job.g.dims|
  {
    && |owned| == job.g.Size()
    && forall t: nat :: t < |owned| && LayerOf(job.g, n, t) < k ==> HoldsItsRows(job, n, t, owned[t])
  }

  lemma OneMoreExported(job: Job, n: nat, c: nat, before: seq<Mat>, mine: seq<Mat>, after: seq<Mat>)
    requires job.Valid() && n < |job.g.dims| && c < job.g.procs[n] && LayersExported(job, n, before, c)
    requires |mine| == |job.g.SubComm(n, c)| && |after| == |before|
    requires forall p :: 0 <= p < |mine| ==> job.g.SubComm(n, c)[p] < |after|
                                             && HoldsItsRows(job, n, job.g.SubComm(n, c)[p], mine[p])
                                             && after[job.g.SubComm(n, c)[p]] == mine[p]
    requires forall t :: 0 <= t < |after| && t !in job.g.SubComm(n, c) ==> after[t] == before[t]
    ensures LayersExported(job, n, after, c + 1)
  {
    hide HoldsItsRows;
    var sub := job.g.SubComm(n, c);
    job.g.SubCommSpec(n, c);
    forall t: nat | t < |after| && LayerOf(job.g, n, t) < c + 1 ensures HoldsItsRows(job, n, t, after[t]) {
      if LayerOf(job.g, n, t) == c {
        assert t in sub;
        var p :| 0 <= p < |sub| && sub[p] == t;
      } else {
        assert HoldsItsRows(job, n, t, before[t]);
      }
    }
  }

  method ExportMode(job: Job, n: nat, results: seq<Mat>, locals: seq<seq<Entry>>, path: MapPath,
      ghost overlaps: seq<seq<Mat>>)
    returns (owned: seq<Mat>)
    requires job.Valid() && n < |job.g.dims| && AllMultiplied(job, n, overlaps, results)
    requires |locals| == job.g.Size() && forall t: nat :: t < |locals| ==> locals[t] == job.Local(t)
    ensures |owned| == job.g.Size()
    ensures forall t: nat :: t < |owned| ==> HoldsItsRows(job, n, t, owned[t])
  {
    owned := seq(job.g.Size(), _ => []);
    var c := 0;
    while c < job.g.procs[n]
      invariant 0 <= c <= job.g.procs[n] && LayersExported(job, n, owned, c)
    {
      var mine := ExportPieces(job, n, c, results, locals, path, overlaps);
      job.g.SubCommSpec(n, c);
      var next := Scatter(owned, job.g.SubComm(n, c), mine);
      OneMoreExported(job, n, c, owned, mine, next);
      owned := next;
      c := c + 1;
    }
  }

  // ----- the whole run

  /** Import every mode: overlaps by rank, then by mode. */
  method ImportAll(job: Job, factors: seq<seq<Mat>>, locals: seq<seq<Entry>>, path: MapPath)
    returns (overlaps: seq<seq<Mat>>)
    requires job.Valid() && FactorsSpread(job, factors)
    requires |locals| == job.g.Size() && forall t: nat :: t < |locals| ==> locals[t] == job.Local(t)
    ensures |overlaps| == job.g.Size() && forall t: nat :: t < |overlaps| ==> RankReady(job, t, overlaps[t])
  {
    var byMode: seq<seq<Mat>> := [];
    while |byMode| < |job.g.dims|
      invariant |byMode| <= |job.g.dims|
      invariant forall m :: 0 <= m < |byMode| ==> |byMode[m]| == job.g.Size()
      invariant forall m: nat, t: nat :: m < |byMode| && t < job.g.Size() ==> OverlapReady(job, m, t, byMode[m][t])
    {
      assert ModeSpread(job, |byMode|, factors[|byMode|]);
      var overlap := ImportMode(job, |byMode|, factors[|byMode|], locals, path);
      byMode := byMode + [overlap];
    }
    overlaps := seq(job.g.Size(), t requires 0 <= t < job.g.Size() =>
      seq(|byMode|, m requires 0 <= m < |byMode| => byMode[m][t]));
  }

  /** factors[m][t] are the rows of mode m that rank t owns. */
  ghost predicate FactorsSpread(job: Job, factors: seq<seq<Mat>>)
    requires job.Valid()
  {
    |factors| == |job.g.dims| && forall m: nat :: m < |factors| ==> ModeSpread(job, m, factors[m])
  }

  ghost predicate ModeSpread(job: Job, m: nat, parts: seq<Mat>)
    requires job.Valid() && m < |job.g.dims|
  {
    |parts| == job.g.Size() && forall t: nat :: t < |parts| ==> parts[t] == OwnedRows(job.g, m, job.u[m], t)
  }

  /** All factors are broadcast and cut down to the rows of each rank. */
  method SpreadFactors(job: Job) returns (factors: seq<seq<Mat>>)
    requires job.Valid()
    ensures FactorsSpread(job, factors)
  {
    factors := [];
    while |factors| < |job.g.dims|
      invariant |factors| <= |job.g.dims| && forall m: nat :: m < |factors| ==> ModeSpread(job, m, factors[m])
    {
      var parts := ExportFromRoot(job.g, |factors|, job.u[|factors|]);
      factors := factors + [parts];
    }
  }

  /** Import, local multiplication and export, from nonzeros and factor rows that are already spread. */
  method MttkrpOnAll(job: Job, n: nat, factors: seq<seq<Mat>>, locals: seq<seq<Entry>>, path: MapPath)
    returns (owned: seq<Mat>)
    requires job.Valid() && n < |job.g.dims| && FactorsSpread(job, factors) && NonzerosSpread(job, locals)
    ensures |owned| == job.g.Size()
    ensures forall t: nat :: t < |owned| ==> HoldsItsRows(job, n, t, owned[t])
  {
    var overlaps := ImportAll(job, factors, locals, path);
    var results: seq<Mat> := [];
    while |results| < job.g.Size()
      invariant |results| <= job.g.Size()
      invariant forall t: nat :: t < |results| ==>
                  RankDone(job, n, t, overlaps[t], results[t])
                  && IsMat(results[t], LayerRows(job.g, n, LayerOf(job.g, n, t)), job.nc)
    {
      var result := MultiplyLocal(job, |results|, locals[|results|], overlaps[|results|], n);
      results := results + [result];
    }
    owned := ExportMode(job, n, results, locals, path, overlaps);
  }

  /** For any grid, factors, weights and mode, and for every way of listing rows: after distribution,
      import, local multiplication and export, every rank holds exactly its rows of the MTTKRP of the
      whole tensor. The distribution works exactly for tensors of at most six modes, and for empty ones
      of at most twelve. */
  method DistributedMttkrpRun(job: Job, n: nat, path: MapPath, garbage: Record) returns (r: Outcome<seq<Mat>>)
    requires job.Valid() && n < |job.g.dims|
    ensures r.Done? <==> Distributable(job.x, job.g.dims)
    ensures r.Undefined? <==> ROOM < |job.g.dims| <= MAX_MODES && |job.x| > 0
    ensures r.Done? ==> |r.value| == job.g.Size()
    ensures r.Done? ==> forall t: nat :: t < |r.value| ==> HoldsItsRows(job, n, t, r.value[t])
    ensures r.Done? ==> forall t: nat :: t < |r.value| ==>
              |r.value[t]| == RowCount(job.g, n, t) && forall k: nat :: k < |r.value[t]| ==> |r.value[t][k]| == job.nc
    ensures r.Done? ==> forall t: nat, k: nat, q: nat ::
              t < |r.value| && k < |r.value[t]| && q < |r.value[t][k]| ==>
              r.value[t][k][q] == MttkrpAt(job.x, job.u, job.w, n, RowOffset(job.g, n, t) + k, q)
  {
    hide MttkrpAt, HoldsItsRows, RowOffset, RowCount;
    var locals := SplitNonzeros(job, garbage);
    if locals.Failed? {
      return Failed;
    } else if locals.Undefined? {
      return Undefined;
    }
    var factors := SpreadFactors(job);
    var owned := MttkrpOnAll(job, n, factors, locals.value, path);
    forall t: nat | t < |owned|
      ensures |owned[t]| == RowCount(job.g, n, t) && forall k: nat :: k < |owned[t]| ==> |owned[t][k]| == job.nc
    {
      HeldShape(job, n, t, owned[t]);
    }
    forall t: nat, k: nat, q: nat | t < |owned| && k < |owned[t]| && q < |owned[t][k]|
      ensures owned[t][k][q] == MttkrpAt(job.x, job.u, job.w, n, RowOffset(job.g, n, t) + k, q)
    {
      HeldEntry(job, n, t, owned[t], k, q);
    }
    r := Done(owned);
  }
}
