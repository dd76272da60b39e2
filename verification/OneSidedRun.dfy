/** The distributed MTTKRP with the one-sided update: whatever the interleaving of the window protocols
    of all layers, every rank ends with its rows of the serial result. */
module OneSidedRun {
  import opened Sequences
  import opened Vectors
  import opened ProcessGrid
  import opened RowOwnership
  import opened KtensorUpdate
  import opened RowLists
  import opened TwoSidedUpdate
  import opened OneSidedUpdate
  import opened DistributedMttkrp
  import opened DistributedRun

  /** The protocol of one layer of one mode, run up to some state, and the epoch of interest. */
  datatype Session = Session(layer: Layer, run: seq<State>, steps: seq<Step>, epoch: nat) {

    ghost predicate Valid()
    {
      layer.Valid() && IsRun(layer, run, steps) && epoch < |layer.epochs|
    }

    /** Where the layer's ranks are now. */
    ghost function Now(): State
      requires Valid()
    {
      run[|run| - 1]
    }

    ghost function Accessed(p: nat): seq<nat>
      requires Valid() && p < layer.np
    {
      layer.epochs[epoch].accessed[p]
    }
  }

  /** The session is about layer c of mode m, and its epoch accesses every needed row once. */
  ghost predicate IsSession(job: Job, m: nat, c: nat, s: Session)
    requires job.Valid() && m < |job.g.dims| && c < job.g.procs[m]
  {
    && s.Valid() && s.layer.np == |job.g.SubComm(m, c)| && s.layer.rows == LayerRows(job.g, m, c)
    && s.layer.nc == job.nc && s.layer.cuts == LayerOffsets(s.layer.rows, s.layer.np) + [s.layer.rows]
    && AccessedOnce(s.layer, s.epoch) && NeededIn(s.layer, s.epoch) == LayerNeeded(job, m, c)
  }

  /** All ranks of the layer have closed an import of the layer's rows. */
  ghost predicate ImportClosed(job: Job, m: nat, c: nat, s: Session)
    requires job.Valid() && m < |job.g.dims| && c < job.g.procs[m]
  {
    && IsSession(job, m, c, s)
    && s.layer.epochs[s.epoch].Import? && s.layer.epochs[s.epoch].u == job.LayerMat(m, c)
    && forall p :: 0 <= p < s.layer.np ==> Reached(s, p)
  }

  ghost predicate Reached(s: Session, p: nat)
    requires s.Valid()
  {
    p < s.layer.np && p < |s.Now().pc| && s.Now().pc[p].Exited(s.epoch)
  }

  /** What the p-th rank's gets have made of its overlap. */
  ghost predicate GotOverlap(s: Session, p: nat, before: Mat, after: Mat)
    requires s.Valid() && p < s.layer.np
  {
    && |before| == s.layer.rows
    && (forall k: nat :: k < |s.Accessed(p)| ==> Op(s.epoch, p, k) in s.Now().got)
    && after == Filled(s.layer, s.Now(), before, s.epoch, p, |s.Accessed(p)|)
  }

  /** After the import a rank's overlap has the needed rows of the global factor. */
  lemma ImportReady(job: Job, m: nat, c: nat, s: Session, p: nat, t: nat, before: Mat, after: Mat)
    requires job.Valid() && m < |job.g.dims| && c < job.g.procs[m] && ImportClosed(job, m, c, s)
    requires p < |job.g.SubComm(m, c)| && t == job.g.SubComm(m, c)[p]
    requires IsMat(before, LayerRows(job.g, m, c), job.nc) && GotOverlap(s, p, before, after)
    ensures t < job.g.Size() && OverlapReady(job, m, t, after)
  {
    PieceIsPart(job, m, c, p);
    EveryRunIsSafe(s.layer, s.run, s.steps);
    assert Reached(s, p);
    var rows := s.Accessed(p);
    hide Inv, Filled, ImportedRows, Job.LayerMat, Job.Needed, IsRun, OverlapReady, Grid.SubComm;
    ImportAgrees(s.layer, s.Now(), before, s.epoch, p, |rows|);
    assert rows[..|rows|] == rows;
    assert SetOf(rows) == NeededIn(s.layer, s.epoch)[p] == job.Needed(t, m);
    ImportedIsReady(job, m, t, after, before);
  }

  /** The p-th rank of the layer has copied out an export of the layer's results. */
  ghost predicate ExportCopied(job: Job, n: nat, c: nat, s: Session, results: Pieces, p: nat)
    requires job.Valid() && n < |job.g.dims| && c < job.g.procs[n]
  {
    && IsSession(job, n, c, s)
    && s.layer.epochs[s.epoch].Export? && s.layer.epochs[s.epoch].uo == results
    && p < s.layer.np && p < |s.Now().pc| && s.Now().pc[p].epoch > s.epoch
  }

  lemma CutsAreStarts(job: Job, n: nat, c: nat, l: Layer, p: nat)
    requires job.Valid() && n < |job.g.dims| && c < job.g.procs[n] && p < l.np == |job.g.SubComm(n, c)|
    requires l.Valid() && l.rows == LayerRows(job.g, n, c) && l.cuts == LayerOffsets(l.rows, l.np) + [l.rows]
    ensures StartOf(LayerPieces(job, n, c), p) == l.cuts[p] && |LayerPieces(job, n, c)[p]| == Size(l, p)
  {
    LayerIsCut(job, n, c);
    hide LayerPieces, Grid.SubComm;
    PieceSize(LayerPieces(job, n, c), LayerOffsets(l.rows, l.np), l.rows, p);
  }

  /** After the export a rank holds its rows of the serial result. */
  lemma ExportHolds(job: Job, n: nat, c: nat, s: Session, p: nat, overlaps: seq<seq<Mat>>, results: Pieces)
    requires job.Valid() && n < |job.g.dims| && c < job.g.procs[n] && ExportCopied(job, n, c, s, results, p)
    requires LayerDone(job, n, job.g.SubComm(n, c), overlaps, results)
    requires IsOverlap(results, |results|, LayerRows(job.g, n, c), job.nc)
    ensures (s.epoch, p) in s.Now().out && p < |job.g.SubComm(n, c)| && job.g.SubComm(n, c)[p] < job.g.Size()
    ensures HoldsItsRows(job, n, job.g.SubComm(n, c)[p], s.Now().out[(s.epoch, p)])
  {
    EveryRunIsSafe(s.layer, s.run, s.steps);
    CutsAreStarts(job, n, c, s.layer, p);
    var final := s.Now();
    hide *;
    ExportAgrees(s.layer, final, s.epoch, p);
    ExportedIsSerial(job, n, c, overlaps, results, p, final.out[(s.epoch, p)]);
  }

  // ----- all layers together

  /** Rank t's overlap of mode m is what its gets in its layer's session have made of it. */
  ghost predicate ImportedBy(job: Job, m: nat, t: nat, s: Session, before: Mat, after: Mat)
    requires job.Valid() && m < |job.g.dims| && t < job.g.Size()
  {
    && s.Valid() && IsMat(before, LayerRows(job.g, m, LayerOf(job.g, m, t)), job.nc)
    && SubRank(job.g, m, t) < s.layer.np && GotOverlap(s, SubRank(job.g, m, t), before, after)
  }

  /** All layers of a mode have closed their imports, and the overlaps are what came of them. */
  ghost predicate ModeImported(job: Job, m: nat, layers: seq<Session>, befores: seq<Mat>, overlaps: seq<seq<Mat>>)
    requires job.Valid() && m < |job.g.dims|
  {
    && |layers| == job.g.procs[m] && |befores| == |overlaps| == job.g.Size()
    && (forall c: nat :: c < |layers| ==> ImportClosed(job, m, c, layers[c]))
    && forall t: nat :: t < |overlaps| ==>
         && |overlaps[t]| == |job.g.dims|
         && ImportedBy(job, m, t, layers[LayerOf(job.g, m, t)], befores[t], overlaps[t][m])
  }

  lemma ModeReady(job: Job, m: nat, layers: seq<Session>, befores: seq<Mat>, overlaps: seq<seq<Mat>>, t: nat)
    requires job.Valid() && m < |job.g.dims| && t < job.g.Size() && ModeImported(job, m, layers, befores, overlaps)
    ensures |overlaps[t]| == |job.g.dims| && Imported(job, t, overlaps[t], m)
  {
    var c, p := LayerOf(job.g, m, t), SubRank(job.g, m, t);
    assert ImportedBy(job, m, t, layers[LayerOf(job.g, m, t)], befores[t], overlaps[t][m]);
    assert ImportClosed(job, m, c, layers[c]);
    hide GotOverlap, ImportClosed, Grid.SubComm, ModeImported;
    ImportReady(job, m, c, layers[c], p, t, befores[t], overlaps[t][m]);
    assert OverlapReady(job, m, t, overlaps[t][m]);
  }

  /** The layers of mode n have copied out an export of the local results. */
  ghost predicate ModeExported(job: Job, n: nat, layers: seq<Session>, results: seq<Mat>)
    requires job.Valid() && n < |job.g.dims| && |results| == job.g.Size()
  {
    && |layers| == job.g.procs[n]
    && forall c: nat, p: nat :: c < |layers| && p < |job.g.SubComm(n, c)| ==>
         LayerExportCopied(job, n, c, layers[c], results, p)
  }

  ghost predicate LayerExportCopied(job: Job, n: nat, c: nat, s: Session, results: seq<Mat>, p: nat)
    requires job.Valid() && n < |job.g.dims| && c < job.g.procs[n] && |results| == job.g.Size()
  {
    SubRanksBelow(job.g, n, c);
    ExportCopied(job, n, c, s, Selected(results, job.g.SubComm(n, c)), p)
  }

  /** For any interleaving in every layer: when the other modes' imports are closed, every rank has
      multiplied its own nonzeros, and mode n's exports are copied out, rank t holds exactly its rows of
      the MTTKRP of the whole tensor. */
  lemma OneSidedMttkrpRun(job: Job, n: nat, imports: seq<seq<Session>>, befores: seq<seq<Mat>>,
      overlaps: seq<seq<Mat>>, results: seq<Mat>, exports: seq<Session>, t: nat)
    requires job.Valid() && n < |job.g.dims| && t < job.g.Size()
    requires |imports| == |befores| == |job.g.dims| && |overlaps| == |results| == job.g.Size()
    requires forall m: nat :: m < |imports| && m != n ==> ModeImported(job, m, imports[m], befores[m], overlaps)
    requires forall r: nat :: r < |results| ==>
               |overlaps[r]| == |job.g.dims| && LocalResult(job, r, overlaps[r], n, results[r])
               && IsMat(results[r], LayerRows(job.g, n, LayerOf(job.g, n, r)), job.nc)
    requires ModeExported(job, n, exports, results)
    ensures var s, p := exports[LayerOf(job.g, n, t)], SubRank(job.g, n, t);
            s.Valid() && (s.epoch, p) in s.Now().out && HoldsItsRows(job, n, t, s.Now().out[(s.epoch, p)])
  {
    hide LocalResult, Imported, ModeImported, ExportCopied, HoldsItsRows;
    forall r: nat | r < |results| ensures RankDone(job, n, r, overlaps[r], results[r]) {
      forall m: nat | m < |overlaps[r]| && m != n ensures Imported(job, r, overlaps[r], m) {
        ModeReady(job, m, imports[m], befores[m], overlaps, r);
      }
    }
    assert AllMultiplied(job, n, overlaps, results);
    hide RankDone, AllMultiplied;
    OwnExport(job, n, overlaps, results, exports, t);
  }

  lemma OwnExport(job: Job, n: nat, overlaps: seq<seq<Mat>>, results: seq<Mat>, exports: seq<Session>, t: nat)
    requires job.Valid() && n < |job.g.dims| && t < job.g.Size() && AllMultiplied(job, n, overlaps, results)
    requires ModeExported(job, n, exports, results)
    ensures var s, p := exports[LayerOf(job.g, n, t)], SubRank(job.g, n, t);
            s.Valid() && (s.epoch, p) in s.Now().out && HoldsItsRows(job, n, t, s.Now().out[(s.epoch, p)])
  {
    var c, p := LayerOf(job.g, n, t), SubRank(job.g, n, t);
    var s, sub := exports[c], job.g.SubComm(n, c);
    assert LayerExportCopied(job, n, c, s, results, p);
    assert s.Valid();
    SelectedDone(job, n, c, overlaps, results);
    hide ExportCopied, HoldsItsRows, LayerDone, IsOverlap, AllMultiplied, Session.Valid, Grid.SubComm;
    ExportHolds(job, n, c, s, p, Selected(overlaps, sub), Selected(results, sub));
  }
}
