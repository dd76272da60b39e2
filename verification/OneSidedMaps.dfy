/** The row map of the one-sided update: for every row that a rank's nonzeros need, the rank that owns it.
    Its slots give the accesses of an import or export. */
module OneSidedMaps {
  import opened Sequences
  import opened UniformBlocking
  import opened ProcessGrid
  import opened Mttkrp
  import opened RowOwnership
  import opened KtensorUpdate
  import opened RowLists
  import opened TwoSidedUpdate
  import opened OneSidedUpdate
  import opened DistributedMttkrp
  import opened DistributedRun
  import opened OneSidedRun

  /** What one rank keeps for one mode. */
  class KtensorOneSidedUpdate {
    const offsets: seq<nat>
    const rows: nat
    var owners: map<nat, nat>

    ghost predicate Valid()
      reads this
    {
      IsCuts(offsets + [rows], |offsets|, rows) && OwnersRight(owners, offsets + [rows])
    }

    constructor (offsets: seq<nat>, rows: nat)
      requires IsCuts(offsets + [rows], |offsets|, rows)
      ensures Valid() && this.offsets == offsets && this.rows == rows && owners == map[]
    {
      this.offsets, this.rows, owners := offsets, rows, map[];
    }

    /** Walk the nonzeros, and insert a row with its owner when it is first seen. */
    method UpdateTensor(subs: seq<nat>)
      requires Valid() && forall i :: 0 <= i < |subs| ==> subs[i] < rows
      modifies this
      ensures Valid() && owners.Keys == SetOf(subs)
    {
      owners := map[];
      var i := 0;
      while i < |subs|
        invariant 0 <= i <= |subs| && Valid() && owners.Keys == SetOf(subs[..i])
      {
        var row := subs[i];
        if row !in owners {
          var p := FindProcForRow(offsets, rows, row);
          owners := owners[row := p];
        }
        assert subs[..i + 1] == subs[..i] + [row];
        i := i + 1;
      }
      assert subs[..i] == subs;
    }

    /** Walk the slots of the map, in whatever order it keeps them: one access for every row. */
    method Accesses() returns (accessed: seq<nat>, targets: seq<nat>)
      requires Valid()
      ensures NoDuplicates(accessed) && SetOf(accessed) == owners.Keys
      ensures HasOwners(accessed, targets, offsets + [rows])
    {
      accessed, targets := [], [];
      var slots := owners.Keys;
      ghost var cuts := offsets + [rows];
      hide NoDuplicates, HasOwners, SetOf;
      NothingWalked(cuts);
      while slots != {}
        invariant slots <= owners.Keys && Walked(accessed, targets, owners.Keys - slots, cuts)
        decreases |slots|
      {
        var row :| row in slots;
        WalkedStep(accessed, targets, owners.Keys - slots, cuts, row, owners[row]);
        accessed, targets := accessed + [row], targets + [owners[row]];
        assert owners.Keys - slots + {row} == owners.Keys - (slots - {row});
        slots := slots - {row};
      }
    }
  }

  /** The accesses for some rows of a map. */
  ghost predicate Walked(accessed: seq<nat>, targets: seq<nat>, done: set<nat>, cuts: seq<nat>)
  {
    NoDuplicates(accessed) && SetOf(accessed) == done && HasOwners(accessed, targets, cuts)
  }

  lemma NothingWalked(cuts: seq<nat>)
    ensures Walked([], [], {}, cuts)
  {
  }

  lemma WalkedStep(accessed: seq<nat>, targets: seq<nat>, done: set<nat>, cuts: seq<nat>, row: nat, owner: nat)
    requires Walked(accessed, targets, done, cuts) && row !in done && InPart(cuts, owner, row)
    ensures Walked(accessed + [row], targets + [owner], done + {row}, cuts)
  {
    hide NoDuplicates;
    AppendNew(accessed, row);
  }

  lemma AppendNew(s: seq<nat>, row: nat)
    requires NoDuplicates(s) && row !in s
    ensures NoDuplicates(s + [row]) && SetOf(s + [row]) == SetOf(s) + {row}
  {
    forall i | 0 <= i < |s| ensures s[i] != row {
      Member(s, i);
    }
  }

  /** targets[i] owns row accessed[i]. */
  ghost predicate HasOwners(accessed: seq<nat>, targets: seq<nat>, cuts: seq<nat>)
  {
    |targets| == |accessed| && forall i :: 0 <= i < |accessed| ==> InPart(cuts, targets[i], accessed[i])
  }

  // ----- a layer

  /** Every rank of the layer accesses every row that its nonzeros need, once, and at the row's owner. */
  ghost predicate AccessLists(job: Job, m: nat, c: nat, accessed: seq<seq<nat>>, targets: seq<seq<nat>>)
    requires job.Valid() && m < |job.g.dims| && c < job.g.procs[m]
  {
    && |accessed| == |targets| == |job.g.SubComm(m, c)|
    && forall p: nat :: p < |accessed| ==> RankAccesses(job, m, c, accessed[p], targets[p], p)
  }

  ghost predicate RankAccesses(job: Job, m: nat, c: nat, accessed: seq<nat>, targets: seq<nat>, p: nat)
    requires job.Valid() && m < |job.g.dims| && c < job.g.procs[m] && p < |job.g.SubComm(m, c)|
  {
    && NoDuplicates(accessed) && SetOf(accessed) == LayerNeeded(job, m, c)[p]
    && HasOwners(accessed, targets, LayerCuts(job, m, c))
    && forall i :: 0 <= i < |accessed| ==> accessed[i] < LayerRows(job.g, m, c)
  }

  ghost function LayerCuts(job: Job, m: nat, c: nat): (cuts: seq<nat>)
    requires job.Valid() && m < |job.g.dims| && c < job.g.procs[m]
  {
    LayerOffsets(LayerRows(job.g, m, c), |job.g.SubComm(m, c)|) + [LayerRows(job.g, m, c)]
  }

  /** The accesses of the p-th rank of a layer, from the subscripts of its nonzeros. */
  method RankMap(job: Job, m: nat, c: nat, p: nat, local: seq<Entry>) returns (accessed: seq<nat>, targets: seq<nat>)
    requires job.Valid() && m < |job.g.dims| && c < job.g.procs[m] && p < |job.g.SubComm(m, c)|
    requires job.g.SubComm(m, c)[p] < job.g.Size() && local == job.Local(job.g.SubComm(m, c)[p])
    ensures RankAccesses(job, m, c, accessed, targets, p)
  {
    var rows, np := LayerRows(job.g, m, c), |job.g.SubComm(m, c)|;
    OffsetsAreCuts(rows, np);
    PieceIsPart(job, m, c, p);
    var subs := Subs(local, m);
    forall i | 0 <= i < |subs| ensures subs[i] < rows {
      LocalSubscript(job, m, c, job.g.SubComm(m, c)[p], i);
    }
    hide Grid.SubComm, Job.Local, LayerOffsets, IsBlocking;
    var update := new KtensorOneSidedUpdate(LayerOffsets(rows, np), rows);
    update.UpdateTensor(subs);
    accessed, targets := update.Accesses();
    forall i | 0 <= i < |accessed| ensures accessed[i] < rows {
      assert accessed[i] in SetOf(accessed);
    }
  }

  lemma Gathered(job: Job, m: nat, c: nat, accessed: seq<seq<nat>>, targets: seq<seq<nat>>)
    requires job.Valid() && m < |job.g.dims| && c < job.g.procs[m]
    requires |accessed| == |targets| == |job.g.SubComm(m, c)|
    requires forall p: nat :: p < |accessed| ==> RankAccesses(job, m, c, accessed[p], targets[p], p)
    ensures AccessLists(job, m, c, accessed, targets)
  {
  }

  /** The accesses of all ranks of a layer. */
  method LayerMaps(job: Job, m: nat, c: nat, locals: seq<seq<Entry>>)
    returns (accessed: seq<seq<nat>>, targets: seq<seq<nat>>)
    requires job.Valid() && m < |job.g.dims| && c < job.g.procs[m]
    requires |locals| == job.g.Size() && forall t: nat :: t < |locals| ==> locals[t] == job.Local(t)
    ensures AccessLists(job, m, c, accessed, targets)
  {
    SubRanksBelow(job.g, m, c);
    var sub := job.g.SubComm(m, c);
    hide *;
    accessed, targets := [], [];
    while |accessed| < |sub|
      invariant |accessed| == |targets| <= |sub|
      invariant forall p: nat :: p < |accessed| ==> RankAccesses(job, m, c, accessed[p], targets[p], p)
    {
      var p := |accessed|;
      var rows, ranks := RankMap(job, m, c, p, locals[sub[p]]);
      accessed, targets := accessed + [rows], targets + [ranks];
    }
    Gathered(job, m, c, accessed, targets);
  }

  /** A protocol of the layer's shape in which an epoch has such accesses. */
  ghost predicate UsesMaps(job: Job, m: nat, c: nat, l: Layer, e: nat, targets: seq<seq<nat>>)
    requires job.Valid() && m < |job.g.dims| && c < job.g.procs[m]
  {
    && l.np == |job.g.SubComm(m, c)| && l.rows == LayerRows(job.g, m, c) && l.nc == job.nc
    && l.cuts == LayerCuts(job, m, c) && e < |l.epochs|
    && AccessLists(job, m, c, l.epochs[e].accessed, targets)
  }

  /** So every epoch built from the row maps is one of those that the distributed run needs, and the rank
      that the map names is the target of the access. */
  lemma MapsMakeSession(job: Job, m: nat, c: nat, s: Session, targets: seq<seq<nat>>)
    requires job.Valid() && m < |job.g.dims| && c < job.g.procs[m]
    requires s.Valid() && UsesMaps(job, m, c, s.layer, s.epoch, targets)
    ensures IsSession(job, m, c, s)
    ensures forall op :: IsOp(s.layer, op) && op.epoch == s.epoch ==>
              op.origin < |targets| && op.index < |targets[op.origin]|
              && Target(s.layer, op) == targets[op.origin][op.index]
  {
    var l, accessed := s.layer, s.layer.epochs[s.epoch].accessed;
    forall p: nat | p < l.np ensures NoDuplicates(accessed[p]) && SetOf(accessed[p]) == LayerNeeded(job, m, c)[p] {
      assert RankAccesses(job, m, c, accessed[p], targets[p], p);
    }
    assert NeededIn(l, s.epoch) == LayerNeeded(job, m, c);
    forall op | IsOp(l, op) && op.epoch == s.epoch
      ensures op.origin < |targets| && op.index < |targets[op.origin]|
      ensures Target(l, op) == targets[op.origin][op.index]
    {
      assert RankAccesses(job, m, c, accessed[op.origin], targets[op.origin], op.origin);
      PartUnique(l.cuts, l.rows, l.np, Target(l, op), targets[op.origin][op.index], RowOf(l, op));
    }
  }

  /** An import or export of the layer with these accesses is an epoch of the protocol. */
  lemma MapsMakeEpoch(job: Job, m: nat, c: nat, l: Layer, accessed: seq<seq<nat>>, targets: seq<seq<nat>>, uo: Pieces)
    requires job.Valid() && m < |job.g.dims| && c < job.g.procs[m] && AccessLists(job, m, c, accessed, targets)
    requires l.np == |job.g.SubComm(m, c)| && l.rows == LayerRows(job.g, m, c) && l.nc == job.nc
    ensures l.ValidEpoch(Import(job.LayerMat(m, c), accessed))
    ensures IsOverlap(uo, l.np, l.rows, l.nc) ==> l.ValidEpoch(Export(uo, accessed))
  {
    forall p, i | 0 <= p < l.np && 0 <= i < |accessed[p]| ensures accessed[p][i] < l.rows {
      assert RankAccesses(job, m, c, accessed[p], targets[p], p);
    }
  }
}
