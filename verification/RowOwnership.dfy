/** Two-level ownership of factor-matrix rows: a block of rows per layer of the grid, split uniformly
    over the processes of the layer. */
module RowOwnership {
  import opened Arithmetic
  import opened Sequences
  import opened UniformBlocking
  import opened Layout
  import opened ProcessGrid

  function IndexOf(s: seq<nat>, x: nat): (i: nat)
    ensures x in s ==> i < |s| && s[i] == x
  {
    if |s| == 0 || s[0] == x then 0 else 1 + IndexOf(s[1..], x)
  }

  lemma IndexOfAt(s: seq<nat>, i: nat)
    requires Increasing(s) && i < |s|
    ensures IndexOf(s, s[i]) == i
  {
    var j := IndexOf(s, s[i]);
    Member(s, i);
  }

  /** The rows of mode m in the layer at a grid coordinate. */
  function LayerRows(g: Grid, m: nat, coord: nat): nat
    requires g.Valid() && m < |g.procs| && coord < g.procs[m]
  {
    g.blocking[m][coord + 1] - g.blocking[m][coord]
  }

  function LayerStart(g: Grid, m: nat, coord: nat): nat
    requires g.Valid() && m < |g.procs| && coord < g.procs[m]
  {
    g.blocking[m][coord]
  }

  /** Layer of a rank in mode m. */
  function LayerOf(g: Grid, m: nat, rank: nat): (c: nat)
    requires g.Valid() && m < |g.procs| && rank < g.Size()
    ensures c < g.procs[m]
  {
    CoordRightSpec(g.procs, rank);
    g.CoordsOf(rank)[m]
  }

  function SubCommOf(g: Grid, m: nat, rank: nat): (s: seq<nat>)
    requires g.Valid() && m < |g.procs| && rank < g.Size()
    ensures |s| > 0
  {
    g.LayerNotEmpty(m, LayerOf(g, m, rank));
    g.SubComm(m, LayerOf(g, m, rank))
  }

  function SubRank(g: Grid, m: nat, rank: nat): (s: nat)
    requires g.Valid() && m < |g.procs| && rank < g.Size()
    ensures s < |SubCommOf(g, m, rank)| && SubCommOf(g, m, rank)[s] == rank
  {
    g.SubCommSpec(m, LayerOf(g, m, rank));
    IndexOf(SubCommOf(g, m, rank), rank)
  }

  /** First row of mode m owned by a rank. */
  function RowOffset(g: Grid, m: nat, rank: nat): nat
    requires g.Valid() && m < |g.procs| && rank < g.Size()
  {
    var c := LayerOf(g, m, rank);
    LayerStart(g, m, c) + Start(LayerRows(g, m, c), |SubCommOf(g, m, rank)|, SubRank(g, m, rank))
  }

  function RowCount(g: Grid, m: nat, rank: nat): nat
    requires g.Valid() && m < |g.procs| && rank < g.Size()
  {
    Share(LayerRows(g, m, LayerOf(g, m, rank)), |SubCommOf(g, m, rank)|, SubRank(g, m, rank))
  }

  /** Written out for the p-th rank of a layer: the layer's rows divided by its ranks, with one more for the
      first ranks, after the layers and the ranks before it. */
  lemma RowsArePlain(g: Grid, m: nat, c: nat, p: nat)
    requires g.Valid() && m < |g.dims| && c < g.procs[m] && p < |g.SubComm(m, c)|
    ensures var rank, np, rows := g.SubComm(m, c)[p], |g.SubComm(m, c)|, g.blocking[m][c + 1] - g.blocking[m][c];
            && rank < g.Size()
            && RowCount(g, m, rank) == rows / np + (if p < rows % np then 1 else 0)
            && RowOffset(g, m, rank) == g.blocking[m][c] + p * (rows / np) + if p < rows % np then p else rows % np
  {
    var sub := g.SubComm(m, c);
    g.SubCommSpec(m, c);
    Member(sub, p);
    var rank := sub[p];
    assert rank in sub && LayerOf(g, m, rank) == c;
    IndexOfAt(sub, p);
    StartClosedForm(LayerRows(g, m, c), |sub|, p);
  }

  /** Quotient and remainder. */
  method LocalSize(rowsInLayer: nat, procsInLayer: nat, myProc: nat) returns (numMyRows: nat)
    requires procsInLayer > 0
    ensures numMyRows == Share(rowsInLayer, procsInLayer, myProc)
    ensures numMyRows == rowsInLayer / procsInLayer + if myProc < rowsInLayer % procsInLayer then 1 else 0
  {
    numMyRows := rowsInLayer / procsInLayer;
    SubtractMultiple(rowsInLayer, procsInLayer);
    var rem := rowsInLayer - numMyRows * procsInLayer;
    if myProc < rem {
      numMyRows := numMyRows + 1;
    }
  }

  /** A rank's rows: its share of the layer, after a running sum of the sizes gathered from the lower ranks. */
  method KtensorLocalRows(g: Grid, m: nat, rank: nat) returns (numMyRows: nat, myOffset: nat)
    requires g.Valid() && m < |g.procs| && rank < g.Size()
    ensures numMyRows == RowCount(g, m, rank) && myOffset == RowOffset(g, m, rank)
  {
    var procsInLayer := |SubCommOf(g, m, rank)|;
    var myProc := SubRank(g, m, rank);
    var rowsInLayer := LayerRows(g, m, LayerOf(g, m, rank));
    numMyRows := LocalSize(rowsInLayer, procsInLayer, myProc);
    var localSizes := seq(procsInLayer, p requires 0 <= p < procsInLayer => Share(rowsInLayer, procsInLayer, p));
    hide Share, SubCommOf;
    myOffset := 0;
    var proc := 0;
    while proc < myProc
      invariant 0 <= proc <= myProc
      invariant myOffset == Start(rowsInLayer, procsInLayer, proc)
    {
      myOffset := myOffset + localSizes[proc];
      proc := proc + 1;
    }
    myOffset := myOffset + LayerStart(g, m, LayerOf(g, m, rank));
  }

  ghost predicate OwnsRow(g: Grid, m: nat, rank: nat, row: nat)
    requires g.Valid() && m < |g.procs| && rank < g.Size()
  {
    RowOffset(g, m, rank) <= row < RowOffset(g, m, rank) + RowCount(g, m, rank)
  }

  /** A rank owns exactly the rows of its part of its layer. */
  lemma OwnsRowByParts(g: Grid, m: nat, rank: nat, row: nat)
    requires g.Valid() && m < |g.procs| && rank < g.Size()
    ensures var c := LayerOf(g, m, rank);
            var cuts := UniformCuts(LayerRows(g, m, c), |SubCommOf(g, m, rank)|);
            OwnsRow(g, m, rank, row) <==>
              && InPart(g.blocking[m], c, row)
              && InPart(cuts, SubRank(g, m, rank), row - LayerStart(g, m, c))
  {
    var c := LayerOf(g, m, rank);
    var rows, parts, s := LayerRows(g, m, c), |SubCommOf(g, m, rank)|, SubRank(g, m, rank);
    var cuts := UniformCuts(rows, parts);
    assert cuts[s] == Start(rows, parts, s) && cuts[s + 1] == Start(rows, parts, s + 1);
    StartMonotone(rows, parts, s + 1, parts);
    StartBounds(rows, parts);
  }

  /** Every row of every mode has an owner, also when blocks or ranks are empty. */
  lemma RowHasOwner(g: Grid, m: nat, row: nat) returns (rank: nat)
    requires g.Valid() && m < |g.procs| && row < g.dims[m]
    ensures rank < g.Size() && OwnsRow(g, m, rank, row)
  {
    var range := g.blocking[m];
    PartOfSpec(range, g.dims[m], g.procs[m], row);
    var c := PartOf(range, row);
    var sub := g.SubComm(m, c);
    g.LayerNotEmpty(m, c);
    g.SubCommSpec(m, c);
    var rows := LayerRows(g, m, c);
    var cuts := UniformCuts(rows, |sub|);
    UniformIsBalanced(cuts, rows, |sub|);
    PartOfSpec(cuts, rows, |sub|, row - range[c]);
    var s := PartOf(cuts, row - range[c]);
    rank := sub[s];
    Member(sub, s);
    IndexOfAt(sub, s);
    OwnsRowByParts(g, m, rank, row);
  }

  /** And only one. */
  lemma RowOwnerUnique(g: Grid, m: nat, row: nat, a: nat, b: nat)
    requires g.Valid() && m < |g.procs| && a < g.Size() && b < g.Size()
    requires OwnsRow(g, m, a, row) && OwnsRow(g, m, b, row)
    ensures a == b
  {
    OwnsRowByParts(g, m, a, row);
    OwnsRowByParts(g, m, b, row);
    var c := LayerOf(g, m, a);
    PartUnique(g.blocking[m], g.dims[m], g.procs[m], c, LayerOf(g, m, b), row);
    var rows, parts := LayerRows(g, m, c), |SubCommOf(g, m, a)|;
    UniformIsBalanced(UniformCuts(rows, parts), rows, parts);
    PartUnique(UniformCuts(rows, parts), rows, parts, SubRank(g, m, a), SubRank(g, m, b), row - LayerStart(g, m, c));
  }

  lemma RowsInMatrix(g: Grid, m: nat, rank: nat)
    requires g.Valid() && m < |g.procs| && rank < g.Size()
    ensures RowOffset(g, m, rank) + RowCount(g, m, rank) <= g.dims[m]
  {
    var c := LayerOf(g, m, rank);
    var rows, parts, s := LayerRows(g, m, c), |SubCommOf(g, m, rank)|, SubRank(g, m, rank);
    StartMonotone(rows, parts, s + 1, parts);
    StartBounds(rows, parts);
    assert Start(rows, parts, s + 1) <= rows;
  }

  // ----- export from root and import to root

  /** Every rank's rows of a factor matrix. */
  function OwnedRows<Row>(g: Grid, m: nat, mat: seq<Row>, rank: nat): (r: seq<Row>)
    requires g.Valid() && m < |g.procs| && rank < g.Size() && |mat| == g.dims[m]
    ensures |r| == RowCount(g, m, rank)
  {
    RowsInMatrix(g, m, rank);
    mat[RowOffset(g, m, rank)..RowOffset(g, m, rank) + RowCount(g, m, rank)]
  }

  /** The broadcast matrix is cut down to the rows of each rank. */
  method ExportFromRoot<Row>(g: Grid, m: nat, mat: seq<Row>) returns (parts: seq<seq<Row>>)
    requires g.Valid() && m < |g.procs| && |mat| == g.dims[m]
    ensures |parts| == g.Size()
    ensures forall t: nat :: t < g.Size() ==> parts[t] == OwnedRows(g, m, mat, t)
  {
    parts := [];
    var t := 0;
    while t < g.Size()
      invariant 0 <= t <= g.Size() && |parts| == t
      invariant forall p: nat :: p < t ==> parts[p] == OwnedRows(g, m, mat, p)
    {
      var num, offset := KtensorLocalRows(g, m, t);
      RowsInMatrix(g, m, t);
      parts := parts + [mat[offset..offset + num]];
      t := t + 1;
    }
  }

  /** Row i holds its final value once its owner's piece has arrived. */
  ghost predicate Arrived<Row>(g: Grid, m: nat, out: seq<Row>, mat: seq<Row>, row: nat, t: nat)
    requires g.Valid() && m < |g.procs| && |out| == |mat| == g.dims[m] && row < |mat|
  {
    (exists p: nat :: p < t && p < g.Size() && OwnsRow(g, m, p, row)) ==> out[row] == mat[row]
  }

  ghost predicate AllArrived<Row>(g: Grid, m: nat, out: seq<Row>, mat: seq<Row>, t: nat)
    requires g.Valid() && m < |g.procs| && |out| == |mat| == g.dims[m]
  {
    forall row: nat :: row < |out| ==> Arrived(g, m, out, mat, row, t)
  }

  lemma PieceArrives<Row>(g: Grid, m: nat, before: seq<Row>, after: seq<Row>, mat: seq<Row>, t: nat)
    requires g.Valid() && m < |g.procs| && |before| == |mat| == g.dims[m] && t < g.Size()
    requires AllArrived(g, m, before, mat, t)
    requires RowOffset(g, m, t) + RowCount(g, m, t) <= g.dims[m]
    requires after == before[..RowOffset(g, m, t)] + OwnedRows(g, m, mat, t)
                      + before[RowOffset(g, m, t) + RowCount(g, m, t)..]
    ensures |after| == |before| && AllArrived(g, m, after, mat, t + 1)
  {
    hide RowOffset, RowCount;
    var next := t + 1;
    forall row: nat | row < |after| ensures Arrived(g, m, after, mat, row, next) {
      assert Arrived(g, m, before, mat, row, t);
    }
  }

  /** MPI_Gatherv with every rank's own row offset as displacement. The pieces come back as the matrix they
      were cut from. */
  method ImportToRoot<Row>(g: Grid, m: nat, parts: seq<seq<Row>>, zero: Row, ghost mat: seq<Row>)
    returns (out: seq<Row>)
    requires g.Valid() && m < |g.procs| && |mat| == g.dims[m] && |parts| == g.Size()
    requires forall t: nat :: t < g.Size() ==> parts[t] == OwnedRows(g, m, mat, t)
    ensures out == mat
  {
    out := seq(g.dims[m], _ => zero);
    var t := 0;
    while t < g.Size()
      invariant 0 <= t <= g.Size() && |out| == g.dims[m]
      invariant AllArrived(g, m, out, mat, t)
    {
      var num, offset := KtensorLocalRows(g, m, t);
      RowsInMatrix(g, m, t);
      ghost var before := out;
      out := out[..offset] + parts[t] + out[offset + num..];
      PieceArrives(g, m, before, out, mat, t);
      t := t + 1;
    }
    forall row: nat | row < |out| ensures out[row] == mat[row] {
      var owner := RowHasOwner(g, m, row);
      assert Arrived(g, m, out, mat, row, t);
    }
  }

  /** MPI_Allgatherv: every rank puts all pieces at their own offsets. */
  method ImportToAll<Row>(g: Grid, m: nat, parts: seq<seq<Row>>, zero: Row, ghost mat: seq<Row>)
    returns (outs: seq<seq<Row>>)
    requires g.Valid() && m < |g.procs| && |mat| == g.dims[m] && |parts| == g.Size()
    requires forall t: nat :: t < g.Size() ==> parts[t] == OwnedRows(g, m, mat, t)
    ensures |outs| == g.Size() && forall rank :: 0 <= rank < |outs| ==> outs[rank] == mat
  {
    outs := [];
    while |outs| < g.Size()
      invariant |outs| <= g.Size() && forall rank :: 0 <= rank < |outs| ==> outs[rank] == mat
    {
      var out := ImportToRoot(g, m, parts, zero, mat);
      outs := outs + [out];
    }
  }

  /** Export then import is the identity on a factor matrix, on the root and on every rank. */
  method RoundTrip<Row>(g: Grid, m: nat, mat: seq<Row>, zero: Row) returns (onRoot: seq<Row>, onAll: seq<seq<Row>>)
    requires g.Valid() && m < |g.procs| && |mat| == g.dims[m]
    ensures onRoot == mat
    ensures |onAll| == g.Size() && forall rank :: 0 <= rank < |onAll| ==> onAll[rank] == mat
  {
    var parts := ExportFromRoot(g, m, mat);
    onRoot := ImportToRoot(g, m, parts, zero, mat);
    onAll := ImportToAll(g, m, parts, zero, mat);
  }
}
