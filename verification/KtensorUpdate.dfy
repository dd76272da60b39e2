/** Importing factor rows to where they are used and exporting contributions back to their owners,
    for one mode and the processes of one layer. The all-gather / reduce form is the plain meaning. */
module KtensorUpdate {
  import opened Sequences
  import opened Vectors
  import opened UniformBlocking

  /** Factor rows held by the ranks of a layer, in rank order: piece p belongs to rank p. */
  type Pieces = seq<Mat>

  /** One overlap matrix per rank, each with all rows of the layer. */
  ghost predicate IsOverlap(uo: Pieces, np: nat, rows: nat, nc: nat)
  {
    |uo| == np && forall p :: 0 <= p < np ==> IsMat(uo[p], rows, nc)
  }

  /** Sum of one row over the first q ranks. */
  function RowSum(uo: Pieces, rows: nat, nc: nat, row: nat, q: nat): (v: Vec)
    requires IsOverlap(uo, |uo|, rows, nc) && row < rows && q <= |uo|
    ensures |v| == nc
  {
    if q == 0 then Zeros(nc) else Add(RowSum(uo, rows, nc, row, q - 1), uo[q - 1][row])
  }

  /** Offset tables by a running sum over the sizes gathered from all ranks. */
  method OffsetTable(sizes: seq<nat>) returns (offsets: seq<nat>)
    requires |sizes| > 0
    ensures |offsets| == |sizes|
    ensures forall p: nat, pieces: Pieces ::
              p < |sizes| && HasSizes(pieces, sizes) ==> offsets[p] == StartOf(pieces, p)
  {
    offsets := [0];
    var p := 1;
    ghost var any: Pieces := [];
    while p < |sizes|
      invariant 1 <= p <= |sizes| && |offsets| == p
      invariant forall q :: 0 <= q < p ==> offsets[q] == SizesBefore(sizes, q)
    {
      offsets := offsets + [offsets[p - 1] + sizes[p - 1]];
      p := p + 1;
    }
    forall q: nat, pieces: Pieces | q < |sizes| && HasSizes(pieces, sizes)
      ensures offsets[q] == StartOf(pieces, q)
    {
      SizesBeforeIsStart(pieces, sizes, q);
    }
  }

  /** All-gather: every rank receives every piece at its offset. */
  function AllGather(u: Pieces, np: nat): (uo: Pieces)
    ensures |uo| == np && forall p :: 0 <= p < np ==> uo[p] == Flatten(u)
  {
    seq(np, _ => Flatten(u))
  }

  /** Reduce: the rows [start, start + size) summed over all overlaps. */
  function ReduceTo(uo: Pieces, rows: nat, nc: nat, start: nat, size: nat): (m: Mat)
    requires IsOverlap(uo, |uo|, rows, nc) && start + size <= rows
    ensures |m| == size && forall k :: 0 <= k < size ==> m[k] == RowSum(uo, rows, nc, start + k, |uo|)
  {
    seq(size, k requires 0 <= k < size => RowSum(uo, rows, nc, start + k, |uo|))
  }

  /** Every component of a sum of rows is the sum of the ranks' components. */
  lemma {:induction false} RowSumComponent(uo: Pieces, rows: nat, nc: nat, row: nat, r: nat, vals: Vec, q: nat)
    requires IsOverlap(uo, |uo|, rows, nc) && row < rows && r < nc && q <= |uo| == |vals|
    requires forall p :: 0 <= p < |uo| ==> uo[p][row][r] == vals[p]
    ensures RowSum(uo, rows, nc, row, q)[r] == Total(vals[..q])
  {
    if q > 0 {
      RowSumComponent(uo, rows, nc, row, r, vals, q - 1);
      assert vals[..q][..q - 1] == vals[..q - 1];
    }
  }

  /** Written out: component r of row k of what an owner receives. */
  lemma ReducedIsPlain(uo: Pieces, rows: nat, nc: nat, start: nat, size: nat, k: nat, r: nat, s: Vec)
    requires IsOverlap(uo, |uo|, rows, nc) && start + size <= rows && k < size && r < nc && |s| == |uo|
    requires forall p :: 0 <= p < |uo| ==> uo[p][start + k][r] == s[p]
    ensures |ReduceTo(uo, rows, nc, start, size)| == size && |ReduceTo(uo, rows, nc, start, size)[k]| == nc
    ensures ReduceTo(uo, rows, nc, start, size)[k][r] == Total(s)
  {
    RowSumComponent(uo, rows, nc, start + k, r, s, |uo|);
    assert s[..|uo|] == s;
  }

  // ----- rows that a rank needs

  /** lists[p] names, once each and in any order, the needed rows that rank p owns. */
  ghost predicate ListsRows(lists: seq<seq<nat>>, needed: set<nat>, cuts: seq<nat>)
  {
    && |cuts| == |lists| + 1
    && forall p: nat :: p < |lists| ==>
         NoDuplicates(lists[p]) && forall row: nat :: row in lists[p] <==> row in needed && InPart(cuts, p, row)
  }

  /** The sparse import: needed rows agree with their owner, every other row is untouched. */
  ghost predicate ImportedRows(after: Mat, before: Mat, all: Mat, needed: set<nat>)
  {
    && |after| == |before| == |all|
    && forall row: nat :: row < |all| ==> after[row] == if row in needed then all[row] else before[row]
  }

  /** Overlaps with every row zeroed that the rank does not need. */
  ghost function Masked(uo: Pieces, needed: seq<set<nat>>, nc: nat): (r: Pieces)
    requires |uo| == |needed|
    ensures |r| == |uo| && forall p :: 0 <= p < |uo| ==> |r[p]| == |uo[p]|
  {
    seq(|uo|, p requires 0 <= p < |uo| => MaskRows(uo[p], needed[p], nc))
  }

  ghost function MaskRows(m: Mat, needed: set<nat>, nc: nat): (r: Mat)
    ensures |r| == |m|
  {
    seq(|m|, row requires 0 <= row < |m| => if row in needed then m[row] else Zeros(nc))
  }
}
