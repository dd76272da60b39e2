/** Import by all-gather and export by reduction, for one mode and the processes of one layer. */
module AllGatherReduceUpdate {
  import opened Sequences
  import opened Vectors
  import opened Collectives
  import opened KtensorUpdate

  class KtensorAllGatherReduceUpdate {
    var sizes: seq<nat>
    var offsets: seq<nat>

    /** The tables describe how the layer's rows are spread over its ranks. */
    ghost predicate Describes(u: Pieces)
      reads this
    {
      HasSizes(u, sizes) && |offsets| == |u| && forall p: nat :: p < |u| ==> offsets[p] == StartOf(u, p)
    }

    constructor (u: Pieces)
      requires |u| > 0
      ensures Describes(u)
    {
      sizes := seq(|u|, p requires 0 <= p < |u| => |u[p]|);
      offsets := [];
      new;
      offsets := OffsetTable(sizes);
    }

    /** Rows of the whole layer. */
    function LayerSize(): nat
      requires 0 < |offsets| == |sizes|
      reads this
    {
      offsets[|offsets| - 1] + sizes[|sizes| - 1]
    }

    lemma LayerSizeSpec(u: Pieces)
      requires Describes(u) && |u| > 0
      ensures LayerSize() == |Flatten(u)|
    {
      var last := |u| - 1;
      StartOfStep(u, last);
      assert u[..|u|] == u;
    }

    /** Every rank receives every piece at the piece's offset. */
    method DoImport(uOverlapped: Pieces, u: Pieces) returns (after: Pieces)
      requires Describes(u) && |u| > 0 && |uOverlapped| == |u|
      requires forall p :: 0 <= p < |u| ==> |uOverlapped[p]| == LayerSize()
      ensures after == AllGather(u, |u|)
    {
      LayerSizeSpec(u);
      after := [];
      var p := 0;
      while p < |u|
        invariant 0 <= p <= |u| && |after| == p && forall q :: 0 <= q < p ==> after[q] == Flatten(u)
      {
        var mine := PlaceAll(u, offsets, uOverlapped[p]);
        after := after + [mine];
        p := p + 1;
      }
    }

    /** For each rank in turn, its rows are summed over all overlaps and replace what it had. */
    method DoExport(u: Pieces, uOverlapped: Pieces, nc: nat) returns (owned: Pieces)
      requires Describes(u) && |u| > 0 && IsOverlap(uOverlapped, |u|, LayerSize(), nc)
      ensures |owned| == |u|
      ensures forall p: nat :: p < |u| ==>
                StartOf(u, p) + |u[p]| <= LayerSize()
                && owned[p] == ReduceTo(uOverlapped, LayerSize(), nc, StartOf(u, p), |u[p]|)
    {
      LayerSizeSpec(u);
      hide ReduceTo, StartOf, Flatten, RowSum;
      owned := [];
      var p := 0;
      while p < |u|
        invariant 0 <= p <= |u| && |owned| == p
        invariant forall q: nat :: q < p ==>
                    StartOf(u, q) + |u[q]| <= LayerSize()
                    && owned[q] == ReduceTo(uOverlapped, LayerSize(), nc, StartOf(u, q), |u[q]|)
      {
        PieceFits(u, p);
        var mine := Reduce(uOverlapped, LayerSize(), nc, offsets[p], sizes[p]);
        owned := owned + [mine];
        p := p + 1;
      }
    }
  }

  /** MPI_Reduce of a range of rows with a sum. */
  method Reduce(uo: Pieces, rows: nat, nc: nat, start: nat, size: nat) returns (m: Mat)
    requires IsOverlap(uo, |uo|, rows, nc) && start + size <= rows
    ensures m == ReduceTo(uo, rows, nc, start, size)
  {
    m := [];
    var k := 0;
    while k < size
      invariant 0 <= k <= size && |m| == k
      invariant forall j :: 0 <= j < k ==> m[j] == RowSum(uo, rows, nc, start + j, |uo|)
    {
      var row := Zeros(nc);
      var q := 0;
      while q < |uo|
        invariant 0 <= q <= |uo| && row == RowSum(uo, rows, nc, start + k, q)
      {
        row := Add(row, uo[q][start + k]);
        q := q + 1;
      }
      m := m + [row];
      k := k + 1;
    }
  }
}
