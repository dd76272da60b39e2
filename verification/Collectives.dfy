/** Gathering pieces at the displacements that the counts imply. */
module Collectives {
  import opened Sequences

  /** Piece q lies at its displacement. */
  ghost predicate Placed<T>(buffer: seq<T>, pieces: seq<seq<T>>, q: nat)
    requires q < |pieces|
  {
    var d := StartOf(pieces, q);
    d + |pieces[q]| <= |buffer| && buffer[d..d + |pieces[q]|] == pieces[q]
  }

  lemma AllPlaced<T>(buffer: seq<T>, pieces: seq<seq<T>>)
    requires |buffer| == |Flatten(pieces)|
    requires forall q: nat :: q < |pieces| ==> Placed(buffer, pieces, q)
    ensures buffer == Flatten(pieces)
  {
    forall k: nat | k < |buffer| ensures buffer[k] == Flatten(pieces)[k] {
      var q, i := FlattenFind(pieces, k);
      FlattenAt(pieces, q, i);
      assert Placed(buffer, pieces, q);
      var d := StartOf(pieces, q);
      assert buffer[d..d + |pieces[q]|][i] == buffer[d + i];
    }
  }

  function Overwrite<T>(buffer: seq<T>, at: nat, piece: seq<T>): (r: seq<T>)
    requires at + |piece| <= |buffer|
    ensures |r| == |buffer|
  {
    buffer[..at] + piece + buffer[at + |piece|..]
  }

  lemma OverwritePlaces<T>(buffer: seq<T>, pieces: seq<seq<T>>, p: nat, q: nat)
    requires q <= p < |pieces| && |buffer| == |Flatten(pieces)|
    requires q < p ==> Placed(buffer, pieces, q)
    ensures StartOf(pieces, p) + |pieces[p]| <= |buffer|
    ensures Placed(Overwrite(buffer, StartOf(pieces, p), pieces[p]), pieces, q)
  {
    StartOfStep(pieces, p);
    StartOfMonotone(pieces, p + 1, |pieces|);
    StartOfStep(pieces, q);
    if q < p {
      StartOfMonotone(pieces, q + 1, p);
    }
  }

  /** MPI_Gatherv with displacements that are running sums of the counts. */
  method GatherInRankOrder<T>(pieces: seq<seq<T>>, fill: T) returns (buffer: seq<T>)
    ensures buffer == Flatten(pieces)
  {
    var displs: seq<nat> := [];
    var total := 0;
    var p := 0;
    assert pieces[..0] == [];
    while p < |pieces|
      invariant 0 <= p <= |pieces| && |displs| == p
      invariant total == StartOf(pieces, p)
      invariant forall q :: 0 <= q < p ==> displs[q] == StartOf(pieces, q)
    {
      StartOfStep(pieces, p);
      displs := displs + [total];
      total := total + |pieces[p]|;
      p := p + 1;
    }
    assert pieces[..p] == pieces;
    buffer := PlaceAll(pieces, displs, seq(total, _ => fill));
  }

  /** Every piece is written at its displacement. */
  method PlaceAll<T>(pieces: seq<seq<T>>, displs: seq<nat>, start: seq<T>) returns (buffer: seq<T>)
    requires |displs| == |pieces| && |start| == |Flatten(pieces)|
    requires forall q :: 0 <= q < |displs| ==> displs[q] == StartOf(pieces, q)
    ensures buffer == Flatten(pieces)
  {
    buffer := start;
    var p := 0;
    while p < |pieces|
      invariant 0 <= p <= |pieces| && |buffer| == |Flatten(pieces)|
      invariant forall q: nat :: q < p ==> Placed(buffer, pieces, q)
    {
      ghost var before := buffer;
      OverwritePlaces(buffer, pieces, p, p);
      buffer := Overwrite(buffer, displs[p], pieces[p]);
      forall q: nat | q <= p ensures Placed(buffer, pieces, q) {
        OverwritePlaces(before, pieces, p, q);
      }
      p := p + 1;
    }
    AllPlaced(buffer, pieces);
  }
}
