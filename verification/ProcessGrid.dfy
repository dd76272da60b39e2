/** A Cartesian grid of processes, one block of every tensor mode per grid coordinate. */
module ProcessGrid {
  import opened Sequences
  import opened UniformBlocking
  import opened Layout

  /** Dimensions of the tensor, of the grid, and the cut points of every mode. */
  datatype Grid = Grid(dims: Coord, procs: Coord, blocking: seq<seq<nat>>) {

    ghost predicate Valid()
    {
      && |dims| == |procs| == |blocking|
      && forall m :: 0 <= m < |dims| ==> procs[m] > 0 && IsBlocking(blocking[m], dims[m], procs[m])
    }

    function Size(): nat
    {
      Numel(procs)
    }

    /** Coordinates of a rank; ranks are in row-major order. */
    function CoordsOf(rank: nat): (c: Coord)
      ensures |c| == |procs|
    {
      CoordRight(procs, rank)
    }

    /** The part of the tensor that belongs to the process at a grid position. */
    function BlockAt(pos: Coord): (b: Box)
      requires Valid() && InBounds(pos, procs)
      ensures BoxIn(b, dims)
    {
      Box(seq(|dims|, m requires 0 <= m < |dims| => blocking[m][pos[m]]),
          seq(|dims|, m requires 0 <= m < |dims| => blocking[m][pos[m] + 1]))
    }

    function BlockOf(rank: nat): (b: Box)
      requires Valid() && rank < Size()
      ensures BoxIn(b, dims)
    {
      CoordRightSpec(procs, rank);
      BlockAt(CoordsOf(rank))
    }

    /** Grid position of the owner of a coordinate. */
    function OwnerPos(c: Coord): (pos: Coord)
      requires Valid() && |c| == |dims|
      ensures |pos| == |procs|
    {
      seq(|c|, m requires 0 <= m < |c| => PartOf(blocking[m], c[m]))
    }

    function Owner(c: Coord): nat
      requires Valid() && |c| == |dims|
    {
      IndexRight(OwnerPos(c), procs)
    }

    /** The owner is the one process whose block contains the coordinate. */
    lemma OwnerSpec(c: Coord, rank: nat)
      requires Valid() && InBounds(c, dims) && rank < Size()
      ensures Owner(c) < Size()
      ensures Owner(c) == rank <==> InBox(c, BlockOf(rank))
    {
      var pos := OwnerPos(c);
      forall m | 0 <= m < |c| ensures InPart(blocking[m], pos[m], c[m]) {
        PartOfSpec(blocking[m], dims[m], procs[m], c[m]);
      }
      assert InBounds(pos, procs);
      CoordRightOfIndex(pos, procs);
      CoordRightSpec(procs, rank);
      assert InBox(c, BlockAt(pos));
      if InBox(c, BlockOf(rank)) {
        var other := CoordsOf(rank);
        forall m | 0 <= m < |c| ensures pos[m] == other[m] {
          PartUnique(blocking[m], dims[m], procs[m], pos[m], other[m], c[m]);
        }
        assert pos == other;
      }
    }

    /** Grid coordinate m of every rank. */
    function ModeTags(m: nat): (tags: seq<nat>)
      requires m < |procs|
      ensures |tags| == Size()
    {
      seq(Size(), t requires 0 <= t < Size() => CoordsOf(t)[m])
    }

    /** Sub-communicator m of a layer: the ranks with that grid coordinate, in rank order. */
    function SubComm(m: nat, coord: nat): seq<nat>
      requires m < |procs|
    {
      Positions(ModeTags(m), coord)
    }

    lemma SubCommSpec(m: nat, coord: nat)
      requires m < |procs|
      ensures Increasing(SubComm(m, coord))
      ensures forall t: nat :: t in SubComm(m, coord) <==> t < Size() && CoordsOf(t)[m] == coord
      ensures forall i, j :: 0 <= i < j < |SubComm(m, coord)| ==> SubComm(m, coord)[i] < SubComm(m, coord)[j]
    {
      PositionsSpec(ModeTags(m), coord);
    }

    /** No layer is without processes. */
    lemma LayerNotEmpty(m: nat, coord: nat)
      requires Valid() && m < |procs| && coord < procs[m]
      ensures |SubComm(m, coord)| > 0
    {
      var pos := seq(|procs|, i => 0)[m := coord];
      assert InBounds(pos, procs);
      CoordRightOfIndex(pos, procs);
      SubCommSpec(m, coord);
      assert IndexRight(pos, procs) in SubComm(m, coord);
    }

    /** Linear search in every mode, then the rank at that grid position. */
    method RankInGridThatOwns(coo: Coord) returns (r: Result<nat>)
      requires Valid() && |coo| == |dims|
      ensures r.Ok? <==> InBounds(coo, dims)
      ensures r.Ok? ==> r.value == Owner(coo)
      ensures r.Ok? <==> forall m :: 0 <= m < |dims| ==> coo[m] < dims[m]
      ensures r.Ok? ==> r.value < Size() && forall m :: 0 <= m < |dims| ==>
                var p := CoordsOf(r.value)[m]; p < procs[m] && blocking[m][p] <= coo[m] < blocking[m][p + 1]
    {
      var gridPos: Coord := [];
      var i := 0;
      while i < |dims|
        invariant 0 <= i <= |dims| && gridPos == OwnerPos(coo)[..i]
        invariant forall m :: 0 <= m < i ==> coo[m] < dims[m]
      {
        var b := BlockInThatDim(coo[i], blocking[i]);
        if b.Error? {
          return Error;
        }
        PartOfSpec(blocking[i], dims[i], procs[i], coo[i]);
        PartUnique(blocking[i], dims[i], procs[i], b.value, PartOf(blocking[i], coo[i]), coo[i]);
        gridPos := gridPos + [b.value];
        i := i + 1;
      }
      assert OwnerPos(coo)[..i] == OwnerPos(coo);
      r := Ok(IndexRight(gridPos, procs));
      OwnerIsPlain(coo);
    }

    /** The owner's block holds the coordinate in every mode. */
    lemma OwnerIsPlain(coo: Coord)
      requires Valid() && InBounds(coo, dims)
      ensures Owner(coo) < Size()
      ensures forall m :: 0 <= m < |dims| ==>
                var p := CoordsOf(Owner(coo))[m]; p < procs[m] && blocking[m][p] <= coo[m] < blocking[m][p + 1]
    {
      var pos := OwnerPos(coo);
      forall m | 0 <= m < |coo| ensures InPart(blocking[m], pos[m], coo[m]) {
        PartOfSpec(blocking[m], dims[m], procs[m], coo[m]);
      }
      assert InBounds(pos, procs);
      CoordRightOfIndex(pos, procs);
    }
  }
}
