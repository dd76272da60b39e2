/** Distributing a dense tensor: only values travel, never coordinates. */
module DenseDistribution {
  import opened Sequences
  import opened UniformBlocking
  import opened Layout
  import opened ProcessGrid
  import opened Redistribution

  /** The values of a rank's block, in the block's own linear order. */
  ghost predicate IsLocalBlock<T>(window: seq<T>, x: seq<T>, g: Grid, layout: TensorLayout, rank: nat)
    requires g.Valid() && rank < g.Size() && |x| == Numel(g.dims)
  {
    var b := g.BlockOf(rank);
    && |window| == Numel(LocalDims(b))
    && forall k: nat :: k < |window| ==>
         GlobalIndex(layout, b, g.dims, k) < |x| && window[k] == x[GlobalIndex(layout, b, g.dims, k)]
  }

  /** Written out: the entry at coordinate c of a rank's block is in the rank's window, at the linear index
      of its position in the block. */
  lemma LocalBlockIsPlain<T>(window: seq<T>, x: seq<T>, g: Grid, layout: TensorLayout, rank: nat, pos: Coord,
      c: Coord, local: Coord, size: Coord)
    requires g.Valid() && rank < g.Size() && |x| == Numel(g.dims) && IsLocalBlock(window, x, g, layout, rank)
    requires pos == g.CoordsOf(rank)
    requires |c| == |local| == |size| == |g.dims|
    requires forall m :: 0 <= m < |g.dims| ==>
               && pos[m] < g.procs[m] && g.blocking[m][pos[m]] <= c[m] < g.blocking[m][pos[m] + 1]
               && local[m] == c[m] - g.blocking[m][pos[m]]
               && size[m] == g.blocking[m][pos[m] + 1] - g.blocking[m][pos[m]]
    ensures |window| == Numel(size) && Index(layout, local, size) < |window| && Index(layout, c, g.dims) < |x|
    ensures window[Index(layout, local, size)] == x[Index(layout, c, g.dims)]
  {
    var b := g.BlockOf(rank);
    PositionInBlock(g, rank, pos, c, local, size);
    PositionIsGlobal(layout, b, g.dims, c);
    hide Numel, Index, CoordAt, GlobalIndex, Grid.BlockOf, ShiftDown, LocalDims, InBox, Grid.CoordsOf;
    var k := Index(layout, local, size);
    assert window[k] == x[GlobalIndex(layout, b, g.dims, k)];
  }

  lemma PositionInBlock(g: Grid, rank: nat, pos: Coord, c: Coord, local: Coord, size: Coord)
    requires g.Valid() && rank < g.Size() && pos == g.CoordsOf(rank) && |c| == |local| == |size| == |g.dims|
    requires forall m :: 0 <= m < |g.dims| ==>
               && pos[m] < g.procs[m] && g.blocking[m][pos[m]] <= c[m] < g.blocking[m][pos[m] + 1]
               && local[m] == c[m] - g.blocking[m][pos[m]]
               && size[m] == g.blocking[m][pos[m] + 1] - g.blocking[m][pos[m]]
    ensures InBox(c, g.BlockOf(rank)) && size == LocalDims(g.BlockOf(rank))
    ensures local == ShiftDown(c, g.BlockOf(rank).lower)
  {
    CoordRightSpec(g.procs, rank);
    assert g.BlockOf(rank) == g.BlockAt(pos);
    hide CoordRight, IndexRight, Numel, Grid.CoordsOf, Grid.BlockOf;
    PositionAt(g, pos, c, local, size);
  }

  lemma PositionAt(g: Grid, pos: Coord, c: Coord, local: Coord, size: Coord)
    requires g.Valid() && InBounds(pos, g.procs) && |c| == |local| == |size| == |g.dims|
    requires forall m :: 0 <= m < |g.dims| ==>
               && g.blocking[m][pos[m]] <= c[m] < g.blocking[m][pos[m] + 1]
               && local[m] == c[m] - g.blocking[m][pos[m]]
               && size[m] == g.blocking[m][pos[m] + 1] - g.blocking[m][pos[m]]
    ensures InBox(c, g.BlockAt(pos)) && size == LocalDims(g.BlockAt(pos)) && local == ShiftDown(c, g.BlockAt(pos).lower)
  {
  }

  lemma PositionIsGlobal(layout: TensorLayout, b: Box, dims: Coord, c: Coord)
    requires BoxIn(b, dims) && InBox(c, b)
    ensures var k := Index(layout, ShiftDown(c, b.lower), LocalDims(b));
            k < Numel(LocalDims(b)) && GlobalIndex(layout, b, dims, k) == Index(layout, c, dims) < Numel(dims)
  {
    var local, size := ShiftDown(c, b.lower), LocalDims(b);
    ShiftInverse(c, b);
    IndexBound(layout, local, size);
    IndexBound(layout, c, dims);
    hide Numel, Index, CoordAt;
    var k := Index(layout, local, size);
    CoordAtSpec(layout, size, k);
    IndexInjective(layout, CoordAt(layout, size, k), local, size);
  }

  /** Linear order restricted to a block is the block's own linear order, so the values filtered by
      owner are the local tensor as it stands. */
  lemma FilteredIsLocalBlock<T>(x: seq<T>, g: Grid, layout: TensorLayout, rank: nat)
    requires g.Valid() && rank < g.Size() && |x| == Numel(g.dims)
    ensures IsLocalBlock(Filter(x, DenseTags(g, layout), rank), x, g, layout, rank)
  {
    var tags := DenseTags(g, layout);
    var b := g.BlockOf(rank);
    forall k: nat | k < |tags| ensures tags[k] == rank <==> InBox(CoordAt(layout, g.dims, k), b) {
      CoordAtSpec(layout, g.dims, k);
      g.OwnerSpec(CoordAt(layout, g.dims, k), rank);
    }
    BoxPositions(layout, b, g.dims, tags, rank);
    FilterByPositions(x, tags, rank);
    forall k: nat | k < Numel(LocalDims(b)) ensures GlobalIndex(layout, b, g.dims, k) < |x| {
      BoxEntry(layout, b, g.dims, k);
    }
  }

  /** The owners of the entries of slice s. */
  ghost function SliceDenseTags<T>(slices: seq<seq<T>>, all: seq<nat>): (tags: seq<seq<nat>>)
    requires |all| == |Flatten(slices)|
    ensures |tags| == |slices|
  {
    seq(|slices|, s requires 0 <= s < |slices| => TagsAt(slices, all, s))
  }

  ghost function TagsAt<T>(slices: seq<seq<T>>, all: seq<nat>, s: nat): (tags: seq<nat>)
    requires |all| == |Flatten(slices)| && s < |slices|
    ensures |tags| == |slices[s]|
  {
    PieceFits(slices, s);
    all[StartOf(slices, s)..StartOf(slices, s) + |slices[s]|]
  }

  lemma {:induction false} FlattenDenseTags<T>(slices: seq<seq<T>>, all: seq<nat>, n: nat)
    requires n <= |slices| && |all| == |Flatten(slices)|
    ensures StartOf(slices, n) <= |all|
    ensures Flatten(SliceDenseTags(slices, all)[..n]) == all[..StartOf(slices, n)]
  {
    var tags := SliceDenseTags(slices, all);
    if n > 0 {
      FlattenDenseTags(slices, all, n - 1);
      StartOfStep(slices, n - 1);
      StartOfMonotone(slices, n, |slices|);
      assert tags[..n][..n - 1] == tags[..n - 1];
    } else {
      assert slices[..0] == [];
    }
  }

  /** Every rank buckets its slice by position. */
  method BucketSlices<T>(slices: seq<seq<T>>, offsets: seq<nat>, numel: nat, g: Grid, layout: TensorLayout)
    returns (buckets: seq<seq<seq<T>>>)
    requires g.Valid() && |slices| == g.Size() && numel == |Flatten(slices)| == Numel(g.dims)
    requires |offsets| >= |slices| && forall i :: 0 <= i < |slices| ==> offsets[i] == StartOf(slices, i)
    ensures AllBuckets(buckets, slices, SliceDenseTags(slices, DenseTags(g, layout)), g.Size())
  {
    ghost var all := DenseTags(g, layout);
    ghost var tags := SliceDenseTags(slices, all);
    buckets := [];
    var s := 0;
    assert AllBuckets(buckets, slices[..s], tags[..s], g.Size());
    hide AllBuckets, BucketsOf, Flatten, StartOf, Numel, Filter, DenseTags, Grid.Valid;
    while s < |slices|
      invariant 0 <= s <= |slices|
      invariant AllBuckets(buckets, slices[..s], tags[..s], g.Size())
    {
      PieceFits(slices, s);
      var b := BucketDense(slices[s], numel, offsets[s], g, layout);
      AllBucketsPush(buckets, b.value, slices, tags, s, g.Size());
      buckets := buckets + [b.value];
      s := s + 1;
    }
    assert slices[..s] == slices && tags[..s] == tags;
  }

  /** For any number of modes, any grid, either layout and any order of the puts, window position k of
      a rank is the global entry whose block-local linear index is k. */
  method DistributeDense<T>(x: seq<T>, g: Grid, layout: TensorLayout, garbage: T) returns (windows: seq<seq<T>>)
    requires g.Valid() && g.Size() > 0 && |x| == Numel(g.dims)
    ensures |windows| == g.Size()
    ensures forall t: nat :: t < g.Size() ==> IsLocalBlock(windows[t], x, g, layout, t)
  {
    var sliced := DistributeTensorToVectors(x, g.Size());
    var slices := sliced.value;
    ghost var all := DenseTags(g, layout);
    ghost var tags := SliceDenseTags(slices, all);
    var whoGetsWhat := SingleDimUniformBlocking(|x|, g.Size());
    var buckets := BucketSlices(slices, whoGetsWhat, |x|, g, layout);
    windows := Exchange(buckets, garbage, slices, tags);
    WindowsAreBlocks(x, g, layout, slices, windows);
  }

  lemma WindowsAreBlocks<T>(x: seq<T>, g: Grid, layout: TensorLayout, slices: seq<seq<T>>, windows: seq<seq<T>>)
    requires g.Valid() && |x| == Numel(g.dims) && Flatten(slices) == x
    requires var tags := SliceDenseTags(slices, DenseTags(g, layout));
             |Flatten(tags)| == |x| && windows == FilterAll(x, Flatten(tags), g.Size())
    ensures |windows| == g.Size()
    ensures forall t: nat :: t < g.Size() ==> IsLocalBlock(windows[t], x, g, layout, t)
  {
    var all := DenseTags(g, layout);
    var tags := SliceDenseTags(slices, all);
    FlattenDenseTags(slices, all, |slices|);
    assert slices[..|slices|] == slices && tags[..|slices|] == tags && all[..|x|] == all;
    hide IsLocalBlock, Filter, SliceDenseTags, Flatten, StartOf, DenseTags, Numel;
    forall t: nat | t < g.Size() ensures IsLocalBlock(windows[t], x, g, layout, t) {
      FilteredIsLocalBlock(x, g, layout, t);
    }
  }
}
