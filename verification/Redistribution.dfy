/** Moving a tensor from the slices read by each rank to the blocks of the process grid: buckets by
    owner, an exclusive scan for the offsets, and one-sided puts that may land in any order. */
module Redistribution {
  import opened Sequences
  import opened UniformBlocking
  import opened Layout
  import opened ProcessGrid
  import opened Mttkrp
  import opened Records

  // ----- slices of the input, cut by rank 0

  /** The first shares of x, cut at the uniform cut points. */
  ghost predicate SlicesOf<T>(slices: seq<seq<T>>, x: seq<T>, nprocs: nat)
    requires nprocs > 0
  {
    && |slices| <= nprocs
    && Start(|x|, nprocs, |slices|) <= |x|
    && Flatten(slices) == x[..Start(|x|, nprocs, |slices|)]
    && forall j :: 0 <= j < |slices| ==> |slices[j]| == Share(|x|, nprocs, j)
  }

  lemma SlicesPush<T>(slices: seq<seq<T>>, x: seq<T>, nprocs: nat, lo: nat, hi: nat)
    requires nprocs > 0 && |slices| < nprocs && SlicesOf(slices, x, nprocs)
    requires lo == Start(|x|, nprocs, |slices|) && hi == Start(|x|, nprocs, |slices| + 1)
    ensures lo <= hi <= |x| && SlicesOf(slices + [x[lo..hi]], x, nprocs)
  {
    StartBounds(|x|, nprocs);
    StartMonotone(|x|, nprocs, |slices| + 1, nprocs);
    FlattenSlice(slices, x, lo, hi);
  }

  lemma FlattenSlice<T>(slices: seq<seq<T>>, x: seq<T>, lo: nat, hi: nat)
    requires lo <= hi <= |x| && Flatten(slices) == x[..lo]
    ensures Flatten(slices + [x[lo..hi]]) == x[..hi]
  {
    var longer := slices + [x[lo..hi]];
    assert longer[..|slices|] == slices;
  }

  lemma {:induction false} SlicesStart<T>(slices: seq<seq<T>>, x: seq<T>, nprocs: nat, j: nat)
    requires nprocs > 0 && j <= |slices| && SlicesOf(slices, x, nprocs)
    ensures StartOf(slices, j) == Start(|x|, nprocs, j)
  {
    if j == 0 {
      assert slices[..0] == [];
    } else {
      SlicesStart(slices, x, nprocs, j - 1);
      StartOfStep(slices, j - 1);
    }
  }

  lemma SlicesDone<T>(slices: seq<seq<T>>, x: seq<T>, nprocs: nat)
    requires nprocs == |slices| > 0 && SlicesOf(slices, x, nprocs)
    ensures Flatten(slices) == x && Start(|x|, nprocs, nprocs) == |x|
    ensures forall i :: 0 <= i < nprocs ==>
              StartOf(slices, i) == Start(|x|, nprocs, i) && |slices[i]| == Share(|x|, nprocs, i)
  {
    StartBounds(|x|, nprocs);
    forall i | 0 <= i < nprocs ensures StartOf(slices, i) == Start(|x|, nprocs, i) {
      SlicesStart(slices, x, nprocs, i);
    }
  }

  lemma SlicesNone<T>(x: seq<T>, nprocs: nat)
    requires nprocs > 0
    ensures SlicesOf([], x, nprocs)
  {
    StartBounds(|x|, nprocs);
  }

  /** Rank 0 sends every rank its uniform share and keeps its own; nothing is lost on the way. */
  method DistributeTensorToVectors<T>(x: seq<T>, nprocs: nat) returns (r: Result<seq<seq<T>>>)
    requires nprocs > 0
    ensures r.Ok?
    ensures |r.value| == nprocs && Flatten(r.value) == x
    ensures forall i :: 0 <= i < nprocs ==>
              StartOf(r.value, i) == Start(|x|, nprocs, i) && |r.value[i]| == Share(|x|, nprocs, i)
  {
    var whoGetsWhat := SingleDimUniformBlocking(|x|, nprocs);
    var totalSent := 0;
    SlicesNone(x, nprocs);
    StartBounds(|x|, nprocs);
    hide SlicesOf, Start, Share, StartOf, Flatten;
    SlicesPush([], x, nprocs, whoGetsWhat[0], whoGetsWhat[1]);
    var own := x[whoGetsWhat[0]..whoGetsWhat[1]];
    var slices: seq<seq<T>> := [] + [own];
    var i := 1;
    while i < nprocs
      invariant 1 <= i <= nprocs && |slices| == i
      invariant SlicesOf(slices, x, nprocs)
      invariant totalSent + whoGetsWhat[1] == whoGetsWhat[i]
    {
      SlicesPush(slices, x, nprocs, whoGetsWhat[i], whoGetsWhat[i + 1]);
      var nelements := whoGetsWhat[i + 1] - whoGetsWhat[i];
      totalSent := totalSent + nelements;
      slices := slices + [x[whoGetsWhat[i]..whoGetsWhat[i] + nelements]];
      i := i + 1;
    }
    SlicesDone(slices, x, nprocs);
    var totalBefore := |x|;
    var totalAfter := |own| + totalSent;
    if totalAfter != totalBefore {
      return Error;
    }
    r := Ok(slices);
  }

  /** Rank 0 rejects more than twelve modes, writes every nonzero into a record, and sends the slices. */
  method DistributeTensorToVectorsSparse(x: seq<Entry>, ndims: nat, nprocs: nat) returns (r: Outcome<seq<seq<Record>>>)
    requires nprocs > 0 && forall i :: 0 <= i < |x| ==> |x[i].coo| == ndims
    ensures r.Failed? <==> ndims > MAX_MODES
    ensures r.Undefined? <==> ROOM < ndims <= MAX_MODES && |x| > 0
    ensures r.Done? ==> |r.value| == nprocs && UnpackedAll(Flatten(r.value), ndims) == x
    ensures r.Done? ==> forall i :: 0 <= i < nprocs ==> |r.value[i]| == Share(|x|, nprocs, i)
    ensures r.Done? ==> forall i :: 0 <= i < |Flatten(r.value)| ==> |Flatten(r.value)[i].coo| == ROOM
  {
    if ndims > MAX_MODES {
      return Failed;
    }
    var packed := PackAll(x, ndims);
    if packed.Undefined? {
      return Undefined;
    }
    var sliced := DistributeTensorToVectors(packed.value, nprocs);
    r := Done(sliced.value);
  }

  // ----- buckets

  /** The owner of every nonzero. */
  ghost function OwnerTags(xs: seq<Entry>, g: Grid): (tags: seq<nat>)
    requires g.Valid() && forall i :: 0 <= i < |xs| ==> |xs[i].coo| == |g.dims|
    ensures |tags| == |xs|
  {
    seq(|xs|, i requires 0 <= i < |xs| => g.Owner(xs[i].coo))
  }

  /** The owner of every entry of a dense tensor, in linear order. */
  ghost function DenseTags(g: Grid, layout: TensorLayout): (tags: seq<nat>)
    requires g.Valid()
    ensures |tags| == Numel(g.dims)
  {
    seq(Numel(g.dims), k requires 0 <= k < Numel(g.dims) => g.Owner(CoordAt(layout, g.dims, k)))
  }

  ghost predicate BucketsOf<T>(buckets: seq<seq<T>>, xs: seq<T>, tags: seq<nat>, nprocs: nat)
    requires |xs| == |tags|
  {
    |buckets| == nprocs && forall t: nat :: t < nprocs ==> buckets[t] == Filter(xs, tags, t)
  }

  lemma BucketsPush<T>(buckets: seq<seq<T>>, xs: seq<T>, tags: seq<nat>, i: nat, owner: nat, nprocs: nat)
    requires |xs| == |tags| && i < |xs| && tags[i] == owner < nprocs
    requires BucketsOf(buckets, xs[..i], tags[..i], nprocs)
    ensures BucketsOf(buckets[owner := buckets[owner] + [xs[i]]], xs[..i + 1], tags[..i + 1], nprocs)
  {
    assert xs[..i + 1][..i] == xs[..i] && tags[..i + 1][..i] == tags[..i];
  }

  /** Push one record into its owner's bucket; the owner is looked up from the record's subscripts. */
  method PushSparse(buckets: seq<seq<Record>>, tvec: seq<Record>, i: nat, g: Grid)
    returns (r: Result<seq<seq<Record>>>)
    requires g.Valid() && i < |tvec| && forall j :: 0 <= j < |tvec| ==> |g.dims| <= |tvec[j].coo|
    requires BucketsOf(buckets, tvec[..i], OwnerTags(UnpackedAll(tvec, |g.dims|), g)[..i], g.Size())
    ensures r.Ok? <==> InBounds(UnpackedAll(tvec, |g.dims|)[i].coo, g.dims)
    ensures r.Ok? ==>
              BucketsOf(r.value, tvec[..i + 1], OwnerTags(UnpackedAll(tvec, |g.dims|), g)[..i + 1], g.Size())
  {
    var coo := tvec[i].coo[..|g.dims|];
    ghost var tags := OwnerTags(UnpackedAll(tvec, |g.dims|), g);
    assert coo == UnpackedAll(tvec, |g.dims|)[i].coo && |buckets| == g.Size();
    assert tags[i] == g.Owner(coo);
    hide *;
    var owner := g.RankInGridThatOwns(coo);
    if owner.Error? {
      return Error;
    }
    SomeRank(g, coo);
    BucketsPush(buckets, tvec, tags, i, owner.value, g.Size());
    r := Ok(buckets[owner.value := buckets[owner.value] + [tvec[i]]]);
  }

  /** Push every record into its owner's bucket. */
  method BucketSparse(tvec: seq<Record>, g: Grid) returns (r: Result<seq<seq<Record>>>)
    requires g.Valid() && forall i :: 0 <= i < |tvec| ==> |g.dims| <= |tvec[i].coo|
    ensures r.Ok? <==> CoordsFit(UnpackedAll(tvec, |g.dims|), g.dims)
    ensures r.Ok? ==> BucketsOf(r.value, tvec, OwnerTags(UnpackedAll(tvec, |g.dims|), g), g.Size())
  {
    ghost var entries := UnpackedAll(tvec, |g.dims|);
    ghost var tags := OwnerTags(entries, g);
    var elemsToWrite: seq<seq<Record>> := seq(g.Size(), _ => []);
    var i := 0;
    assert BucketsOf(elemsToWrite, tvec[..i], tags[..i], g.Size());
    hide InBounds, Unpacked, UnpackedAll, OwnerTags, BucketsOf;
    while i < |tvec|
      invariant 0 <= i <= |tvec| && BucketsOf(elemsToWrite, tvec[..i], tags[..i], g.Size())
      invariant forall j :: 0 <= j < i ==> InBounds(entries[j].coo, g.dims)
    {
      var pushed := PushSparse(elemsToWrite, tvec, i, g);
      if pushed.Error? {
        return Error;
      }
      elemsToWrite := pushed.value;
      i := i + 1;
    }
    assert tvec[..i] == tvec && tags[..i] == tags;
    r := Ok(elemsToWrite);
  }

  lemma SomeRank(g: Grid, c: Coord)
    requires g.Valid() && InBounds(c, g.dims)
    ensures g.Owner(c) < g.Size() && InBox(c, g.BlockOf(g.Owner(c)))
  {
    var origin := seq(|g.procs|, _ => 0);
    assert InBounds(origin, g.procs);
    CoordRightOfIndex(origin, g.procs);
    g.OwnerSpec(c, IndexRight(origin, g.procs));
    g.OwnerSpec(c, g.Owner(c));
  }

  /** Owner of the entry at a linear position. */
  method OwnerOfPosition(k: nat, globalNnz: nat, g: Grid, layout: TensorLayout) returns (r: Result<nat>)
    requires g.Valid() && globalNnz == Numel(g.dims) && k < globalNnz
    ensures r.Ok? && r.value == DenseTags(g, layout)[k] < g.Size()
  {
    CoordAtSpec(layout, g.dims, k);
    SomeRank(g, CoordAt(layout, g.dims, k));
    var sub: Coord;
    if layout.Left? {
      sub := Ind2SubLeft(g.dims, globalNnz, k);
    } else {
      sub := Ind2SubRight(g.dims, globalNnz, k);
    }
    r := g.RankInGridThatOwns(sub);
  }

  /** The owners of the entries of a slice. */
  ghost function TagsFrom(g: Grid, layout: TensorLayout, offset: nat, n: nat): (tags: seq<nat>)
    requires g.Valid() && offset + n <= Numel(g.dims)
    ensures |tags| == n && forall i :: 0 <= i < n ==> tags[i] == DenseTags(g, layout)[offset + i]
  {
    DenseTags(g, layout)[offset..offset + n]
  }

  /** Push one value; its coordinates come from its position alone. */
  method PushDense<T>(buckets: seq<seq<T>>, tvec: seq<T>, i: nat, globalNnz: nat, globalOffset: nat, g: Grid,
      layout: TensorLayout) returns (r: Result<seq<seq<T>>>)
    requires g.Valid() && globalNnz == Numel(g.dims) && globalOffset + |tvec| <= globalNnz && i < |tvec|
    requires BucketsOf(buckets, tvec[..i], TagsFrom(g, layout, globalOffset, |tvec|)[..i], g.Size())
    ensures r.Ok?
    ensures BucketsOf(r.value, tvec[..i + 1], TagsFrom(g, layout, globalOffset, |tvec|)[..i + 1], g.Size())
  {
    ghost var tags := TagsFrom(g, layout, globalOffset, |tvec|);
    assert |buckets| == g.Size();
    hide *;
    var owner := OwnerOfPosition(globalOffset + i, globalNnz, g, layout);
    if owner.Error? {
      return Error;
    }
    BucketsPush(buckets, tvec, tags, i, owner.value, g.Size());
    r := Ok(buckets[owner.value := buckets[owner.value] + [tvec[i]]]);
  }

  /** Push the values of a slice of a dense tensor. */
  method BucketDense<T>(tvec: seq<T>, globalNnz: nat, globalOffset: nat, g: Grid, layout: TensorLayout)
    returns (r: Result<seq<seq<T>>>)
    requires g.Valid() && globalNnz == Numel(g.dims) && globalOffset + |tvec| <= globalNnz
    ensures r.Ok?
    ensures BucketsOf(r.value, tvec, DenseTags(g, layout)[globalOffset..globalOffset + |tvec|], g.Size())
  {
    ghost var tags := TagsFrom(g, layout, globalOffset, |tvec|);
    var elemsToWrite: seq<seq<T>> := seq(g.Size(), _ => []);
    var i := 0;
    assert BucketsOf(elemsToWrite, tvec[..i], tags[..i], g.Size());
    assert tags == DenseTags(g, layout)[globalOffset..globalOffset + |tvec|];
    hide *;
    while i < |tvec|
      invariant 0 <= i <= |tvec| && BucketsOf(elemsToWrite, tvec[..i], tags[..i], g.Size())
    {
      var pushed := PushDense(elemsToWrite, tvec, i, globalNnz, globalOffset, g, layout);
      elemsToWrite := pushed.value;
      i := i + 1;
    }
    assert tvec[..i] == tvec && tags[..i] == tags;
    r := Ok(elemsToWrite);
  }

  // ----- offsets and windows

  /** What every source has for target t. */
  function Column<T>(buckets: seq<seq<seq<T>>>, t: nat): (col: seq<seq<T>>)
    requires forall s :: 0 <= s < |buckets| ==> t < |buckets[s]|
    ensures |col| == |buckets|
  {
    seq(|buckets|, s requires 0 <= s < |buckets| => buckets[s][t])
  }

  ghost predicate Square<T>(buckets: seq<seq<seq<T>>>)
  {
    forall s :: 0 <= s < |buckets| ==> |buckets[s]| == |buckets|
  }

  /** MPI_Exscan with MPI_SUM: rank s receives the elementwise sum over lower ranks. Rank 0's buffer
      keeps its initial zeros. */
  function ExScan(amounts: seq<seq<nat>>, s: nat, n: nat): (r: seq<nat>)
    requires s <= |amounts| && forall i :: 0 <= i < |amounts| ==> |amounts[i]| == n
    ensures |r| == n
  {
    if s == 0 then seq(n, _ => 0)
    else seq(n, t requires 0 <= t < n => ExScan(amounts, s - 1, n)[t] + amounts[s - 1][t])
  }

  function Amounts<T>(buckets: seq<seq<seq<T>>>): (r: seq<seq<nat>>)
    requires Square(buckets)
    ensures |r| == |buckets| && forall s :: 0 <= s < |r| ==> |r[s]| == |buckets|
  {
    seq(|buckets|, s requires 0 <= s < |buckets| =>
      seq(|buckets|, t requires 0 <= t < |buckets| => |buckets[s][t]|))
  }

  /** The scanned offset is the start of the source's piece in the target's window, and the
      reduce-scatter total is the window's length. */
  lemma {:induction false} ExScanIsStart<T>(buckets: seq<seq<seq<T>>>, s: nat, t: nat)
    requires Square(buckets) && s <= |buckets| && t < |buckets|
    ensures ExScan(Amounts(buckets), s, |buckets|)[t] == StartOf(Column(buckets, t), s)
  {
    if s > 0 {
      ExScanIsStart(buckets, s - 1, t);
      StartOfStep(Column(buckets, t), s - 1);
    } else {
      assert Column(buckets, t)[..0] == [];
    }
  }

  /** One element of one put. */
  datatype Write = Write(source: nat, target: nat, index: nat)

  ghost predicate IsWrite<T>(buckets: seq<seq<seq<T>>>, w: Write)
    requires Square(buckets)
  {
    w.source < |buckets| && w.target < |buckets| && w.index < |buckets[w.source][w.target]|
  }

  function WritesTo<T>(buckets: seq<seq<seq<T>>>): (ws: set<Write>)
    requires Square(buckets)
    ensures forall w :: w in ws <==> IsWrite(buckets, w)
  {
    set s, t, i | 0 <= s < |buckets| && 0 <= t < |buckets| && 0 <= i < |buckets[s][t]| :: Write(s, t, i)
  }

  /** The windows of all ranks between the opening and the closing fence. */
  class PutEpoch<T> {
    const buckets: seq<seq<seq<T>>>
    const offsets: seq<seq<nat>>
    var windows: seq<seq<T>>

    ghost predicate Valid()
      reads this
    {
      && Square(buckets) && |offsets| == |buckets| && |windows| == |buckets|
      && (forall s :: 0 <= s < |buckets| ==> offsets[s] == ExScan(Amounts(buckets), s, |buckets|))
      && (forall t: nat :: t < |buckets| ==> |windows[t]| == |Flatten(Column(buckets, t))|)
    }

    ghost predicate Landed(w: Write)
      requires Valid() && IsWrite(buckets, w)
      reads this
    {
      var k := offsets[w.source][w.target] + w.index;
      k < |windows[w.target]| && windows[w.target][k] == buckets[w.source][w.target][w.index]
    }

    /** Every rank scans its amounts and allocates its window; the contents are arbitrary. */
    constructor (buckets: seq<seq<seq<T>>>, initial: seq<seq<T>>)
      requires Square(buckets) && |initial| == |buckets|
      requires forall t: nat :: t < |buckets| ==>
                 |initial[t]| == ExScan(Amounts(buckets), |buckets|, |buckets|)[t]
      ensures Valid() && this.buckets == buckets
    {
      this.buckets := buckets;
      this.offsets := seq(|buckets|, s requires 0 <= s < |buckets| => ExScan(Amounts(buckets), s, |buckets|));
      this.windows := initial;
      new;
      forall t: nat | t < |buckets| ensures |windows[t]| == |Flatten(Column(buckets, t))| {
        ExScanIsStart(buckets, |buckets|, t);
        assert Column(buckets, t)[..|buckets|] == Column(buckets, t);
      }
    }

    lemma PlaceOf(w: Write)
      requires Valid() && IsWrite(buckets, w)
      ensures var col := Column(buckets, w.target);
              var k := offsets[w.source][w.target] + w.index;
              && k == StartOf(col, w.source) + w.index < |windows[w.target]|
              && Flatten(col)[k] == buckets[w.source][w.target][w.index]
    {
      ExScanIsStart(buckets, w.source, w.target);
      FlattenAt(Column(buckets, w.target), w.source, w.index);
    }

    /** Two writes never meet: the put segments of a target are disjoint. */
    lemma PlacesDisjoint(v: Write, w: Write)
      requires Valid() && IsWrite(buckets, v) && IsWrite(buckets, w) && v.target == w.target
      requires offsets[v.source][v.target] + v.index == offsets[w.source][w.target] + w.index
      ensures v == w
    {
      PlaceOf(v);
      PlaceOf(w);
      FlattenUnique(Column(buckets, v.target), v.source, v.index, w.source, w.index);
    }

    /** One element of a put reaches its target. */
    method Deliver(w: Write)
      requires Valid() && IsWrite(buckets, w)
      modifies this
      ensures Valid() && Landed(w)
      ensures forall v :: IsWrite(buckets, v) && old(Landed(v)) ==> Landed(v)
    {
      PlaceOf(w);
      var k := offsets[w.source][w.target] + w.index;
      windows := windows[w.target := windows[w.target][k := buckets[w.source][w.target][w.index]]];
      forall v | IsWrite(buckets, v) && old(Landed(v)) ensures Landed(v) {
        if v.target == w.target && offsets[v.source][v.target] + v.index == k {
          PlacesDisjoint(v, w);
        }
      }
    }

    /** The puts land in any order whatever; when the closing fence returns, the windows are the
        sources' pieces one after the other. */
    method RunPuts()
      requires Valid()
      modifies this
      ensures Valid()
      ensures forall t: nat :: t < |buckets| ==> windows[t] == Flatten(Column(buckets, t))
    {
      var pending := WritesTo(buckets);
      while pending != {}
        invariant Valid() && pending <= WritesTo(buckets)
        invariant forall w :: IsWrite(buckets, w) && w !in pending ==> Landed(w)
        decreases pending
      {
        var w :| w in pending;
        Deliver(w);
        pending := pending - {w};
      }
      forall t: nat | t < |buckets| ensures windows[t] == Flatten(Column(buckets, t)) {
        AllLanded(t);
      }
    }

    lemma AllLanded(t: nat)
      requires Valid() && t < |buckets|
      requires forall w :: IsWrite(buckets, w) ==> Landed(w)
      ensures windows[t] == Flatten(Column(buckets, t))
    {
      var col := Column(buckets, t);
      forall k: nat | k < |windows[t]| ensures windows[t][k] == Flatten(col)[k] {
        var p, i := FlattenFind(col, k);
        PlaceOf(Write(p, t, i));
        assert Landed(Write(p, t, i));
      }
    }
  }

  /** Every source has filled its buckets by owner. */
  ghost predicate AllBuckets<T>(buckets: seq<seq<seq<T>>>, slices: seq<seq<T>>, tags: seq<seq<nat>>, nprocs: nat)
  {
    && |buckets| == |slices| == |tags|
    && forall s :: 0 <= s < |slices| ==> |slices[s]| == |tags[s]| && BucketsOf(buckets[s], slices[s], tags[s], nprocs)
  }

  lemma AllBucketsPush<T>(buckets: seq<seq<seq<T>>>, b: seq<seq<T>>, slices: seq<seq<T>>, tags: seq<seq<nat>>,
      s: nat, nprocs: nat)
    requires s < |slices| == |tags| && |slices[s]| == |tags[s]|
    requires AllBuckets(buckets, slices[..s], tags[..s], nprocs) && BucketsOf(b, slices[s], tags[s], nprocs)
    ensures AllBuckets(buckets + [b], slices[..s + 1], tags[..s + 1], nprocs)
  {
  }

  /** Then a window is the whole input filtered by owner. */
  lemma WindowIsFiltered<T>(buckets: seq<seq<seq<T>>>, slices: seq<seq<T>>, tags: seq<seq<nat>>, t: nat)
    requires AllBuckets(buckets, slices, tags, |buckets|) && t < |buckets|
    ensures Square(buckets) && |Flatten(slices)| == |Flatten(tags)|
    ensures Flatten(Column(buckets, t)) == Filter(Flatten(slices), Flatten(tags), t)
  {
    FilterFlatten(slices, tags, t);
    assert Column(buckets, t)
        == seq(|slices|, s requires 0 <= s < |slices| => Filter(slices[s], tags[s], t));
  }

  /** The one-sided exchange of all buckets; a window starts with whatever the allocation left. */
  method Exchange<T>(buckets: seq<seq<seq<T>>>, garbage: T, ghost slices: seq<seq<T>>, ghost tags: seq<seq<nat>>)
    returns (windows: seq<seq<T>>)
    requires AllBuckets(buckets, slices, tags, |buckets|)
    ensures |Flatten(slices)| == |Flatten(tags)|
    ensures windows == FilterAll(Flatten(slices), Flatten(tags), |buckets|)
  {
    var n := |buckets|;
    var total := ExScan(Amounts(buckets), n, n);
    var epoch := new PutEpoch<T>(buckets,
      seq(n, t requires 0 <= t < n => seq(total[t], _ => garbage)));
    epoch.RunPuts();
    windows := epoch.windows;
    FilterFlatten(slices, tags, 0);
    forall t: nat | t < n ensures windows[t] == Filter(Flatten(slices), Flatten(tags), t) {
      WindowIsFiltered(buckets, slices, tags, t);
    }
  }
}
