/** Distributing a sparse tensor over the grid and gathering it back on rank 0. */
module SparseDistribution {
  import opened Sequences
  import opened UniformBlocking
  import opened Layout
  import opened ProcessGrid
  import opened Redistribution
  import opened Mttkrp
  import opened Records
  import opened Collectives

  ghost predicate AllOfOrder(xs: seq<Entry>, order: nat)
  {
    forall i :: 0 <= i < |xs| ==> |xs[i].coo| == order
  }

  /** What every rank holds after the redistribution, in global coordinates. */
  ghost function OwnedEntries(x: seq<Entry>, g: Grid): (r: seq<seq<Entry>>)
    requires g.Valid() && AllOfOrder(x, |g.dims|)
    ensures |r| == g.Size()
  {
    FilterAll(x, OwnerTags(x, g), g.Size())
  }

  lemma {:induction false} FilterMembers<T>(xs: seq<T>, tags: seq<nat>, t: nat, i: nat) returns (k: nat)
    requires |xs| == |tags| && i < |Filter(xs, tags, t)|
    ensures k < |xs| && tags[k] == t && Filter(xs, tags, t)[i] == xs[k]
  {
    FilterByPositions(xs, tags, t);
    PositionsSpec(tags, t);
    k := Positions(tags, t)[i];
    assert k in Positions(tags, t);
  }

  /** A nonzero lands on the one rank whose block contains it. */
  lemma OwnedEntriesInBlock(x: seq<Entry>, g: Grid, t: nat, i: nat)
    requires g.Valid() && AllOfOrder(x, |g.dims|) && CoordsFit(x, g.dims)
    requires t < g.Size() && i < |OwnedEntries(x, g)[t]|
    ensures InBox(OwnedEntries(x, g)[t][i].coo, g.BlockOf(t))
  {
    var k := FilterMembers(x, OwnerTags(x, g), t, i);
    g.OwnerSpec(x[k].coo, t);
  }

  lemma MultisetAppend<T>(a: seq<T>, b: seq<T>)
    ensures multiset(a + b) == multiset(a) + multiset(b)
  {
  }

  lemma {:induction false} FlattenMultiset<T>(xss: seq<seq<T>>, t: nat, x: T)
    requires t < |xss|
    ensures multiset(Flatten(xss[t := xss[t] + [x]])) == multiset(Flatten(xss)) + multiset{x}
  {
    var n := |xss| - 1;
    var yss := xss[t := xss[t] + [x]];
    FlattenStep(xss);
    FlattenStep(yss);
    hide Flatten;
    MultisetAppend(Flatten(xss[..n]), xss[n]);
    MultisetAppend(Flatten(yss[..n]), yss[n]);
    if t < n {
      FlattenMultiset(xss[..n], t, x);
      assert yss[..n] == xss[..n][t := xss[..n][t] + [x]];
    } else {
      assert yss[..n] == xss[..n];
      MultisetAppend(xss[n], [x]);
    }
  }

  lemma {:induction false} FlattenEmpty<T>(xss: seq<seq<T>>)
    requires forall t :: 0 <= t < |xss| ==> xss[t] == []
    ensures Flatten(xss) == []
  {
    if |xss| > 0 {
      FlattenEmpty(xss[..|xss| - 1]);
    }
  }

  /** One more element goes to the list of its tag. */
  lemma FilterAllStep<T>(xs: seq<T>, tags: seq<nat>, n: nat)
    requires |xs| == |tags| > 0 && tags[|tags| - 1] < n
    ensures var m := |xs| - 1;
            var before := FilterAll(xs[..m], tags[..m], n);
            FilterAll(xs, tags, n) == before[tags[m] := before[tags[m]] + [xs[m]]]
  {
    var m := |xs| - 1;
    var before := FilterAll(xs[..m], tags[..m], n);
    var after := before[tags[m] := before[tags[m]] + [xs[m]]];
    forall t: nat | t < n ensures FilterAll(xs, tags, n)[t] == after[t] {
      FilterStep(xs, tags, t);
    }
  }

  lemma MultisetSnoc<T>(xs: seq<T>)
    requires |xs| > 0
    ensures multiset(xs) == multiset(xs[..|xs| - 1]) + multiset{xs[|xs| - 1]}
  {
    assert xs == xs[..|xs| - 1] + [xs[|xs| - 1]];
  }

  lemma FilterConservesNone<T>(n: nat)
    ensures Flatten(FilterAll<T>([], [], n)) == []
  {
    FlattenEmpty(FilterAll<T>([], [], n));
  }

  lemma FilterConservesStep<T>(xs: seq<T>, tags: seq<nat>, n: nat)
    requires |xs| == |tags| > 0 && tags[|tags| - 1] < n
    ensures multiset(Flatten(FilterAll(xs, tags, n)))
         == multiset(Flatten(FilterAll(xs[..|xs| - 1], tags[..|tags| - 1], n))) + multiset{xs[|xs| - 1]}
  {
    hide Flatten, Filter;
    var m := |xs| - 1;
    FilterAllStep(xs, tags, n);
    FlattenMultiset(FilterAll(xs[..m], tags[..m], n), tags[m], xs[m]);
  }

  /** Filtering by a tag that takes values below n splits a list without loss or repetition. */
  lemma {:induction false} FilterConserves<T>(xs: seq<T>, tags: seq<nat>, n: nat)
    requires |xs| == |tags| && forall i :: 0 <= i < |tags| ==> tags[i] < n
    ensures multiset(Flatten(FilterAll(xs, tags, n))) == multiset(xs)
  {
    hide *;
    if |xs| == 0 {
      FilterConservesNone<T>(n);
    } else {
      FilterConserves(xs[..|xs| - 1], tags[..|tags| - 1], n);
      FilterConservesStep(xs, tags, n);
      MultisetSnoc(xs);
    }
  }

  /** Nothing is lost, duplicated or changed by the redistribution. */
  lemma RedistributionConserves(x: seq<Entry>, g: Grid)
    requires g.Valid() && AllOfOrder(x, |g.dims|) && CoordsFit(x, g.dims)
    ensures multiset(Flatten(OwnedEntries(x, g))) == multiset(x)
  {
    forall i | 0 <= i < |x| ensures OwnerTags(x, g)[i] < g.Size() {
      SomeRank(g, x[i].coo);
    }
    FilterConserves(x, OwnerTags(x, g), g.Size());
  }

  ghost predicate EverySliceInBounds(slices: seq<seq<Entry>>, dims: Coord)
  {
    forall s :: 0 <= s < |slices| ==> CoordsFit(slices[s], dims)
  }

  ghost predicate EverySliceOfOrder(slices: seq<seq<Entry>>, order: nat)
  {
    forall s :: 0 <= s < |slices| ==> AllOfOrder(slices[s], order)
  }

  lemma {:induction false} SlicesInBounds(slices: seq<seq<Entry>>, dims: Coord)
    ensures EverySliceInBounds(slices, dims) <==> CoordsFit(Flatten(slices), dims)
  {
    if |slices| > 0 {
      var n := |slices| - 1;
      SlicesInBounds(slices[..n], dims);
      CoordsFitAppend(Flatten(slices[..n]), slices[n], dims);
    }
  }

  lemma CoordsFitAppend(xs: seq<Entry>, ys: seq<Entry>, dims: Coord)
    ensures CoordsFit(xs + ys, dims) <==> CoordsFit(xs, dims) && CoordsFit(ys, dims)
  {
    if CoordsFit(xs + ys, dims) {
      forall i | 0 <= i < |xs| ensures InBounds(xs[i].coo, dims) {
        assert (xs + ys)[i] == xs[i];
      }
      forall i | 0 <= i < |ys| ensures InBounds(ys[i].coo, dims) {
        assert (xs + ys)[|xs| + i] == ys[i];
      }
    }
  }

  lemma {:induction false} SlicesOfOrder(slices: seq<seq<Entry>>, order: nat)
    requires AllOfOrder(Flatten(slices), order)
    ensures EverySliceOfOrder(slices, order)
  {
    if |slices| > 0 {
      var n := |slices| - 1;
      var xs, ys := Flatten(slices[..n]), slices[n];
      forall i | 0 <= i < |xs| ensures |xs[i].coo| == order {
        assert (xs + ys)[i] == xs[i];
      }
      forall i | 0 <= i < |ys| ensures |ys[i].coo| == order {
        assert (xs + ys)[|xs| + i] == ys[i];
      }
      SlicesOfOrder(slices[..n], order);
    }
  }

  /** The owners of every slice's nonzeros. */
  ghost function SliceTags(slices: seq<seq<Entry>>, g: Grid): (tags: seq<seq<nat>>)
    requires g.Valid() && EverySliceOfOrder(slices, |g.dims|)
    ensures |tags| == |slices| && forall s :: 0 <= s < |tags| ==> |tags[s]| == |slices[s]|
  {
    seq(|slices|, s requires 0 <= s < |slices| => OwnerTags(slices[s], g))
  }

  lemma {:induction false} FlattenTags(slices: seq<seq<Entry>>, g: Grid)
    requires g.Valid() && EverySliceOfOrder(slices, |g.dims|) && AllOfOrder(Flatten(slices), |g.dims|)
    ensures Flatten(SliceTags(slices, g)) == OwnerTags(Flatten(slices), g)
  {
    if |slices| > 0 {
      var n := |slices| - 1;
      var xs, ys := Flatten(slices[..n]), slices[n];
      forall i | 0 <= i < |xs| ensures |xs[i].coo| == |g.dims| {
        assert (xs + ys)[i] == xs[i];
      }
      FlattenTags(slices[..n], g);
      assert SliceTags(slices, g)[..n] == SliceTags(slices[..n], g);
      assert OwnerTags(xs + ys, g) == OwnerTags(xs, g) + OwnerTags(ys, g);
    }
  }

  // ----- slices of records

  /** The nonzeros that the slices' records stand for. */
  function UnpackedEach(slices: seq<seq<Record>>, nd: nat): (r: seq<seq<Entry>>)
    ensures |r| == |slices| && forall s :: 0 <= s < |r| ==> r[s] == UnpackedAll(slices[s], nd)
  {
    seq(|slices|, s requires 0 <= s < |slices| => UnpackedAll(slices[s], nd))
  }

  lemma UnpackedAppend(a: seq<Record>, b: seq<Record>, nd: nat)
    ensures UnpackedAll(a + b, nd) == UnpackedAll(a, nd) + UnpackedAll(b, nd)
  {
  }

  lemma {:induction false} FlattenUnpacked(slices: seq<seq<Record>>, nd: nat)
    ensures Flatten(UnpackedEach(slices, nd)) == UnpackedAll(Flatten(slices), nd)
  {
    if |slices| > 0 {
      var n := |slices| - 1;
      FlattenUnpacked(slices[..n], nd);
      assert UnpackedEach(slices, nd)[..n] == UnpackedEach(slices[..n], nd);
      UnpackedAppend(Flatten(slices[..n]), slices[n], nd);
    }
  }

  lemma {:induction false} FilterUnpacked(rs: seq<Record>, nd: nat, tags: seq<nat>, t: nat)
    requires |rs| == |tags|
    ensures UnpackedAll(Filter(rs, tags, t), nd) == Filter(UnpackedAll(rs, nd), tags, t)
  {
    if |rs| > 0 {
      var n := |rs| - 1;
      FilterUnpacked(rs[..n], nd, tags[..n], t);
      assert UnpackedAll(rs, nd)[..n] == UnpackedAll(rs[..n], nd);
      var last := if tags[n] == t then [rs[n]] else [];
      UnpackedAppend(Filter(rs[..n], tags[..n], t), last, nd);
    }
  }

  /** Every record of every slice has its six subscripts. */
  ghost predicate WholeRecords(slices: seq<seq<Record>>)
  {
    forall s :: 0 <= s < |slices| ==> forall i :: 0 <= i < |slices[s]| ==> |slices[s][i].coo| == ROOM
  }

  lemma {:induction false} SlicesWhole(slices: seq<seq<Record>>)
    requires forall i :: 0 <= i < |Flatten(slices)| ==> |Flatten(slices)[i].coo| == ROOM
    ensures WholeRecords(slices)
  {
    if |slices| > 0 {
      var n := |slices| - 1;
      var xs, ys := Flatten(slices[..n]), slices[n];
      FlattenStep(slices);
      hide Flatten;
      forall i | 0 <= i < |xs| ensures |xs[i].coo| == ROOM {
        assert Flatten(slices)[i] == xs[i];
      }
      forall i | 0 <= i < |ys| ensures |ys[i].coo| == ROOM {
        assert Flatten(slices)[|xs| + i] == ys[i];
      }
      SlicesWhole(slices[..n]);
    }
  }

  /** Every rank buckets its slice. */
  method BucketSlices(slices: seq<seq<Record>>, g: Grid) returns (r: Result<seq<seq<seq<Record>>>>)
    requires g.Valid() && EverySliceOfOrder(UnpackedEach(slices, |g.dims|), |g.dims|)
    requires forall s, i :: 0 <= s < |slices| && 0 <= i < |slices[s]| ==> |g.dims| <= |slices[s][i].coo|
    ensures r.Ok? <==> EverySliceInBounds(UnpackedEach(slices, |g.dims|), g.dims)
    ensures r.Ok? ==> AllBuckets(r.value, slices, SliceTags(UnpackedEach(slices, |g.dims|), g), g.Size())
  {
    ghost var entries := UnpackedEach(slices, |g.dims|);
    var buckets: seq<seq<seq<Record>>> := [];
    var s := 0;
    while s < |slices|
      invariant 0 <= s <= |slices| && |buckets| == s
      invariant forall i :: 0 <= i < s ==> CoordsFit(entries[i], g.dims)
      invariant forall i :: 0 <= i < s ==> BucketsOf(buckets[i], slices[i], OwnerTags(entries[i], g), g.Size())
    {
      assert entries[s] == UnpackedAll(slices[s], |g.dims|);
      var b := BucketSparse(slices[s], g);
      if b.Error? {
        return Error;
      }
      buckets := buckets + [b.value];
      s := s + 1;
    }
    r := Ok(buckets);
  }

  /** What rank 0's nonzeros allow: they fit the tensor, and its modes fit a record. */
  ghost predicate Distributable(x: seq<Entry>, dims: Coord)
  {
    CoordsFit(x, dims) && |dims| <= MAX_MODES && (|dims| <= ROOM || |x| == 0)
  }

  /** Read slices, bucket by owner, scan, put in any order: every rank's window holds the input filtered
      by owner, in input order. More than twelve modes and nonzeros outside the tensor are reported; with
      seven to twelve modes the records overrun. */
  method DistributeSparse(x: seq<Entry>, g: Grid, garbage: Record) returns (r: Outcome<seq<seq<Record>>>)
    requires g.Valid() && AllOfOrder(x, |g.dims|) && g.Size() > 0
    ensures r.Done? <==> Distributable(x, g.dims)
    ensures r.Undefined? <==> ROOM < |g.dims| <= MAX_MODES && |x| > 0
    ensures r.Done? ==> |r.value| == g.Size() && WholeRecords(r.value)
    ensures r.Done? ==> UnpackedEach(r.value, |g.dims|) == OwnedEntries(x, g)
    ensures r.Done?
       <==> |g.dims| <= 12 && (|g.dims| <= 6 || |x| == 0)
            && forall i, m :: 0 <= i < |x| && 0 <= m < |g.dims| ==> x[i].coo[m] < g.dims[m]
    ensures r.Undefined? <==> 6 < |g.dims| <= 12 && |x| > 0
    ensures r.Done? ==> multiset(Flatten(UnpackedEach(r.value, |g.dims|))) == multiset(x)
    ensures r.Done? ==> forall t: nat, i: nat :: t < |r.value| && i < |r.value[t]| ==>
              InGridBlock(g, t, r.value[t][i])
  {
    var nd := |g.dims|;
    var sliced := DistributeTensorToVectorsSparse(x, nd, g.Size());
    if sliced.Failed? {
      return Failed;
    } else if sliced.Undefined? {
      return Undefined;
    }
    var slices := sliced.value;
    ghost var entries := UnpackedEach(slices, nd);
    FlattenUnpacked(slices, nd);
    SlicesOfOrder(entries, nd);
    SlicesInBounds(entries, g.dims);
    SlicesWhole(slices);
    NoRecordsPastRoom(slices, nd);
    var buckets := BucketSlices(slices, g);
    if buckets.Error? {
      return Failed;
    }
    FlattenTags(entries, g);
    var windows := Exchange(buckets.value, garbage, slices, SliceTags(entries, g));
    WindowsUnpacked(x, g, Flatten(slices), windows);
    RedistributionConserves(x, g);
    RecordsInBlocks(x, g, windows);
    r := Done(windows);
  }

  /** The record's subscripts lie in the block of the rank's grid position, in every mode. */
  ghost predicate InGridBlock(g: Grid, t: nat, r: Record)
  {
    var pos := g.CoordsOf(t);
    && |pos| == |g.dims| == |g.blocking| <= |r.coo|
    && forall m :: 0 <= m < |g.dims| ==>
         pos[m] + 1 < |g.blocking[m]| && g.blocking[m][pos[m]] <= r.coo[m] < g.blocking[m][pos[m] + 1]
  }

  lemma RecordsInBlocks(x: seq<Entry>, g: Grid, windows: seq<seq<Record>>)
    requires g.Valid() && AllOfOrder(x, |g.dims|) && CoordsFit(x, g.dims) && (|g.dims| <= 6 || |x| == 0)
    requires |windows| == g.Size() && WholeRecords(windows) && UnpackedEach(windows, |g.dims|) == OwnedEntries(x, g)
    ensures forall t: nat, i: nat :: t < |windows| && i < |windows[t]| ==> InGridBlock(g, t, windows[t][i])
  {
    hide OwnedEntries, Grid.CoordsOf, Grid.BlockOf, Grid.BlockAt;
    forall t: nat, i: nat | t < |windows| && i < |windows[t]| ensures InGridBlock(g, t, windows[t][i]) {
      assert UnpackedAll(windows[t], |g.dims|) == OwnedEntries(x, g)[t];
      NothingFiltered(x, g, t);
      RecordInBlock(x, g, t, i, windows[t][i]);
    }
  }

  lemma NothingFiltered(x: seq<Entry>, g: Grid, t: nat)
    requires g.Valid() && AllOfOrder(x, |g.dims|) && t < g.Size()
    ensures |x| == 0 ==> |OwnedEntries(x, g)[t]| == 0
  {
  }

  lemma RecordInBlock(x: seq<Entry>, g: Grid, t: nat, i: nat, r: Record)
    requires g.Valid() && AllOfOrder(x, |g.dims|) && CoordsFit(x, g.dims) && |g.dims| <= 6
    requires t < g.Size() && i < |OwnedEntries(x, g)[t]| && Unpacked(r, |g.dims|) == OwnedEntries(x, g)[t][i]
    requires |r.coo| == ROOM
    ensures InGridBlock(g, t, r)
  {
    OwnedEntriesInBlock(x, g, t, i);
    hide OwnedEntries, CoordRight, IndexRight, Numel;
    CoordRightSpec(g.procs, t);
    var b := g.BlockOf(t);
  }

  lemma NoRecordsPastRoom(slices: seq<seq<Record>>, nd: nat)
    requires WholeRecords(slices) && (nd <= ROOM || |Flatten(slices)| == 0)
    ensures forall s, i :: 0 <= s < |slices| && 0 <= i < |slices[s]| ==> nd <= |slices[s][i].coo|
  {
    forall s, i | 0 <= s < |slices| && 0 <= i < |slices[s]| ensures nd <= |slices[s][i].coo| {
      PieceFits(slices, s);
    }
  }

  lemma WindowsUnpacked(x: seq<Entry>, g: Grid, rs: seq<Record>, windows: seq<seq<Record>>)
    requires g.Valid() && AllOfOrder(x, |g.dims|) && UnpackedAll(rs, |g.dims|) == x && |rs| == |OwnerTags(x, g)|
    requires windows == FilterAll(rs, OwnerTags(x, g), g.Size())
    requires forall i :: 0 <= i < |rs| ==> |rs[i].coo| == ROOM
    ensures UnpackedEach(windows, |g.dims|) == OwnedEntries(x, g) && WholeRecords(windows)
  {
    var tags := OwnerTags(x, g);
    forall t: nat | t < g.Size() ensures UnpackedAll(windows[t], |g.dims|) == OwnedEntries(x, g)[t] {
      FilterUnpacked(rs, |g.dims|, tags, t);
    }
    forall t: nat, i: nat | t < |windows| && i < |windows[t]| ensures |windows[t][i].coo| == ROOM {
      var k := FilterMembers(rs, tags, t, i);
    }
  }

  /** A tensor of seven modes whose only nonzero lies inside, and that no record can carry. */
  lemma SevenModesOverrun()
    ensures var e, dims := Entry(seq(7, _ => 0), 1.0), seq(7, _ => 1);
            CoordsFit([e], dims) && |dims| <= MAX_MODES && !Holds(e) && !Distributable([e], dims)
  {
    var e := Entry(seq(7, _ => 0), 1.0);
    assert |e.coo| == 7;
  }

  // ----- local coordinates and the way back

  function ToLocal(e: Entry, lower: Coord): Entry
    requires |e.coo| == |lower| && forall m :: 0 <= m < |lower| ==> lower[m] <= e.coo[m]
  {
    Entry(ShiftDown(e.coo, lower), e.val)
  }

  function ToGlobal(e: Entry, lower: Coord): Entry
    requires |e.coo| == |lower|
  {
    Entry(ShiftUp(e.coo, lower), e.val)
  }

  ghost predicate EntriesInBox(xs: seq<Entry>, b: Box)
  {
    forall i :: 0 <= i < |xs| ==> InBox(xs[i].coo, b)
  }

  /** Take the subscripts out of the records and subtract the lower bound of the block. */
  method LocalTensor(owned: seq<Record>, b: Box) returns (local: seq<Entry>)
    requires |b.lower| == |b.upper| && EntriesInBox(UnpackedAll(owned, |b.lower|), b)
    requires forall m :: 0 <= m < |b.lower| ==> b.lower[m] <= b.upper[m]
    ensures |local| == |owned|
    ensures forall i :: 0 <= i < |owned| ==> local[i] == ToLocal(UnpackedAll(owned, |b.lower|)[i], b.lower)
    ensures CoordsFit(local, LocalDims(b))
    ensures forall i :: 0 <= i < |owned| ==>
              && |local[i].coo| == |b.lower| && local[i].val == owned[i].val
              && (|b.lower| <= |owned[i].coo| ==> forall m :: 0 <= m < |b.lower| ==>
                    local[i].coo[m] + b.lower[m] == owned[i].coo[m])
  {
    local := [];
    var i := 0;
    while i < |owned|
      invariant 0 <= i <= |owned| && |local| == i
      invariant forall k :: 0 <= k < i ==> local[k] == ToLocal(UnpackedAll(owned, |b.lower|)[k], b.lower)
      invariant CoordsFit(local, LocalDims(b))
    {
      var data := Unpacked(owned[i], |b.lower|);
      assert data == UnpackedAll(owned, |b.lower|)[i];
      ShiftInverse(data.coo, b);
      local := local + [ToLocal(data, b.lower)];
      i := i + 1;
    }
  }

  /** Every rank adds its lower bound again and writes its nonzeros into records, and rank 0 gathers and
      unpacks them in rank order. */
  method ImportToRoot(locals: seq<seq<Entry>>, g: Grid) returns (r: Outcome<seq<Entry>>)
    requires g.Valid() && |locals| == g.Size()
    requires EverySliceOfOrder(locals, |g.dims|)
    ensures r.Done? <==> |g.dims| <= ROOM || forall t :: 0 <= t < |locals| ==> |locals[t]| == 0
    ensures !r.Failed?
    ensures r.Done? ==> r.value == Flatten(GlobalPieces(locals, g))
  {
    var nd := |g.dims|;
    var pieces := GlobalPieces(locals, g);
    var sent: seq<seq<Record>> := [];
    while |sent| < |pieces|
      invariant |sent| <= |pieces| && UnpackedEach(sent, nd) == pieces[..|sent|]
      invariant nd <= ROOM || forall t :: 0 <= t < |sent| ==> |locals[t]| == 0
    {
      var t := |sent|;
      var packed := PackAll(GlobalPiece(locals[t], g.BlockOf(t).lower), nd);
      if packed.Undefined? {
        return Undefined;
      }
      sent := sent + [packed.value];
    }
    var gathered := GatherInRankOrder(sent, Record([], 0.0));
    FlattenUnpacked(sent, nd);
    assert pieces[..|sent|] == pieces;
    r := Done(UnpackedAll(gathered, nd));
  }

  function GlobalPiece(local: seq<Entry>, lower: Coord): (r: seq<Entry>)
    requires AllOfOrder(local, |lower|)
    ensures |r| == |local| && AllOfOrder(r, |lower|)
  {
    seq(|local|, i requires 0 <= i < |local| => ToGlobal(local[i], lower))
  }

  function GlobalPieces(locals: seq<seq<Entry>>, g: Grid): (r: seq<seq<Entry>>)
    requires g.Valid() && |locals| == g.Size()
    requires EverySliceOfOrder(locals, |g.dims|)
    ensures |r| == |locals|
  {
    seq(|locals|, t requires 0 <= t < |locals| => GlobalPiece(locals[t], g.BlockOf(t).lower))
  }

  /** Distribute, localise, gather: rank 0 holds the original nonzeros again. */
  method RoundTrip(x: seq<Entry>, g: Grid, garbage: Record) returns (r: Outcome<seq<Entry>>)
    requires g.Valid() && AllOfOrder(x, |g.dims|) && g.Size() > 0
    ensures r.Done? <==> Distributable(x, g.dims)
    ensures r.Undefined? <==> ROOM < |g.dims| <= MAX_MODES && |x| > 0
    ensures r.Done? ==> multiset(r.value) == multiset(x)
    ensures r.Done?
       <==> |g.dims| <= 12 && (|g.dims| <= 6 || |x| == 0)
            && forall i, m :: 0 <= i < |x| && 0 <= m < |g.dims| ==> x[i].coo[m] < g.dims[m]
  {
    var owned := DistributeSparse(x, g, garbage);
    if owned.Failed? {
      return Failed;
    } else if owned.Undefined? {
      return Undefined;
    }
    var locals := LocaliseAll(x, g, owned.value);
    NothingOwned(x, g, locals);
    r := ImportToRoot(locals, g);
    RedistributionConserves(x, g);
  }

  /** Every rank shifts its nonzeros to its block; shifted back they are what it received. */
  method LocaliseAll(ghost x: seq<Entry>, g: Grid, owned: seq<seq<Record>>) returns (locals: seq<seq<Entry>>)
    requires g.Valid() && AllOfOrder(x, |g.dims|) && CoordsFit(x, g.dims) && |owned| == g.Size()
    requires UnpackedEach(owned, |g.dims|) == OwnedEntries(x, g)
    ensures |locals| == g.Size() && EverySliceOfOrder(locals, |g.dims|)
    ensures GlobalPieces(locals, g) == OwnedEntries(x, g)
  {
    hide OwnedEntries, GlobalPiece, Grid.BlockOf, AllOfOrder, CoordsFit;
    locals := [];
    var t := 0;
    while t < g.Size()
      invariant 0 <= t <= g.Size() && |locals| == t
      invariant EverySliceOfOrder(locals, |g.dims|)
      invariant forall p :: 0 <= p < t ==> GlobalPiece(locals[p], g.BlockOf(p).lower) == OwnedEntries(x, g)[p]
    {
      assert UnpackedAll(owned[t], |g.dims|) == OwnedEntries(x, g)[t];
      var local := LocaliseRank(x, g, t, owned[t]);
      locals := locals + [local];
      t := t + 1;
    }
  }

  method LocaliseRank(ghost x: seq<Entry>, g: Grid, t: nat, owned: seq<Record>) returns (local: seq<Entry>)
    requires g.Valid() && AllOfOrder(x, |g.dims|) && CoordsFit(x, g.dims) && t < g.Size()
    requires UnpackedAll(owned, |g.dims|) == OwnedEntries(x, g)[t]
    ensures AllOfOrder(local, |g.dims|) && GlobalPiece(local, g.BlockOf(t).lower) == OwnedEntries(x, g)[t]
  {
    var b := g.BlockOf(t);
    ghost var mine := UnpackedAll(owned, |g.dims|);
    forall i | 0 <= i < |mine| ensures InBox(mine[i].coo, b) {
      OwnedEntriesInBlock(x, g, t, i);
    }
    hide OwnedEntries, Grid.BlockOf, UnpackedAll;
    local := LocalTensor(owned, b);
    forall i | 0 <= i < |local| ensures ToGlobal(local[i], b.lower) == mine[i] {
      ShiftInverse(mine[i].coo, b);
    }
    assert GlobalPiece(local, b.lower) == mine;
  }

  lemma NothingOwned(x: seq<Entry>, g: Grid, locals: seq<seq<Entry>>)
    requires g.Valid() && AllOfOrder(x, |g.dims|) && |locals| == g.Size() && EverySliceOfOrder(locals, |g.dims|)
    requires GlobalPieces(locals, g) == OwnedEntries(x, g)
    ensures |x| == 0 ==> forall t :: 0 <= t < |locals| ==> |locals[t]| == 0
  {
    if |x| == 0 {
      forall t | 0 <= t < |locals| ensures |locals[t]| == 0 {
        assert |GlobalPieces(locals, g)[t]| == |OwnedEntries(x, g)[t]|;
      }
    }
  }
}
