/** Lists cut into pieces: concatenation, positions of a tag, and the increasing list of a set.
    These are the shapes behind buckets, prefix-sum offsets and windows. */
module Sequences {

  /** All pieces one after the other. */
  function Flatten<T>(xss: seq<seq<T>>): seq<T>
  {
    if |xss| == 0 then [] else Flatten(xss[..|xss| - 1]) + xss[|xss| - 1]
  }

  lemma FlattenStep<T>(xss: seq<seq<T>>)
    requires |xss| > 0
    ensures Flatten(xss) == Flatten(xss[..|xss| - 1]) + xss[|xss| - 1]
  {
  }

  /** Where piece p begins in the concatenation. */
  function StartOf<T>(xss: seq<seq<T>>, p: nat): nat
    requires p <= |xss|
  {
    |Flatten(xss[..p])|
  }

  lemma StartOfStep<T>(xss: seq<seq<T>>, p: nat)
    requires p < |xss|
    ensures StartOf(xss, p + 1) == StartOf(xss, p) + |xss[p]|
  {
    assert xss[..p + 1][..p] == xss[..p];
  }

  lemma {:induction false} StartOfMonotone<T>(xss: seq<seq<T>>, p: nat, q: nat)
    requires p <= q <= |xss|
    ensures StartOf(xss, p) <= StartOf(xss, q) <= |Flatten(xss)|
    decreases |xss| - p
  {
    assert xss[..|xss|] == xss;
    if p < q {
      StartOfStep(xss, p);
      StartOfMonotone(xss, p + 1, q);
    } else if q < |xss| {
      StartOfStep(xss, q);
      StartOfMonotone(xss, q + 1, |xss|);
    }
  }

  lemma PieceFits<T>(xss: seq<seq<T>>, p: nat)
    requires p < |xss|
    ensures StartOf(xss, p) + |xss[p]| <= |Flatten(xss)|
  {
    StartOfStep(xss, p);
    StartOfMonotone(xss, p + 1, |xss|);
  }

  /** Element i of piece p sits at its piece's offset plus i. */
  lemma {:induction false} FlattenAt<T>(xss: seq<seq<T>>, p: nat, i: nat)
    requires p < |xss| && i < |xss[p]|
    ensures StartOf(xss, p) + i < |Flatten(xss)|
    ensures Flatten(xss)[StartOf(xss, p) + i] == xss[p][i]
  {
    var n := |xss| - 1;
    if p < n {
      assert xss[..n][..p] == xss[..p];
      FlattenAt(xss[..n], p, i);
    }
  }

  // ----- pieces by their sizes

  ghost predicate HasSizes<T>(pieces: seq<seq<T>>, sizes: seq<nat>)
  {
    |pieces| == |sizes| && forall p :: 0 <= p < |sizes| ==> |pieces[p]| == sizes[p]
  }

  /** The exclusive scan of the sizes. */
  function SizesBefore(sizes: seq<nat>, p: nat): nat
    requires p <= |sizes|
  {
    if p == 0 then 0 else SizesBefore(sizes, p - 1) + sizes[p - 1]
  }

  lemma {:induction false} SizesBeforeIsStart<T>(pieces: seq<seq<T>>, sizes: seq<nat>, p: nat)
    requires HasSizes(pieces, sizes) && p <= |sizes|
    ensures SizesBefore(sizes, p) == StartOf(pieces, p)
  {
    if p > 0 {
      SizesBeforeIsStart(pieces, sizes, p - 1);
      StartOfStep(pieces, p - 1);
    } else {
      assert pieces[..0] == [];
    }
  }

  /** The scan cuts every piece out of the concatenation. */
  lemma PieceSlice<T>(pieces: seq<seq<T>>, sizes: seq<nat>, p: nat)
    requires HasSizes(pieces, sizes) && p < |sizes|
    ensures var d := SizesBefore(sizes, p);
            d + sizes[p] <= |Flatten(pieces)| && Flatten(pieces)[d..d + sizes[p]] == pieces[p]
  {
    SizesBeforeIsStart(pieces, sizes, p);
    PieceFits(pieces, p);
    var d := SizesBefore(sizes, p);
    forall i: nat | i < |pieces[p]| ensures Flatten(pieces)[d..d + sizes[p]][i] == pieces[p][i] {
      FlattenAt(pieces, p, i);
    }
  }

  lemma SizesBeforeMonotone(sizes: seq<nat>, p: nat, q: nat)
    requires p <= q <= |sizes|
    ensures SizesBefore(sizes, p) <= SizesBefore(sizes, q)
  {
  }

  /** Different places of different pieces, or of one piece, are different places of the whole. */
  lemma SlotsDisjoint(sizes: seq<nat>, p: nat, k: nat, q: nat, j: nat)
    requires p < |sizes| && q < |sizes| && k < sizes[p] && j < sizes[q]
    ensures SizesBefore(sizes, p) + k < SizesBefore(sizes, |sizes|)
    ensures SizesBefore(sizes, p) + k == SizesBefore(sizes, q) + j ==> p == q && k == j
  {
    SizesBeforeMonotone(sizes, p + 1, |sizes|);
    if p < q {
      SizesBeforeMonotone(sizes, p + 1, q);
    } else if q < p {
      SizesBeforeMonotone(sizes, q + 1, p);
    }
  }

  /** Every position of the concatenation lies in some piece. */
  lemma {:induction false} FlattenFind<T>(xss: seq<seq<T>>, k: nat) returns (p: nat, i: nat)
    requires k < |Flatten(xss)|
    ensures p < |xss| && i < |xss[p]|
    ensures k == StartOf(xss, p) + i
  {
    var n := |xss| - 1;
    if k < |Flatten(xss[..n])| {
      p, i := FlattenFind(xss[..n], k);
      assert xss[..n][..p] == xss[..p];
    } else {
      p, i := n, k - |Flatten(xss[..n])|;
    }
  }

  /** No position of the concatenation lies in two pieces. */
  lemma FlattenUnique<T>(xss: seq<seq<T>>, p: nat, i: nat, q: nat, j: nat)
    requires p < |xss| && i < |xss[p]| && q < |xss| && j < |xss[q]|
    requires StartOf(xss, p) + i == StartOf(xss, q) + j
    ensures p == q && i == j
  {
    StartOfStep(xss, p);
    StartOfStep(xss, q);
    if p < q {
      StartOfMonotone(xss, p + 1, q);
    } else if q < p {
      StartOfMonotone(xss, q + 1, p);
    }
  }

  lemma {:induction false} FlattenLength<T, U>(xss: seq<seq<T>>, yss: seq<seq<U>>)
    requires |xss| == |yss|
    requires forall p :: 0 <= p < |xss| ==> |xss[p]| == |yss[p]|
    ensures |Flatten(xss)| == |Flatten(yss)|
  {
    if |xss| > 0 {
      FlattenLength(xss[..|xss| - 1], yss[..|yss| - 1]);
    }
  }

  /** The elements of xs tagged t, in their order in xs. */
  function Filter<T>(xs: seq<T>, tags: seq<nat>, t: nat): (r: seq<T>)
    requires |xs| == |tags|
  {
    if |xs| == 0 then []
    else
      var n := |xs| - 1;
      Filter(xs[..n], tags[..n], t) + (if tags[n] == t then [xs[n]] else [])
  }

  lemma FilterStep<T>(xs: seq<T>, tags: seq<nat>, t: nat)
    requires |xs| == |tags| > 0
    ensures var n := |xs| - 1;
            Filter(xs, tags, t)
            == if tags[n] == t then Filter(xs[..n], tags[..n], t) + [xs[n]] else Filter(xs[..n], tags[..n], t)
  {
  }

  /** One list per tag below n. */
  function FilterAll<T>(xs: seq<T>, tags: seq<nat>, n: nat): (r: seq<seq<T>>)
    requires |xs| == |tags|
    ensures |r| == n && forall t :: 0 <= t < n ==> r[t] == Filter(xs, tags, t)
  {
    seq(n, t requires 0 <= t < n => Filter(xs, tags, t))
  }

  /** The positions tagged t, in increasing order. */
  function Positions(tags: seq<nat>, t: nat): (r: seq<nat>)
  {
    if |tags| == 0 then []
    else
      var n := |tags| - 1;
      Positions(tags[..n], t) + (if tags[n] == t then [n] else [])
  }

  lemma {:induction false} FilterAppend<T>(xs: seq<T>, a: seq<nat>, ys: seq<T>, b: seq<nat>, t: nat)
    requires |xs| == |a| && |ys| == |b|
    ensures Filter(xs + ys, a + b, t) == Filter(xs, a, t) + Filter(ys, b, t)
  {
    if |ys| == 0 {
      assert xs + ys == xs && a + b == a;
    } else {
      var n := |ys| - 1;
      assert (xs + ys)[..|xs| + n] == xs + ys[..n];
      assert (a + b)[..|a| + n] == a + b[..n];
      FilterAppend(xs, a, ys[..n], b[..n], t);
    }
  }

  /** Filtering each piece and concatenating is filtering the concatenation. */
  lemma {:induction false} FilterFlatten<T>(xss: seq<seq<T>>, tagLists: seq<seq<nat>>, t: nat)
    requires |xss| == |tagLists|
    requires forall p :: 0 <= p < |xss| ==> |xss[p]| == |tagLists[p]|
    ensures |Flatten(xss)| == |Flatten(tagLists)|
    ensures Flatten(seq(|xss|, p requires 0 <= p < |xss| => Filter(xss[p], tagLists[p], t)))
         == Filter(Flatten(xss), Flatten(tagLists), t)
  {
    var pieces := seq(|xss|, p requires 0 <= p < |xss| => Filter(xss[p], tagLists[p], t));
    if |xss| > 0 {
      var n := |xss| - 1;
      FilterFlatten(xss[..n], tagLists[..n], t);
      assert pieces[..n] == seq(n, p requires 0 <= p < n => Filter(xss[..n][p], tagLists[..n][p], t));
      FilterAppend(Flatten(xss[..n]), Flatten(tagLists[..n]), xss[n], tagLists[n], t);
    }
  }

  ghost predicate Increasing(s: seq<nat>)
  {
    forall i, j :: 0 <= i < j < |s| ==> s[i] < s[j]
  }

  /** The positions of a tag are increasing, and are exactly the places that carry it. */
  lemma {:induction false} PositionsSpec(tags: seq<nat>, t: nat)
    ensures Increasing(Positions(tags, t))
    ensures forall k: nat :: k in Positions(tags, t) <==> k < |tags| && tags[k] == t
  {
    if |tags| > 0 {
      var n := |tags| - 1;
      var before := Positions(tags[..n], t);
      PositionsSpec(tags[..n], t);
      forall j | 0 <= j < |before| ensures before[j] < n {
        Member(before, j);
      }
      assert Positions(tags, t) == if tags[n] == t then before + [n] else before;
    }
  }

  /** Filtering reads the list at the positions of the tag. */
  lemma {:induction false} FilterByPositions<T>(xs: seq<T>, tags: seq<nat>, t: nat)
    requires |xs| == |tags|
    ensures |Filter(xs, tags, t)| == |Positions(tags, t)|
    ensures forall j :: 0 <= j < |Positions(tags, t)| ==>
              Positions(tags, t)[j] < |xs| && Filter(xs, tags, t)[j] == xs[Positions(tags, t)[j]]
  {
    PositionsSpec(tags, t);
    if |xs| > 0 {
      var n := |xs| - 1;
      FilterByPositions(xs[..n], tags[..n], t);
      PositionsSpec(tags[..n], t);
      forall j | 0 <= j < |Positions(tags, t)|
        ensures Positions(tags, t)[j] < |xs| && Filter(xs, tags, t)[j] == xs[Positions(tags, t)[j]]
      {
        assert Positions(tags, t)[j] in Positions(tags, t);
        if j < |Positions(tags[..n], t)| {
          assert Positions(tags[..n], t)[j] in Positions(tags[..n], t);
        }
      }
    }
  }

  lemma Member<T>(s: seq<T>, i: nat)
    requires i < |s|
    ensures s[i] in s
  {
  }

  /** A set of numbers has only one increasing enumeration. */
  lemma {:induction false} IncreasingUnique(a: seq<nat>, b: seq<nat>)
    requires Increasing(a) && Increasing(b)
    requires forall x :: x in a <==> x in b
    ensures a == b
  {
    if |a| == 0 || |b| == 0 {
      if |b| > 0 {
        Member(b, 0);
      }
      if |a| > 0 {
        Member(a, 0);
      }
    } else {
      var m, n := |a| - 1, |b| - 1;
      assert a[m] in b && b[n] in a;
      assert a[m] == b[n];
      forall x ensures x in a[..m] <==> x in b[..n] {
        assert x in a[..m] <==> x in a && x != a[m];
        assert x in b[..n] <==> x in b && x != b[n];
      }
      IncreasingUnique(a[..m], b[..n]);
      assert a == a[..m] + [a[m]] && b == b[..n] + [b[n]];
    }
  }

  // ----- lists without duplicates, and sorting

  ghost predicate NoDuplicates(s: seq<nat>)
  {
    forall i, j :: 0 <= i < j < |s| ==> s[i] != s[j]
  }

  lemma {:induction false} NoDuplicatesCount(s: seq<nat>)
    ensures NoDuplicates(s) <==> forall x :: multiset(s)[x] <= 1
  {
    if |s| > 0 {
      var n := |s| - 1;
      assert s == s[..n] + [s[n]];
      NoDuplicatesCount(s[..n]);
      if NoDuplicates(s) {
        assert s[n] !in s[..n];
        assert multiset(s) == multiset(s[..n]) + multiset{s[n]};
        assert s[n] !in multiset(s[..n]);
      } else if NoDuplicates(s[..n]) {
        var i, j :| 0 <= i < j < |s| && s[i] == s[j];
        assert s[..n][i] in multiset(s[..n]);
        assert multiset(s)[s[n]] == multiset(s[..n])[s[n]] + 1;
      } else {
        var x :| multiset(s[..n])[x] > 1;
        assert multiset(s)[x] >= multiset(s[..n])[x];
      }
    }
  }

  ghost predicate Ascending(s: seq<nat>)
  {
    forall i, j :: 0 <= i < j < |s| ==> s[i] <= s[j]
  }

  function Insert(x: nat, s: seq<nat>): (r: seq<nat>)
    ensures multiset(r) == multiset(s) + multiset{x}
    ensures |r| == |s| + 1 && (r[0] == x || (|s| > 0 && r[0] == s[0]))
  {
    if |s| == 0 || x <= s[0] then [x] + s
    else
      assert s == [s[0]] + s[1..];
      [s[0]] + Insert(x, s[1..])
  }

  /** The list in ascending order (std::sort). */
  function Sorted(s: seq<nat>): (r: seq<nat>)
    ensures multiset(r) == multiset(s) && |r| == |s|
  {
    if |s| == 0 then []
    else
      assert s == [s[0]] + s[1..];
      Insert(s[0], Sorted(s[1..]))
  }

  lemma AscendingCons(x: nat, s: seq<nat>)
    requires Ascending(s) && (|s| > 0 ==> x <= s[0])
    ensures Ascending([x] + s)
  {
  }

  lemma {:induction false} InsertAscending(x: nat, s: seq<nat>)
    requires Ascending(s)
    ensures Ascending(Insert(x, s))
  {
    if |s| == 0 || x <= s[0] {
      AscendingCons(x, s);
    } else {
      InsertAscending(x, s[1..]);
      AscendingCons(s[0], Insert(x, s[1..]));
    }
  }

  lemma {:induction false} SortedIsAscending(s: seq<nat>)
    ensures Ascending(Sorted(s))
  {
    if |s| > 0 {
      SortedIsAscending(s[1..]);
      InsertAscending(s[0], Sorted(s[1..]));
    }
  }
}
