/** The unique blocks of a symmetric fourth-order tensor: all index quadruples in non-decreasing order. */
module BlockEnumeration {
  import opened Arithmetic

  datatype Quad = Quad(i: nat, j: nat, k: nat, l: nat)

  ghost predicate IsUnique(q: Quad, n: nat)
  {
    q.i <= q.j <= q.k <= q.l < n
  }

  /** Dictionary order. */
  ghost predicate Precedes(a: Quad, b: Quad)
  {
    || a.i < b.i
    || (a.i == b.i && a.j < b.j)
    || (a.i == b.i && a.j == b.j && a.k < b.k)
    || (a.i == b.i && a.j == b.j && a.k == b.k && a.l < b.l)
  }

  /** The list holds every non-decreasing quadruple below n, once each, in dictionary order. */
  ghost predicate Enumerates(quads: seq<Quad>, n: nat)
  {
    && (forall a, b :: 0 <= a < b < |quads| ==> Precedes(quads[a], quads[b]))
    && (forall q :: q in quads <==> IsUnique(q, n))
  }

  // ----- counting

  /** Non-decreasing pairs, triples and quadruples of m values. */
  function Pairs(m: nat): nat
  {
    if m == 0 then 0 else Pairs(m - 1) + m
  }

  function Triples(m: nat): nat
  {
    if m == 0 then 0 else Triples(m - 1) + Pairs(m)
  }

  function Quads(m: nat): nat
  {
    if m == 0 then 0 else Quads(m - 1) + Triples(m)
  }

  lemma {:induction false} PairsClosed(m: nat)
    ensures 2 * Pairs(m) == m * (m + 1)
  {
    if m > 0 {
      PairsClosed(m - 1);
    }
  }

  lemma {:induction false} TriplesClosed(m: nat)
    ensures 6 * Triples(m) == m * (m + 1) * (m + 2)
  {
    if m > 0 {
      TriplesClosed(m - 1);
      PairsClosed(m);
      Distribute(m - 1, 3, m * (m + 1));
      assert (m - 1) * m * (m + 1) == (m - 1) * (m * (m + 1));
      assert m * (m + 1) * (m + 2) == (m + 2) * (m * (m + 1));
    }
  }

  lemma ReorderFactors(a: nat, m: nat)
    ensures (a + 3) * (m + 2) * (m + 1) * m == (a + 3) * (m * (m + 1) * (m + 2))
  {
    assert (m + 2) * (m + 1) * m == m * (m + 1) * (m + 2);
    assert (a + 3) * (m + 2) * (m + 1) * m == (a + 3) * ((m + 2) * (m + 1) * m);
  }

  lemma MoveFactor(m: nat)
    requires m > 0
    ensures (m - 1 + 3) * ((m - 1) * (m - 1 + 1) * (m - 1 + 2)) == (m - 1) * (m * (m + 1) * (m + 2))
  {
    assert (m - 1) * m * (m + 1) == (m - 1) * (m * (m + 1));
    SwapProduct(m + 2, m - 1, m * (m + 1));
  }

  lemma SwapProduct(a: int, b: int, c: int)
    ensures a * (b * c) == b * (c * a)
  {
  }

  lemma CombineCounts(q: nat, q': nat, t: nat, m: nat, p: nat)
    requires q == q' + t && 24 * q' == (m - 1) * p && 6 * t == p && (m - 1 + 4) * p == (m - 1) * p + 4 * p
    ensures 24 * q == (m + 3) * p
  {
  }

  lemma {:induction false} QuadsProduct(m: nat)
    ensures 24 * Quads(m) == (m + 3) * (m * (m + 1) * (m + 2))
  {
    if m > 0 {
      QuadsProduct(m - 1);
      TriplesClosed(m);
      MoveFactor(m);
      Distribute(m - 1, 4, m * (m + 1) * (m + 2));
      CombineCounts(Quads(m), Quads(m - 1), Triples(m), m, m * (m + 1) * (m + 2));
    }
  }

  /** Blocks out of n, taken four at a time with repetition. */
  function UniqueBlockCount(n: nat): nat
  {
    (n + 3) * (n + 2) * (n + 1) * n / (4 * 3 * 2 * 1)
  }

  /** The number of unique blocks is (n+3)(n+2)(n+1)n / 24, an exact division. */
  lemma QuadsClosed(m: nat)
    ensures 24 * Quads(m) == (m + 3) * (m + 2) * (m + 1) * m
    ensures UniqueBlockCount(m) == Quads(m)
  {
    QuadsProduct(m);
    ReorderFactors(m, m);
  }

  /** Quadruples before (i, j, k, l) in dictionary order; each index may be one past its range. */
  function Rank(n: nat, i: nat, j: nat, k: nat, l: nat): int
    requires i <= j <= k <= l <= n
  {
    (Quads(n) - Quads(n - i)) + (Triples(n - i) - Triples(n - j)) + (Pairs(n - j) - Pairs(n - k)) + (l - k)
  }

  /** Room is left for every quadruple that is still to come. */
  lemma RankBelowCount(n: nat, i: nat, j: nat, k: nat, l: nat)
    requires i <= j <= k <= l < n
    ensures Rank(n, i, j, k, l) < Quads(n)
  {
    assert Quads(n - i) == Quads(n - i - 1) + Triples(n - i);
    assert Triples(n - j) == Triples(n - j - 1) + Pairs(n - j);
    assert Pairs(n - k) == Pairs(n - k - 1) + (n - k);
  }

  // ----- the loop nest

  /** The array rows written so far, as quadruples. */
  ghost predicate Stored(a: seq<nat>, quads: seq<Quad>)
  {
    && 4 * |quads| <= |a|
    && forall b :: 0 <= b < |quads| ==>
         a[4 * b] == quads[b].i && a[4 * b + 1] == quads[b].j && a[4 * b + 2] == quads[b].k
         && a[4 * b + 3] == quads[b].l
  }

  /** Exactly the quadruples before the current one are listed, in order. */
  ghost predicate ListedBefore(quads: seq<Quad>, n: nat, at: Quad)
  {
    && (forall a, b :: 0 <= a < b < |quads| ==> Precedes(quads[a], quads[b]))
    && (forall q :: q in quads <==> IsUnique(q, n) && Precedes(q, at))
  }

  lemma ListNext(quads: seq<Quad>, n: nat, at: Quad)
    requires ListedBefore(quads, n, at) && IsUnique(at, n)
    ensures ListedBefore(quads + [at], n, Quad(at.i, at.j, at.k, at.l + 1))
  {
    var next := Quad(at.i, at.j, at.k, at.l + 1);
    forall q ensures q in quads + [at] <==> IsUnique(q, n) && Precedes(q, next) {
      assert Precedes(q, next) <==> Precedes(q, at) || q == at;
    }
  }

  lemma SameBefore(quads: seq<Quad>, n: nat, at: Quad, next: Quad)
    requires ListedBefore(quads, n, at)
    requires forall q :: IsUnique(q, n) ==> (Precedes(q, at) <==> Precedes(q, next))
    ensures ListedBefore(quads, n, next)
  {
  }

  lemma RankSteps(n: nat, i: nat, j: nat, k: nat, l: nat)
    requires i <= j <= k <= l <= n
    ensures l < n ==> Rank(n, i, j, k, l + 1) == Rank(n, i, j, k, l) + 1
    ensures k < n ==> Rank(n, i, j, k, n) == Rank(n, i, j, k + 1, k + 1)
    ensures j < n ==> Rank(n, i, j, n, n) == Rank(n, i, j + 1, j + 1, j + 1)
    ensures i < n ==> Rank(n, i, n, n, n) == Rank(n, i + 1, i + 1, i + 1, i + 1)
  {
  }

  /** Everything the loops keep: the rows stored are the quadruples before the current one. */
  ghost predicate Progress(a: seq<nat>, x: nat, quads: seq<Quad>, n: nat, at: Quad)
  {
    && at.i <= at.j <= at.k <= at.l <= n
    && x == 4 * |quads| && |quads| == Rank(n, at.i, at.j, at.k, at.l) && |a| == 4 * Quads(n)
    && Stored(a, quads) && ListedBefore(quads, n, at)
  }

  method StoreRow(indexArray: array<nat>, x: nat, q: Quad, n: nat, ghost before: seq<Quad>)
    returns (ghost quads: seq<Quad>)
    requires Progress(indexArray[..], x, before, n, q) && q.l < n
    modifies indexArray
    ensures Progress(indexArray[..], x + 4, quads, n, Quad(q.i, q.j, q.k, q.l + 1))
  {
    RankBelowCount(n, q.i, q.j, q.k, q.l);
    RankSteps(n, q.i, q.j, q.k, q.l);
    ListNext(before, n, q);
    indexArray[x] := q.i;
    indexArray[x + 1] := q.j;
    indexArray[x + 2] := q.k;
    indexArray[x + 3] := q.l;
    quads := before + [q];
  }

  /** The innermost loop. */
  method StoreRows(indexArray: array<nat>, start: nat, i: nat, j: nat, k: nat, n: nat, ghost before: seq<Quad>)
    returns (x: nat, ghost quads: seq<Quad>)
    requires Progress(indexArray[..], start, before, n, Quad(i, j, k, k)) && k < n
    modifies indexArray
    ensures Progress(indexArray[..], x, quads, n, Quad(i, j, k, n))
  {
    hide Progress;
    x, quads := start, before;
    var l := k;
    while l < n
      invariant l <= n && Progress(indexArray[..], x, quads, n, Quad(i, j, k, l))
    {
      quads := StoreRow(indexArray, x, Quad(i, j, k, l), n, quads);
      x := x + 4;
      l := l + 1;
    }
  }

  lemma NextPosition(a: seq<nat>, x: nat, quads: seq<Quad>, n: nat, at: Quad, next: Quad)
    requires Progress(a, x, quads, n, at)
    requires || (at.l == n > at.k && next == Quad(at.i, at.j, at.k + 1, at.k + 1))
             || (at.l == at.k == n > at.j && next == Quad(at.i, at.j + 1, at.j + 1, at.j + 1))
             || (at.l == at.k == at.j == n > at.i && next == Quad(at.i + 1, at.i + 1, at.i + 1, at.i + 1))
    ensures Progress(a, x, quads, n, next)
  {
    RankSteps(n, at.i, at.j, at.k, at.l);
    SameBefore(quads, n, at, next);
  }

  /** The two innermost loops. */
  method StoreLayers(indexArray: array<nat>, start: nat, i: nat, j: nat, n: nat, ghost before: seq<Quad>)
    returns (x: nat, ghost quads: seq<Quad>)
    requires Progress(indexArray[..], start, before, n, Quad(i, j, j, j)) && j < n
    modifies indexArray
    ensures Progress(indexArray[..], x, quads, n, Quad(i, j, n, n))
  {
    hide *;
    x, quads := start, before;
    var k := j;
    while k < n
      invariant k <= n && Progress(indexArray[..], x, quads, n, Quad(i, j, k, k))
    {
      x, quads := StoreRows(indexArray, x, i, j, k, n, quads);
      NextPosition(indexArray[..], x, quads, n, Quad(i, j, k, n), Quad(i, j, k + 1, k + 1));
      k := k + 1;
    }
  }

  lemma Begin(a: seq<nat>, n: nat)
    requires |a| == 4 * Quads(n)
    ensures Progress(a, 0, [], n, Quad(0, 0, 0, 0))
  {
  }

  lemma Finish(a: seq<nat>, x: nat, quads: seq<Quad>, n: nat)
    requires Progress(a, x, quads, n, Quad(n, n, n, n))
    ensures Enumerates(quads, n) && 4 * |quads| == |a| && Stored(a, quads)
  {
    assert Rank(n, n, n, n, n) == Quads(n);
  }

  /** Fills the row-major index array; the array is filled exactly, without overrun. */
  method GetIndexArray(nblocks: nat, indexArray: array<nat>) returns (ghost quads: seq<Quad>)
    requires indexArray.Length == 4 * UniqueBlockCount(nblocks)
    modifies indexArray
    ensures Enumerates(quads, nblocks)
    ensures 4 * |quads| == indexArray.Length && Stored(indexArray[..], quads)
    ensures forall q: Quad :: q in quads <==> q.i <= q.j <= q.k <= q.l < nblocks
    ensures forall a, b :: 0 <= a < b < |quads| ==>
              || quads[a].i < quads[b].i
              || (quads[a].i == quads[b].i && quads[a].j < quads[b].j)
              || (quads[a].i == quads[b].i && quads[a].j == quads[b].j && quads[a].k < quads[b].k)
              || (quads[a].i == quads[b].i && quads[a].j == quads[b].j && quads[a].k == quads[b].k
                  && quads[a].l < quads[b].l)
    ensures forall b :: 0 <= b < |quads| ==>
              indexArray[4 * b..4 * b + 4] == [quads[b].i, quads[b].j, quads[b].k, quads[b].l]
  {
    QuadsClosed(nblocks);
    var n := nblocks;
    quads := [];
    var x := 0;
    Begin(indexArray[..], n);
    hide *;
    var i := 0;
    while i < n
      invariant i <= n && Progress(indexArray[..], x, quads, n, Quad(i, i, i, i))
    {
      var j := i;
      while j < n
        invariant j <= n && Progress(indexArray[..], x, quads, n, Quad(i, j, j, j))
      {
        x, quads := StoreLayers(indexArray, x, i, j, n, quads);
        NextPosition(indexArray[..], x, quads, n, Quad(i, j, n, n), Quad(i, j + 1, j + 1, j + 1));
        j := j + 1;
      }
      NextPosition(indexArray[..], x, quads, n, Quad(i, n, n, n), Quad(i + 1, i + 1, i + 1, i + 1));
      i := i + 1;
    }
    Finish(indexArray[..], x, quads, n);
    EnumeratesIsPlain(quads, n);
    StoredIsPlain(indexArray[..], quads);
  }

  lemma EnumeratesIsPlain(quads: seq<Quad>, n: nat)
    requires Enumerates(quads, n)
    ensures forall q: Quad :: q in quads <==> q.i <= q.j <= q.k <= q.l < n
    ensures forall a, b :: 0 <= a < b < |quads| ==>
              || quads[a].i < quads[b].i
              || (quads[a].i == quads[b].i && quads[a].j < quads[b].j)
              || (quads[a].i == quads[b].i && quads[a].j == quads[b].j && quads[a].k < quads[b].k)
              || (quads[a].i == quads[b].i && quads[a].j == quads[b].j && quads[a].k == quads[b].k
                  && quads[a].l < quads[b].l)
  {
    forall a, b | 0 <= a < b < |quads| ensures Precedes(quads[a], quads[b]) {
    }
    forall q: Quad ensures q in quads <==> IsUnique(q, n) {
    }
  }

  lemma StoredIsPlain(a: seq<nat>, quads: seq<Quad>)
    requires Stored(a, quads)
    ensures forall b :: 0 <= b < |quads| ==>
              4 * b + 4 <= |a| && a[4 * b..4 * b + 4] == [quads[b].i, quads[b].j, quads[b].k, quads[b].l]
  {
  }

  /** The index row of one block. */
  method RankToBlockIndex(rank: nat, indexArray: array<nat>, ghost quads: seq<Quad>) returns (q: Quad)
    requires Stored(indexArray[..], quads) && rank < |quads|
    ensures q == quads[rank]
  {
    var startPos := rank * 4;
    q := Quad(indexArray[startPos], indexArray[startPos + 1], indexArray[startPos + 2], indexArray[startPos + 3]);
  }
}
