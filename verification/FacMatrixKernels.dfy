/** Factor-matrix kernels that work in place on the matrix data. */
module FacMatrixKernels {
  import opened Arithmetic
  import opened Sequences
  import ColumnMax
  import opened Vectors
  import opened Sums
  import opened Mttkrp
  import opened KtensorAlgebra
  import opened FactorMatrix

  // ----- permutations of columns

  ghost predicate InRange(p: seq<nat>, n: nat)
  {
    forall j :: 0 <= j < |p| ==> p[j] < n
  }

  /** Every column index occurs exactly once. */
  ghost predicate IsPermutation(p: seq<nat>, n: nat)
  {
    |p| == n && InRange(p, n) && NoDuplicates(p) && forall v: nat :: v < n ==> v in p
  }

  function Swapped(p: seq<nat>, j: nat, loc: nat): (q: seq<nat>)
    requires j < |p| && loc < |p|
    ensures |q| == |p|
  {
    p[j := p[loc]][loc := p[j]]
  }

  /** Every move names two different columns. */
  ghost predicate AreMoves(moves: seq<(nat, nat)>, n: nat)
  {
    forall k :: 0 <= k < |moves| ==> moves[k].0 < n && moves[k].1 < n && moves[k].0 != moves[k].1
  }

  /** The columns after the moves, made one after the other. */
  ghost function Moved(moves: seq<(nat, nat)>, n: nat): (q: seq<nat>)
    requires AreMoves(moves, n)
    ensures |q| == n
  {
    var k := |moves| - 1;
    if k < 0 then seq(n, j => j) else Swapped(Moved(moves[..k], n), moves[k].0, moves[k].1)
  }

  lemma MovedPush(moves: seq<(nat, nat)>, n: nat, j: nat, loc: nat)
    requires AreMoves(moves, n) && j < n && loc < n && j != loc
    ensures AreMoves(moves + [(j, loc)], n)
    ensures Moved(moves + [(j, loc)], n) == Swapped(Moved(moves, n), j, loc)
  {
    assert (moves + [(j, loc)])[..|moves|] == moves;
  }

  lemma SwapKeepsPermutation(p: seq<nat>, n: nat, j: nat, loc: nat)
    requires IsPermutation(p, n) && j < n && loc < n
    ensures IsPermutation(Swapped(p, j, loc), n)
  {
    var q := Swapped(p, j, loc);
    forall v: nat | v < n ensures v in q {
      assert v in p;
      var k :| 0 <= k < n && p[k] == v;
      assert q[if k == j then loc else if k == loc then j else k] == v;
    }
  }

  /** Rows [k, k') of the product of columns i and j. */
  function RowRange(a: Mat, i: nat, j: nat, lo: nat, hi: nat): real
    requires lo <= hi
  {
    Sum(hi, ColumnProducts(a, a, i, j)) - Sum(lo, ColumnProducts(a, a, i, j))
  }

  /** Written out. */
  lemma {:induction false} RowRangeIsPlain(a: Mat, i: nat, j: nat, lo: nat, hi: nat, s: Vec)
    requires lo <= hi && |s| == hi - lo && forall k: nat :: k < |s| ==> s[k] == At(a, lo + k, i) * At(a, lo + k, j)
    ensures RowRange(a, i, j, lo, hi) == Total(s)
  {
    if lo < hi {
      RowRangeIsPlain(a, i, j, lo, hi - 1, s[..|s| - 1]);
    }
  }

  /** First column of the column block that holds column i. */
  function BlockStart(i: nat, size: nat): nat
    requires size > 0
  {
    (i / size) * size
  }

  lemma BlockStartSpec(i: nat, size: nat, b: nat)
    requires size > 0 && b % size == 0
    ensures BlockStart(i, size) == b <==> b <= i < b + size
    ensures BlockStart(i, size) <= i < BlockStart(i, size) + size
    ensures BlockStart(i, size) < b ==> BlockStart(i, size) + size <= b
  {
    SubtractMultiple(i, size);
    SubtractMultiple(b, size);
    var q, p := i / size, b / size;
    if q < p {
      MulMono(q + 1, p, size);
      Distribute(q, 1, size);
    } else if p < q {
      MulMono(p + 1, q, size);
      Distribute(p, 1, size);
    }
  }

  /** The unordered pair of column blocks of an entry comes before the pair (ib, jb). */
  ghost predicate PairBefore(i: nat, j: nat, size: nat, ib: nat, jb: nat)
    requires size > 0
  {
    var bi, bj := BlockStart(i, size), BlockStart(j, size);
    var lo, hi := if bi <= bj then bi else bj, if bi <= bj then bj else bi;
    lo < ib || (lo == ib && hi < jb)
  }

  /** The entry lies in the pair of column blocks (ib, jb), in either order. */
  ghost predicate InPair(i: nat, j: nat, size: nat, ib: nat, jb: nat)
    requires size > 0
  {
    var bi, bj := BlockStart(i, size), BlockStart(j, size);
    (bi == ib && bj == jb) || (bi == jb && bj == ib)
  }

  class FacMatrix {
    const data: array2<real>

    constructor (rows: nat, cols: nat)
      ensures fresh(data) && data.Length0 == rows && data.Length1 == cols
    {
      data := new real[rows, cols];
    }

    /** The entries as a value. */
    function Contents(): (m: Mat)
      reads data
      ensures IsMat(m, data.Length0, data.Length1)
      ensures forall i: nat, j: nat :: i < data.Length0 && j < data.Length1 ==> At(m, i, j) == data[i, j]
    {
      seq(data.Length0, i requires 0 <= i < data.Length0 reads data =>
        seq(data.Length1, j requires 0 <= j < data.Length1 reads data => data[i, j]))
    }

    // ----- entrywise kernels

    method Oprod(v: Vec)
      requires data.Length0 == data.Length1 == |v|
      modifies data
      ensures Contents() == FactorMatrix.Oprod(v)
      ensures forall i, j :: 0 <= i < |v| && 0 <= j < |v| ==> data[i, j] == v[i] * v[j]
    {
      forall i, j | 0 <= i < |v| && 0 <= j < |v| {
        data[i, j] := v[i] * v[j];
      }
      SameEntries(Contents(), FactorMatrix.Oprod(v), |v|, |v|);
    }

    method Times(v: FacMatrix)
      requires v.data.Length0 == data.Length0 && v.data.Length1 == data.Length1
      modifies data
      ensures Contents() == Hadamard(old(Contents()), old(v.Contents()), data.Length1)
      ensures forall i, j :: 0 <= i < data.Length0 && 0 <= j < data.Length1 ==>
                data[i, j] == old(data[i, j]) * old(v.data[i, j])
    {
      ghost var product := Hadamard(Contents(), v.Contents(), data.Length1);
      assert forall i: nat, j: nat :: i < data.Length0 && j < data.Length1 ==>
          At(product, i, j) == data[i, j] * v.data[i, j];
      hide Hadamard;
      forall i, j | 0 <= i < data.Length0 && 0 <= j < data.Length1 {
        data[i, j] := data[i, j] * v.data[i, j];
      }
      SameEntries(Contents(), product, data.Length0, data.Length1);
    }

    /** Sum of a symmetric matrix from its upper triangle, row by row. */
    method SumUplo() returns (sum: real)
      requires data.Length0 == data.Length1
      ensures sum == SumUpper(Contents(), data.Length0)
    {
      var n := data.Length0;
      ghost var d := Contents();
      sum := 0.0;
      var i := 0;
      while i < n
        invariant 0 <= i <= n && sum == Sum(i, UpperRow(d, n))
      {
        var s := SumUploRow(i);
        sum := sum + s;
        i := i + 1;
      }
    }

    /** One row: its diagonal entry and twice what is to the right of it. */
    method SumUploRow(i: nat) returns (s: real)
      requires i < data.Length0 == data.Length1
      ensures s == UpperRow(Contents(), data.Length0)(i)
    {
      var n := data.Length0;
      ghost var d := Contents();
      s := data[i, i];
      var j := i + 1;
      UpperRowStart(d, n, i);
      while j < n
        invariant i + 1 <= j <= n
        invariant s == At(d, i, i) + Sum(j, UpperTerm(d, n, i))
      {
        s := s + 2.0 * data[i, j];
        j := j + 1;
      }
    }

    static lemma UpperRowStart(d: Mat, n: nat, i: nat)
      ensures Sum(i + 1, UpperTerm(d, n, i)) == 0.0
    {
      SumZero(i + 1, UpperTerm(d, n, i));
    }

    // ----- permutation of the columns

    /** Column k holds what column curr[k] of the matrix `start` holds. */
    ghost predicate Holds(curr: seq<nat>, start: Mat)
      reads data
    {
      && |curr| == data.Length1
      && forall i: nat, k: nat :: i < data.Length0 && k < data.Length1 ==> data[i, k] == At(start, i, curr[k])
    }

    method SwapStep(curr: seq<nat>, j: nat, loc: nat, ghost start: Mat) returns (next: seq<nat>)
      requires IsPermutation(curr, data.Length1) && Holds(curr, start) && j < |curr| && loc < |curr|
      modifies data
      ensures next == Swapped(curr, j, loc) && IsPermutation(next, data.Length1) && Holds(next, start)
    {
      SwapColumns(j, loc);
      SwapKeepsPermutation(curr, data.Length1, j, loc);
      next := curr;
      var k := next[j];
      next := next[j := next[loc]];
      next := next[loc := k];
    }

    /** The first j columns are in place when the requested order has no repetition. */
    static ghost predicate InPlace(curr: seq<nat>, perm: seq<nat>, j: nat)
      requires j <= |curr| == |perm|
    {
      InRange(perm[..j], |curr|) && (NoDuplicates(perm) ==> curr[..j] == perm[..j])
    }

    static lemma PlaceNext(curr: seq<nat>, perm: seq<nat>, j: nat, loc: nat)
      requires j < |curr| == |perm| && loc < |curr| && curr[loc] == perm[j] < |curr| && InPlace(curr, perm, j)
      ensures NoDuplicates(perm) ==> loc >= j
      ensures InPlace(Swapped(curr, j, loc), perm, j + 1)
    {
      assert perm[..j + 1] == perm[..j] + [perm[j]];
      if NoDuplicates(perm) {
        assert loc < j ==> perm[loc] == perm[..j][loc];
        assert Swapped(curr, j, loc)[..j + 1] == curr[..j] + [perm[j]];
      }
    }

    /** curr is a permutation made by the moves, and the data is the start permuted by it. */
    ghost predicate Tracked(curr: seq<nat>, start: Mat, moves: seq<(nat, nat)>)
      reads data
    {
      && IsPermutation(curr, data.Length1) && Holds(curr, start)
      && AreMoves(moves, data.Length1) && curr == Moved(moves, data.Length1)
    }

    /** Bring column perm[j] of the start to place j; fails when there is no such column. */
    method PlaceColumn(perm: seq<nat>, j: nat, curr: seq<nat>, ghost start: Mat, ghost moves: seq<(nat, nat)>)
      returns (ok: bool, next: seq<nat>, ghost made: seq<(nat, nat)>)
      requires j < |perm| == |curr| == data.Length1 && Tracked(curr, start, moves) && InPlace(curr, perm, j)
      modifies data
      ensures Tracked(next, start, made) && |moves| <= |made| <= |moves| + 1
      ensures ok <==> perm[j] < data.Length1
      ensures ok ==> InPlace(next, perm, j + 1)
      ensures NoDuplicates(perm) && j == |perm| - 1 ==> |made| == |moves|
    {
      next, made := curr, moves;
      var loc := Find(curr, perm[j]);
      if loc == |curr| {
        return false, curr, moves;
      }
      PlaceNext(curr, perm, j, loc);
      if j != loc {
        MovedPush(moves, |curr|, j, loc);
        hide Moved, AreMoves, Swapped;
        next := SwapStep(curr, j, loc, start);
        made := moves + [(j, loc)];
      }
      ok := true;
    }

    /** Fails exactly for a wrong number of indices or an index out of range. The data is always the
        start permuted by the tracked indices, which are the moves made so far; they end equal to the
        request exactly when it has no duplicates, and then there are fewer moves than columns. */
    method Permute(perm: seq<nat>) returns (ok: bool, ghost curr: seq<nat>, ghost moves: seq<(nat, nat)>)
      modifies data
      ensures ok <==> |perm| == data.Length1 && InRange(perm, data.Length1)
      ensures IsPermutation(curr, data.Length1) && Holds(curr, old(Contents()))
      ensures AreMoves(moves, data.Length1) && curr == Moved(moves, data.Length1)
      ensures ok ==> (curr == perm <==> NoDuplicates(perm))
      ensures ok && NoDuplicates(perm) && data.Length1 > 0 ==> |moves| <= data.Length1 - 1
      ensures forall i, k :: 0 <= i < data.Length0 && 0 <= k < data.Length1 ==>
                curr[k] < data.Length1 && data[i, k] == old(data[i, curr[k]])
    {
      var ncols := data.Length1;
      var currIndices: seq<nat> := seq(ncols, j => j);
      ghost var start := Contents();
      moves := [];
      forall v: nat | v < ncols ensures v in currIndices {
        assert currIndices[v] == v;
      }
      assert Tracked(currIndices, start, moves);
      if |perm| != ncols {
        return false, currIndices, moves;
      }
      var j := 0;
      while j < ncols
        invariant 0 <= j <= ncols == |currIndices| && Tracked(currIndices, start, moves)
        invariant InPlace(currIndices, perm, j)
        invariant |moves| <= j && (NoDuplicates(perm) && 0 < j == ncols ==> |moves| <= j - 1)
      {
        hide Tracked, NoDuplicates;
        ok, currIndices, moves := PlaceColumn(perm, j, currIndices, start, moves);
        if !ok {
          curr := currIndices;
          return;
        }
        TrackedLength(currIndices, start, moves);
        j := j + 1;
      }
      assert perm[..j] == perm && currIndices[..j] == currIndices;
      curr := currIndices;
      ok := true;
    }

    lemma TrackedLength(curr: seq<nat>, start: Mat, moves: seq<(nat, nat)>)
      requires Tracked(curr, start, moves)
      ensures |curr| == data.Length1
    {
    }

    /** Position of a value, or the length when it is absent. */
    method Find(s: seq<nat>, v: nat) returns (loc: nat)
      ensures loc <= |s| && (loc < |s| ==> s[loc] == v) && (loc == |s| ==> v !in s)
    {
      loc := 0;
      while loc < |s|
        invariant 0 <= loc <= |s| && v !in s[..loc]
      {
        if s[loc] == v {
          return;
        }
        loc := loc + 1;
      }
    }

    method SwapColumns(j: nat, loc: nat)
      requires j < data.Length1 && loc < data.Length1
      modifies data
      ensures forall i, k :: 0 <= i < data.Length0 && 0 <= k < data.Length1 ==>
                data[i, k] == old(data[i, if k == j then loc else if k == loc then j else k])
    {
      var i := 0;
      while i < data.Length0
        invariant 0 <= i <= data.Length0
        invariant forall r, k :: 0 <= r < i && 0 <= k < data.Length1 ==>
                    data[r, k] == old(data[r, if k == j then loc else if k == loc then j else k])
        invariant forall r, k :: i <= r < data.Length0 && 0 <= k < data.Length1 ==> data[r, k] == old(data[r, k])
      {
        var temp := data[i, loc];
        data[i, loc] := data[i, j];
        data[i, j] := temp;
        i := i + 1;
      }
    }

    // ----- the blocked Gram matrix

    /** One team's share for one pair of column blocks: products of the team's rows are collected in
        scratch space and then added to the result, and to its mirror image for two different blocks. */
    method RunBlock(a: Mat, kBlock: nat, ib: nat, jb: nat, nj: nat, colBlock: nat)
      requires colBlock > 0 && ib % colBlock == 0 && jb % colBlock == 0 && ib <= jb < data.Length1
      requires data.Length0 == data.Length1 && kBlock <= |a|
      requires nj == if jb + colBlock <= data.Length1 then colBlock else data.Length1 - jb
      modifies data
      ensures forall i: nat, j: nat :: i < data.Length1 && j < data.Length1 ==>
                data[i, j] == old(data[i, j])
                  + if InPair(i, j, colBlock, ib, jb) then RowRange(a, i, j, kBlock, RowEnd(a, kBlock)) else 0.0
    {
      var n := data.Length1;
      var tmp := Scratch(a, kBlock, ib, jb, colBlock);
      forall i: nat, j: nat | i < n && j < n
        ensures BlockStart(i, colBlock) == ib <==> ib <= i < ib + colBlock
        ensures BlockStart(j, colBlock) == jb <==> jb <= j < jb + colBlock
      {
        BlockStartSpec(i, colBlock, ib);
        BlockStartSpec(j, colBlock, jb);
      }
      forall i, j | ib <= i < ib + colBlock && i < n && jb <= j < jb + nj {
        data[i, j] := data[i, j] + tmp[i - ib, j - jb];
      }
      if jb != ib {
        forall i, j | ib <= i < ib + colBlock && i < n && jb <= j < jb + nj {
          data[j, i] := data[j, i] + tmp[i - ib, j - jb];
        }
      }
      forall i: nat, j: nat | i < n && j < n
        ensures data[i, j] == old(data[i, j])
                  + if InPair(i, j, colBlock, ib, jb) then RowRange(a, i, j, kBlock, RowEnd(a, kBlock)) else 0.0
      {
        RowRangeSymmetric(a, i, j, kBlock, RowEnd(a, kBlock));
      }
    }

    static function RowEnd(a: Mat, kBlock: nat): (e: nat)
      requires kBlock <= |a|
      ensures kBlock <= e <= |a|
    {
      if kBlock + ColumnMax.ROW_BLOCK <= |a| then kBlock + ColumnMax.ROW_BLOCK else |a|
    }

    static lemma RowRangeSymmetric(a: Mat, i: nat, j: nat, lo: nat, hi: nat)
      requires lo <= hi
      ensures RowRange(a, i, j, lo, hi) == RowRange(a, j, i, lo, hi)
    {
      SumExt(lo, ColumnProducts(a, a, i, j), ColumnProducts(a, a, j, i));
      SumExt(hi, ColumnProducts(a, a, i, j), ColumnProducts(a, a, j, i));
    }

    /** Products of two column blocks over the rows of one team. */
    static method Scratch(a: Mat, kBlock: nat, ib: nat, jb: nat, colBlock: nat) returns (tmp: array2<real>)
      requires kBlock <= |a|
      ensures fresh(tmp) && tmp.Length0 == tmp.Length1 == colBlock
      ensures forall ii: nat, jj: nat :: ii < colBlock && jj < colBlock ==>
                tmp[ii, jj] == RowRange(a, ib + ii, jb + jj, kBlock, RowEnd(a, kBlock))
    {
      tmp := new real[colBlock, colBlock];
      forall ii, jj | 0 <= ii < colBlock && 0 <= jj < colBlock {
        tmp[ii, jj] := 0.0;
      }
      var kk := 0;
      while kk < ColumnMax.ROW_BLOCK && kBlock + kk < |a|
        invariant 0 <= kk <= ColumnMax.ROW_BLOCK && kBlock + kk <= |a|
        invariant forall ii: nat, jj: nat :: ii < colBlock && jj < colBlock ==>
                    tmp[ii, jj] == RowRange(a, ib + ii, jb + jj, kBlock, kBlock + kk)
      {
        var k := kBlock + kk;
        forall ii, jj | 0 <= ii < colBlock && 0 <= jj < colBlock {
          tmp[ii, jj] := tmp[ii, jj] + At(a, k, ib + ii) * At(a, k, jb + jj);
        }
        kk := kk + 1;
      }
    }

    /** Column block size by number of columns. */
    static function ColBlockFor(n: nat): (b: nat)
      ensures b > 0
    {
      if n < 2 then 1 else if n < 4 then 2 else if n < 8 then 4 else if n < 16 then 8 else if n < 32 then 16 else 32
    }

    /** What is added so far: whole row blocks before kBlock, and of this one the pairs before (ib, jb). */
    ghost predicate Accumulated(a: Mat, size: nat, kBlock: nat, ib: nat, jb: nat)
      requires size > 0 && kBlock <= |a| && data.Length0 == data.Length1
      reads data
    {
      forall i: nat, j: nat :: i < data.Length1 && j < data.Length1 ==>
        data[i, j] == Sum(if PairBefore(i, j, size, ib, jb) then RowEnd(a, kBlock) else kBlock,
                          ColumnProducts(a, a, i, j))
    }

    static lemma NextPair(i: nat, j: nat, size: nat, ib: nat, jb: nat)
      requires size > 0 && ib % size == 0 && jb % size == 0 && ib <= jb
      ensures (jb + size) % size == 0
      ensures PairBefore(i, j, size, ib, jb + size) <==> PairBefore(i, j, size, ib, jb) || InPair(i, j, size, ib, jb)
      ensures !(PairBefore(i, j, size, ib, jb) && InPair(i, j, size, ib, jb))
    {
      NextMultiple(jb, size);
      BlockStartSpec(i, size, jb);
      BlockStartSpec(j, size, jb);
      BlockStartSpec(i, size, jb + size);
      BlockStartSpec(j, size, jb + size);
    }

    static lemma NextMultiple(b: nat, size: nat)
      requires size > 0 && b % size == 0
      ensures (b + size) % size == 0
    {
      SubtractMultiple(b, size);
      Distribute(b / size, 1, size);
      QuotientUnique(b + size, size, b / size + 1, 0);
    }

    static lemma NextRow(i: nat, j: nat, size: nat, n: nat, ib: nat, jb: nat)
      requires size > 0 && ib % size == 0 && jb >= n && i < n && j < n
      ensures (ib + size) % size == 0
      ensures PairBefore(i, j, size, ib, jb) <==> PairBefore(i, j, size, ib + size, ib + size)
    {
      NextMultiple(ib, size);
      BlockStartSpec(i, size, ib);
      BlockStartSpec(j, size, ib);
      BlockStartSpec(i, size, ib + size);
      BlockStartSpec(j, size, ib + size);
    }

    static lemma AllPairs(i: nat, j: nat, size: nat, n: nat, ib: nat)
      requires size > 0 && ib % size == 0 && ib >= n && i < n && j < n
      ensures PairBefore(i, j, size, ib, ib)
    {
      BlockStartSpec(i, size, ib);
      BlockStartSpec(j, size, ib);
    }

    /** The Gram matrix, both triangles, team by team over blocks of rows. */
    method Gramian(a: Mat)
      requires data.Length0 == data.Length1
      modifies data
      ensures Contents() == Gram(a, data.Length1)
      ensures forall i: nat, j: nat, s: Vec ::
                i < data.Length0 && j < data.Length1 && |s| == |a|
                && (forall k: nat :: k < |a| ==> s[k] == At(a, k, i) * At(a, k, j)) ==>
                data[i, j] == Total(s)
    {
      hide Total;
      var n := data.Length1;
      var size := ColBlockFor(n);
      forall i, j | 0 <= i < n && 0 <= j < n {
        data[i, j] := 0.0;
      }
      var kBlock := 0;
      while kBlock < |a|
        invariant 0 <= kBlock <= |a| && Accumulated(a, size, kBlock, 0, 0)
        decreases |a| - kBlock
      {
        RunTeam(a, kBlock, size);
        kBlock := RowEnd(a, kBlock);
      }
      SameEntries(Contents(), Gram(a, n), n, n);
      GramIsPlain(a);
    }

    lemma GramIsPlain(a: Mat)
      requires data.Length0 == data.Length1 && Contents() == Gram(a, data.Length1)
      ensures forall i: nat, j: nat, s: Vec ::
                i < data.Length0 && j < data.Length1 && |s| == |a|
                && (forall k: nat :: k < |a| ==> s[k] == At(a, k, i) * At(a, k, j)) ==>
                data[i, j] == Total(s)
    {
      hide Gram, At, Total, Sum;
      forall i: nat, j: nat, s: Vec |
        i < data.Length0 && j < data.Length1 && |s| == |a|
        && (forall k: nat :: k < |a| ==> s[k] == At(a, k, i) * At(a, k, j))
        ensures data[i, j] == Total(s)
      {
        assert At(Contents(), i, j) == data[i, j];
        GramEntry(a, data.Length1, i, j);
        SumIsTotal(|a|, ColumnProducts(a, a, i, j), s);
      }
    }

    static lemma GramEntry(a: Mat, n: nat, i: nat, j: nat)
      requires i < n && j < n
      ensures At(Gram(a, n), i, j) == Sum(|a|, ColumnProducts(a, a, i, j))
    {
    }

    method RunTeam(a: Mat, kBlock: nat, size: nat)
      requires data.Length0 == data.Length1 && kBlock < |a| && size > 0 && Accumulated(a, size, kBlock, 0, 0)
      modifies data
      ensures Accumulated(a, size, RowEnd(a, kBlock), 0, 0)
    {
      var n := data.Length1;
      var ib := 0;
      while ib < n
        invariant ib % size == 0 && Accumulated(a, size, kBlock, ib, ib)
        decreases n - ib
      {
        RunBlockRow(a, kBlock, size, ib);
        NextMultiple(ib, size);
        ib := ib + size;
      }
      forall i: nat, j: nat | i < n && j < n
        ensures data[i, j] == Sum(RowEnd(a, kBlock), ColumnProducts(a, a, i, j))
      {
        AllPairs(i, j, size, n, ib);
      }
    }

    method RunBlockRow(a: Mat, kBlock: nat, size: nat, ib: nat)
      requires data.Length0 == data.Length1 && kBlock <= |a| && size > 0 && ib % size == 0 && ib < data.Length1
      requires Accumulated(a, size, kBlock, ib, ib)
      modifies data
      ensures Accumulated(a, size, kBlock, ib + size, ib + size)
    {
      var n := data.Length1;
      var jb := ib;
      while jb < n
        invariant ib <= jb && jb % size == 0 && Accumulated(a, size, kBlock, ib, jb)
        decreases n - jb
      {
        RunBlock(a, kBlock, ib, jb, if jb + size <= n then size else n - jb, size);
        NextMultiple(jb, size);
        var next := jb + size;
        forall i: nat, j: nat | i < n && j < n
          ensures data[i, j] == Sum(if PairBefore(i, j, size, ib, next) then RowEnd(a, kBlock) else kBlock,
                                    ColumnProducts(a, a, i, j))
        {
          NextPair(i, j, size, ib, jb);
        }
        jb := next;
      }
      forall i: nat, j: nat | i < n && j < n
        ensures PairBefore(i, j, size, ib, jb) <==> PairBefore(i, j, size, ib + size, ib + size)
      {
        NextRow(i, j, size, n, ib, jb);
      }
    }
  }
}
