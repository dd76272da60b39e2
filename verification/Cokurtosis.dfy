/** The moment tensor from its unique blocks: every entry of every block is written at every arrangement
    of its four indices. */
module Cokurtosis {
  import opened Arithmetic
  import opened Vectors
  import opened Sequences
  import opened Mttkrp
  import opened Permutations
  import opened BlockEnumeration
  import opened Moments
  import opened MomentBlocks

  // ----- reconstruction

  /** All arrangements of one quadruple. */
  ghost function Arrangements(p: Quad): iset<Quad>
  {
    iset e: Quad | IsArrangement(e, p)
  }

  ghost predicate IsCube(moment: array4<real>, n: nat)
  {
    moment.Length0 == moment.Length1 == moment.Length2 == moment.Length3 == n
  }

  /** Entry (ii, ji) of a block stands for an arrangement of the four columns in e. */
  ghost predicate StandsFor(job: Job, q: Quad, ii: nat, ji: nat, e: Quad)
    requires job.s > 0
  {
    ii < job.RowLimit(q) && ji < job.ColLimit(q) && IsArrangement(e, job.Decode(q, ii, ji))
  }

  /** v is an entry of the block that stands for e. */
  ghost predicate FromBlock(job: Job, q: Quad, block: Mat, e: Quad, v: real)
    requires job.s > 0
  {
    exists ii: nat, ji: nat :: StandsFor(job, q, ii, ji, e) && v == At(block, ii, ji)
  }

  ghost predicate FromBlocks(job: Job, blocks: seq<Quad>, results: seq<Mat>, e: Quad, v: real)
    requires job.s > 0 && |blocks| == |results|
  {
    exists b :: 0 <= b < |blocks| && FromBlock(job, blocks[b], results[b], e, v)
  }

  /** The entries written so far all come from a block. */
  ghost predicate Written(moment: array4<real>, done: iset<Quad>, job: Job, blocks: seq<Quad>, results: seq<Mat>)
    requires IsCube(moment, job.cols) && job.s > 0 && |blocks| == |results|
    reads moment
  {
    forall e :: e in done && InTensor(e, job.cols) ==> FromBlocks(job, blocks, results, e, moment[e.i, e.j, e.k, e.l])
  }

  /** Arrangements of p that come, as lists, up to cur in dictionary order. */
  ghost function UpTo(p: Quad, cur: seq<nat>): iset<Quad>
  {
    iset e: Quad | Reached(Indices(e), Indices(p), cur)
  }

  function FromList(s: seq<nat>): (q: Quad)
    requires |s| == 4
    ensures Indices(q) == s
  {
    Quad(s[0], s[1], s[2], s[3])
  }

  lemma SameIndices(a: Quad, b: Quad)
    requires Indices(a) == Indices(b)
    ensures a == b
  {
    assert Indices(a)[0] == Indices(b)[0] && Indices(a)[1] == Indices(b)[1];
    assert Indices(a)[2] == Indices(b)[2] && Indices(a)[3] == Indices(b)[3];
  }

  lemma UpToFirst(p: Quad, first: seq<nat>)
    requires Ascending(first) && Arranged(first, Indices(p)) && |first| == 4
    ensures UpTo(p, first) == iset{FromList(first)}
  {
    hide Indices, Reached, Arranged, Ascending;
    forall e: Quad ensures Reached(Indices(e), Indices(p), first) <==> e == FromList(first) {
      ReachedFirst(Indices(e), Indices(p), first);
      if Indices(e) == first {
        SameIndices(e, FromList(first));
      }
    }
  }

  lemma UpToStep(p: Quad, cur: seq<nat>, next: seq<nat>)
    requires Arranged(cur, Indices(p)) && NextPermutation(cur) == Next(true, next) && |next| == 4
    ensures UpTo(p, next) == UpTo(p, cur) + iset{FromList(next)}
  {
    hide Indices, Reached, Arranged, NextPermutation;
    forall e: Quad
      ensures Reached(Indices(e), Indices(p), next) <==> Reached(Indices(e), Indices(p), cur) || e == FromList(next)
    {
      ReachedNext(Indices(e), Indices(p), cur);
      if Indices(e) == next {
        SameIndices(e, FromList(next));
      }
    }
  }

  lemma UpToLast(p: Quad, last: seq<nat>)
    requires Arranged(last, Indices(p)) && !NextPermutation(last).found
    ensures UpTo(p, last) == Arrangements(p)
  {
    hide Indices, Reached, Arranged, NextPermutation;
    forall e: Quad ensures Reached(Indices(e), Indices(p), last) <==> IsArrangement(e, p) {
      ReachedLast(Indices(e), Indices(p), last);
    }
  }

  /** The next arrangement is nearer to the end. */
  lemma NextDecreases(cur: seq<nat>, next: seq<nat>)
    requires |cur| == |next| == 4 && Permutations.Precedes(cur, next)
    ensures || cur[0] < next[0]
            || (cur[0] == next[0] && cur[1] < next[1])
            || (cur[0] == next[0] && cur[1] == next[1] && cur[2] < next[2])
            || (cur[0] == next[0] && cur[1] == next[1] && cur[2] == next[2] && cur[3] < next[3])
  {
    var k := FirstDifference(cur, next);
    assert forall i :: 0 <= i < k ==> cur[..k][i] == next[..k][i];
  }

  lemma ArrangedBelow(p: Quad, s: seq<nat>, n: nat)
    requires Arranged(s, Indices(p)) && InTensor(p, n)
    ensures |s| == 4 && forall k :: 0 <= k < 4 ==> s[k] < n
  {
    SameLength(s, Indices(p));
    forall k | 0 <= k < 4 ensures s[k] < n {
      ArrangedMember(s, Indices(p), s[k]);
    }
  }

  ghost function Contents(moment: array4<real>, n: nat): (entries: imap<Quad, real>)
    requires IsCube(moment, n)
    reads moment
    ensures forall e :: e in entries <==> InTensor(e, n)
  {
    imap e: Quad | InTensor(e, n) :: moment[e.i, e.j, e.k, e.l]
  }

  /** Entries of the set become v and all others stay. */
  ghost function Spread(before: imap<Quad, real>, entries: iset<Quad>, v: real): (after: imap<Quad, real>)
    ensures after.Keys == before.Keys
  {
    imap e | e in before :: if e in entries then v else before[e]
  }

  lemma SpreadOnce(before: imap<Quad, real>, here: Quad, v: real)
    requires here in before
    ensures before[here := v] == Spread(before, iset{here}, v)
  {
  }

  lemma SpreadTwice(before: imap<Quad, real>, a: iset<Quad>, b: iset<Quad>, v: real)
    ensures Spread(Spread(before, a, v), b, v) == Spread(before, a + b, v)
  {
  }

  /** A list of four columns that arranges p. */
  ghost predicate IsCursor(p: Quad, cur: seq<nat>, n: nat)
  {
    Arranged(cur, Indices(p)) && |cur| == 4 && forall k :: 0 <= k < 4 ==> cur[k] < n
  }

  method WriteEntry(moment: array4<real>, n: nat, indices: seq<nat>, v: real)
    requires IsCube(moment, n) && |indices| == 4 && forall k :: 0 <= k < 4 ==> indices[k] < n
    modifies moment
    ensures Contents(moment, n) == Spread(old(Contents(moment, n)), iset{FromList(indices)}, v)
  {
    ghost var here, before := FromList(indices), Contents(moment, n);
    moment[indices[0], indices[1], indices[2], indices[3]] := v;
    assert Contents(moment, n) == before[here := v];
    SpreadOnce(before, here, v);
  }

  method WriteFirst(moment: array4<real>, n: nat, p: Quad, v: real) returns (first: seq<nat>)
    requires IsCube(moment, n) && InTensor(p, n)
    modifies moment
    ensures IsCursor(p, first, n)
    ensures Contents(moment, n) == Spread(old(Contents(moment, n)), UpTo(p, first), v)
  {
    hide Indices, Arranged, Spread, Contents;
    first := Sorted(Indices(p));
    assert Arranged(first, Indices(p)) by { SortedArranged(Indices(p)); }
    SortedIsAscending(Indices(p));
    ArrangedBelow(p, first, n);
    UpToFirst(p, first);
    WriteEntry(moment, n, first, v);
  }

  lemma SortedArranged(s: seq<nat>)
    ensures Arranged(Sorted(s), s)
  {
  }

  lemma NextCursor(p: Quad, cur: seq<nat>, next: seq<nat>, n: nat)
    requires InTensor(p, n) && IsCursor(p, cur, n) && NextPermutation(cur) == Next(true, next)
    ensures IsCursor(p, next, n) && Permutations.Precedes(cur, next)
    ensures UpTo(p, next) == UpTo(p, cur) + iset{FromList(next)}
  {
    hide Indices, Arranged, NextPermutation, UpTo, Permutations.Precedes;
    ReachedNext(cur, Indices(p), cur);
    ArrangedBelow(p, next, n);
    UpToStep(p, cur, next);
  }

  /** Sort the indices, then write the value there and at every next permutation: at every arrangement, and
      nowhere else. */
  method WriteArrangements(moment: array4<real>, n: nat, p: Quad, v: real)
    requires IsCube(moment, n) && InTensor(p, n)
    modifies moment
    ensures Contents(moment, n) == Spread(old(Contents(moment, n)), Arrangements(p), v)
  {
    ghost var before := Contents(moment, n);
    var indices := WriteFirst(moment, n, p, v);
    hide Indices, Arranged, NextPermutation, UpTo, Permutations.Precedes, Arrangements, Contents, Spread;
    var next := NextPermutation(indices);
    while next.found
      invariant IsCursor(p, indices, n) && next == NextPermutation(indices)
      invariant Contents(moment, n) == Spread(before, UpTo(p, indices), v)
      decreases n - indices[0], n - indices[1], n - indices[2], n - indices[3]
    {
      NextCursor(p, indices, next.list, n);
      NextDecreases(indices, next.list);
      SpreadTwice(before, UpTo(p, indices), iset{FromList(next.list)}, v);
      WriteEntry(moment, n, next.list, v);
      indices := next.list;
      next := NextPermutation(indices);
    }
    UpToLast(p, indices);
  }

  /** Written out: after the writes an entry is v at the arrangements of p, and as before elsewhere. */
  lemma SpreadIsPlain(moment: array4<real>, n: nat, before: imap<Quad, real>, p: Quad, v: real)
    requires IsCube(moment, n) && Contents(moment, n) == Spread(before, Arrangements(p), v)
    ensures forall e: Quad :: InTensor(e, n) ==>
              e in before && moment[e.i, e.j, e.k, e.l]
                             == if multiset{e.i, e.j, e.k, e.l} == multiset{p.i, p.j, p.k, p.l} then v else before[e]
  {
    forall e: Quad | InTensor(e, n)
      ensures e in before
      ensures moment[e.i, e.j, e.k, e.l]
           == if multiset{e.i, e.j, e.k, e.l} == multiset{p.i, p.j, p.k, p.l} then v else before[e]
    {
      ContentsEntry(moment, n, e);
      assert multiset(Indices(e)) == multiset{e.i, e.j, e.k, e.l};
      assert multiset(Indices(p)) == multiset{p.i, p.j, p.k, p.l};
    }
  }

  lemma ContentsEntry(moment: array4<real>, n: nat, e: Quad)
    requires IsCube(moment, n) && InTensor(e, n)
    ensures e in Contents(moment, n) && Contents(moment, n)[e] == moment[e.i, e.j, e.k, e.l]
  {
  }

  lemma WrittenMore(moment: array4<real>, values: imap<Quad, real>, p: Quad, v: real, job: Job, before: iset<Quad>,
      blocks: seq<Quad>, results: seq<Mat>)
    requires job.s > 0 && |blocks| == |results| && IsCube(moment, job.cols)
    requires forall e :: e in values <==> InTensor(e, job.cols)
    requires Contents(moment, job.cols) == Spread(values, Arrangements(p), v)
    requires forall e :: e in Arrangements(p) ==> FromBlocks(job, blocks, results, e, v)
    requires forall e :: e in before && InTensor(e, job.cols) ==> FromBlocks(job, blocks, results, e, values[e])
    ensures Written(moment, before + Arrangements(p), job, blocks, results)
  {
    hide Arrangements, FromBlocks;
    forall e | e in before + Arrangements(p) && InTensor(e, job.cols)
      ensures FromBlocks(job, blocks, results, e, moment[e.i, e.j, e.k, e.l])
    {
      assert moment[e.i, e.j, e.k, e.l] == Contents(moment, job.cols)[e];
    }
  }

  /** Mixed-radix digits of the linear position in a block; m rows, and sk * m positions per last index. */
  lemma DecodeDigits(m: nat, sk: nat, ii: nat, ji: nat, linIdx: nat)
    requires m > 0 && sk > 0 && ii < m && linIdx == ii + ji * m
    ensures m * sk > 0 && linIdx / (m * sk) == ji / sk
    ensures (linIdx % (m * sk)) / m == ji % sk && (linIdx % (m * sk)) % m == ii
  {
    SubtractMultiple(ji, sk);
    var a, b := ji / sk, ji % sk;
    Distribute(a * sk, b, m);
    assert (a * sk) * m == (m * sk) * a;
    MulMono(b + 1, sk, m);
    Distribute(b, 1, m);
    assert sk * m == m * sk;
    QuotientUnique(linIdx, m * sk, a, b * m + ii);
    QuotientUnique(b * m + ii, m, b, ii);
  }

  /** Entry (ii, ji) of a block: the linear position is taken apart into the four column positions. */
  method DecodePosition(job: Job, q: Quad, ii: nat, ji: nat) returns (r: Quad)
    requires job.s > 0 && IsUnique(q, job.NBlocks()) && ii < job.RowLimit(q)
    ensures r == job.Decode(q, ii, ji)
  {
    job.BlocksOf(q);
    var si: nat, sj: nat, sk: nat := job.BlockSize(q.i), job.BlockSize(q.j), job.BlockSize(q.k);
    r := DecodeWith(si, sj, sk, q, job.s, ii, ji);
  }

  method DecodeWith(si: nat, sj: nat, sk: nat, q: Quad, s: nat, ii: nat, ji: nat) returns (r: Quad)
    requires si > 0 && sj > 0 && sk > 0 && ii < si * sj
    ensures r == Quad(Place(q.i, s, Low(ii, si)), Place(q.j, s, High(ii, si)),
                      Place(q.k, s, Low(ji, sk)), Place(q.l, s, High(ji, sk)))
  {
    var perLast := si * sj * sk;
    var linIdx := ii + ji * (si * sj);
    DecodeDigits(si * sj, sk, ii, ji, linIdx);
    var lIdx := linIdx / perLast + q.l * s;
    var b := linIdx % perLast;
    var kIdx := b / (si * sj) + q.k * s;
    var c := b % (si * sj);
    var jIdx := c / si + q.j * s;
    var iIdx := c % si + q.i * s;
    assert lIdx == Place(q.l, s, High(ji, sk)) && kIdx == Place(q.k, s, Low(ji, sk));
    assert c == ii && jIdx == Place(q.j, s, High(ii, si)) && iIdx == Place(q.i, s, Low(ii, si));
    r := Quad(iIdx, jIdx, kIdx, lIdx);
  }

  lemma DecodeInTensor(job: Job, q: Quad, ii: nat, ji: nat)
    requires job.s > 0 && IsUnique(q, job.NBlocks()) && ii < job.RowLimit(q) && ji < job.ColLimit(q)
    ensures InTensor(job.Decode(q, ii, ji), job.cols)
  {
    job.BlocksOf(q);
    job.BlockSizeSpec(q.i);
    job.BlockSizeSpec(q.j);
    job.BlockSizeSpec(q.k);
    job.BlockSizeSpec(q.l);
    QuotientBelow(ii, job.BlockSize(q.i), job.BlockSize(q.j));
    QuotientBelow(ji, job.BlockSize(q.k), job.BlockSize(q.l));
  }

  /** Entries that the first `rows` rows of the first columns of a block cover. */
  ghost predicate CoveredBy(job: Job, q: Quad, done: iset<Quad>, ii: nat, ji: nat)
    requires job.s > 0
  {
    Arrangements(job.Decode(q, ii, ji)) <= done
  }

  ghost predicate BlockDone(job: Job, q: Quad, done: iset<Quad>)
    requires job.s > 0
  {
    forall ii: nat, ji: nat :: ii < job.RowLimit(q) && ji < job.ColLimit(q) ==> CoveredBy(job, q, done, ii, ji)
  }

  lemma EntriesFromBlock(job: Job, blocks: seq<Quad>, results: seq<Mat>, b: nat, ii: nat, ji: nat, p: Quad)
    requires job.s > 0 && b < |blocks| == |results| && p == job.Decode(blocks[b], ii, ji)
    requires ii < job.RowLimit(blocks[b]) && ji < job.ColLimit(blocks[b])
    ensures forall e :: e in Arrangements(p) ==> FromBlocks(job, blocks, results, e, At(results[b], ii, ji))
  {
    hide At, IsArrangement;
    forall e | e in Arrangements(p) ensures FromBlocks(job, blocks, results, e, At(results[b], ii, ji)) {
      assert StandsFor(job, blocks[b], ii, ji, e);
      assert FromBlock(job, blocks[b], results[b], e, At(results[b], ii, ji));
    }
  }

  /** Entry (ii, ji) of block b goes to every arrangement of its four columns. */
  method WriteBlockEntry(job: Job, blocks: seq<Quad>, results: seq<Mat>, b: nat, moment: array4<real>, ii: nat,
      ji: nat, ghost before: iset<Quad>)
    returns (ghost done: iset<Quad>)
    requires job.Valid() && IsCube(moment, job.cols) && b < |blocks| == |results|
    requires IsUnique(blocks[b], job.NBlocks()) && ii < job.RowLimit(blocks[b]) && ji < job.ColLimit(blocks[b])
    requires Written(moment, before, job, blocks, results)
    modifies moment
    ensures before <= done && CoveredBy(job, blocks[b], done, ii, ji) && Written(moment, done, job, blocks, results)
  {
    hide Job.Decode, Job.RowLimit, Job.ColLimit, Job.BlockSize, Arrangements, FromBlocks, Spread;
    var p := DecodePosition(job, blocks[b], ii, ji);
    DecodeInTensor(job, blocks[b], ii, ji);
    EntriesFromBlock(job, blocks, results, b, ii, ji, p);
    ghost var values := Contents(moment, job.cols);
    WriteArrangements(moment, job.cols, p, At(results[b], ii, ji));
    WrittenMore(moment, values, p, At(results[b], ii, ji), job, before, blocks, results);
    done := before + Arrangements(p);
  }

  /** Entries of the block that come before (ii, ji), column by column, are covered. */
  ghost predicate CoveredBefore(job: Job, q: Quad, done: iset<Quad>, ii: nat, ji: nat)
    requires job.s > 0
  {
    && (forall r: nat, c: nat :: c < ji && r < job.RowLimit(q) ==> CoveredBy(job, q, done, r, c))
    && (forall r: nat :: r < ii ==> CoveredBy(job, q, done, r, ji))
  }

  lemma CoveredNext(job: Job, q: Quad, before: iset<Quad>, done: iset<Quad>, ii: nat, ji: nat)
    requires job.s > 0 && CoveredBefore(job, q, before, ii, ji) && before <= done && CoveredBy(job, q, done, ii, ji)
    ensures CoveredBefore(job, q, done, ii + 1, ji)
  {
    hide Arrangements, Job.RowLimit, Job.Decode;
    forall r: nat, c: nat | CoveredBy(job, q, before, r, c) ensures CoveredBy(job, q, done, r, c) {
    }
  }

  lemma CoveredColumn(job: Job, q: Quad, done: iset<Quad>, ji: nat)
    requires job.s > 0 && job.RowLimit(q) >= 0 && CoveredBefore(job, q, done, job.RowLimit(q), ji)
    ensures CoveredBefore(job, q, done, 0, ji + 1)
  {
    hide CoveredBy, Job.RowLimit;
  }

  /** One block's matrix is spread over the tensor. */
  method WriteBlock(job: Job, blocks: seq<Quad>, results: seq<Mat>, b: nat, moment: array4<real>,
      ghost before: iset<Quad>)
    returns (ghost done: iset<Quad>)
    requires job.Valid() && IsCube(moment, job.cols) && b < |blocks| == |results|
    requires IsUnique(blocks[b], job.NBlocks()) && Written(moment, before, job, blocks, results)
    modifies moment
    ensures before <= done && BlockDone(job, blocks[b], done) && Written(moment, done, job, blocks, results)
  {
    var q := blocks[b];
    job.BlocksOf(q);
    hide Job.RowLimit, Job.ColLimit, Written, IsUnique, CoveredBy;
    done := before;
    var ji := 0;
    while ji < job.ColLimit(q)
      invariant before <= done && Written(moment, done, job, blocks, results)
      invariant 0 <= ji <= job.ColLimit(q) && CoveredBefore(job, q, done, 0, ji)
    {
      var ii := 0;
      while ii < job.RowLimit(q)
        invariant before <= done && Written(moment, done, job, blocks, results)
        invariant 0 <= ii <= job.RowLimit(q) && CoveredBefore(job, q, done, ii, ji)
      {
        ghost var earlier := done;
        done := WriteBlockEntry(job, blocks, results, b, moment, ii, ji, done);
        CoveredNext(job, q, earlier, done, ii, ji);
        ii := ii + 1;
      }
      CoveredColumn(job, q, done, ji);
      ji := ji + 1;
    }
  }

  ghost predicate BlocksDone(job: Job, blocks: seq<Quad>, k: nat, done: iset<Quad>)
    requires job.s > 0 && k <= |blocks|
  {
    forall b :: 0 <= b < k ==> BlockDone(job, blocks[b], done)
  }

  lemma BlocksStayDone(job: Job, blocks: seq<Quad>, k: nat, before: iset<Quad>, after: iset<Quad>)
    requires job.s > 0 && k < |blocks| && before <= after
    requires BlocksDone(job, blocks, k, before) && BlockDone(job, blocks[k], after)
    ensures BlocksDone(job, blocks, k + 1, after)
  {
    hide BlockDone;
    forall b | 0 <= b < k ensures BlockDone(job, blocks[b], after) {
      BlockStaysDone(job, blocks[b], before, after);
    }
  }

  lemma BlockStaysDone(job: Job, q: Quad, before: iset<Quad>, after: iset<Quad>)
    requires job.s > 0 && before <= after && BlockDone(job, q, before)
    ensures BlockDone(job, q, after)
  {
    forall ii: nat, ji: nat | ii < job.RowLimit(q) && ji < job.ColLimit(q) ensures CoveredBy(job, q, after, ii, ji) {
      assert CoveredBy(job, q, before, ii, ji);
    }
  }

  // ----- completeness

  /** The four indices in order. */
  lemma SortedQuad(e: Quad) returns (p: Quad)
    ensures p.i <= p.j <= p.k <= p.l && IsArrangement(e, p)
  {
    SortedIsAscending(Indices(e));
    p := FromList(Sorted(Indices(e)));
  }

  lemma QuotientMonotone(a: nat, b: nat, s: nat)
    requires s > 0 && a <= b
    ensures a / s <= b / s
  {
    SubtractMultiple(a, s);
    SubtractMultiple(b, s);
    if a / s > b / s {
      MulMono(b / s + 1, a / s, s);
      Distribute(b / s, 1, s);
    }
  }

  /** A sorted quadruple of columns is decoded from a unique block. */
  lemma SortedIsDecoded(job: Job, p: Quad) returns (q: Quad, ii: nat, ji: nat)
    requires job.s > 0 && p.i <= p.j <= p.k <= p.l < job.cols
    ensures IsUnique(q, job.NBlocks()) && ii < job.RowLimit(q) && ji < job.ColLimit(q)
    ensures job.Decode(q, ii, ji) == p
  {
    var s := job.s;
    q := Quad(p.i / s, p.j / s, p.k / s, p.l / s);
    QuotientMonotone(p.i, p.j, s);
    QuotientMonotone(p.j, p.k, s);
    QuotientMonotone(p.k, p.l, s);
    job.ColumnInBlock(p.i);
    job.ColumnInBlock(p.j);
    job.ColumnInBlock(p.k);
    job.ColumnInBlock(p.l);
    ii := Combine(p.i % s, p.j % s, job.BlockSize(q.i), job.BlockSize(q.j));
    ji := Combine(p.k % s, p.l % s, job.BlockSize(q.k), job.BlockSize(q.l));
  }

  lemma Combine(lo: nat, hi: nat, size: nat, count: nat) returns (c: nat)
    requires lo < size && hi < count
    ensures c < size * count && Low(c, size) == lo && High(c, size) == hi
  {
    c := hi * size + lo;
    MulMono(hi + 1, count, size);
    Distribute(hi, 1, size);
    assert count * size == size * count;
    QuotientUnique(c, size, hi, lo);
  }

  /** Every entry of the tensor is written by some block. */
  lemma EveryEntryCovered(job: Job, quads: seq<Quad>, done: iset<Quad>, e: Quad)
    requires job.Valid() && Enumerates(quads, job.NBlocks()) && InTensor(e, job.cols)
    requires BlocksDone(job, quads, |quads|, done)
    ensures e in done
  {
    var p := SortedQuad(e);
    SortedInTensor(e, p, job.cols);
    var q, ii, ji := SortedIsDecoded(job, p);
    assert q in quads;
    assert CoveredBy(job, q, done, ii, ji);
    assert e in Arrangements(p);
  }

  lemma SortedInTensor(e: Quad, p: Quad, n: nat)
    requires InTensor(e, n) && IsArrangement(e, p)
    ensures p.l < n
  {
    assert p.l in multiset(Indices(p));
    assert p.l in Indices(e);
  }

  lemma AllWritten(job: Job, quads: seq<Quad>, results: seq<Mat>, moment: array4<real>, done: iset<Quad>)
    requires job.Valid() && Enumerates(quads, job.NBlocks()) && IsCube(moment, job.cols) && |quads| == |results|
    requires Written(moment, done, job, quads, results) && BlocksDone(job, quads, |quads|, done)
    ensures forall e :: InTensor(e, job.cols) ==> FromBlocks(job, quads, results, e, moment[e.i, e.j, e.k, e.l])
  {
    hide FromBlocks, BlocksDone;
    forall e | InTensor(e, job.cols) ensures FromBlocks(job, quads, results, e, moment[e.i, e.j, e.k, e.l]) {
      EveryEntryCovered(job, quads, done, e);
    }
  }

  lemma FromResult(job: Job, q: Quad, block: Mat, e: Quad, v: real)
    requires job.Valid() && job.HoldsBlock(block, q) && FromBlock(job, q, block, e, v)
    ensures v == job.Result(e)
  {
    hide Job.Decode, Job.RowLimit, Job.ColLimit, Job.Result, At, IsArrangement;
    var ii: nat, ji: nat :| StandsFor(job, q, ii, ji, e) && v == At(block, ii, ji);
    assert job.EntryIs(block, q, ii, ji);
    ResultSymmetric(job, e, job.Decode(q, ii, ji));
  }

  /** An entry that comes from blocks with results is a result. */
  lemma FromResults(job: Job, quads: seq<Quad>, results: seq<Mat>, e: Quad, v: real)
    requires job.Valid() && |quads| == |results| && FromBlocks(job, quads, results, e, v)
    requires forall b :: 0 <= b < |quads| ==> job.HoldsBlock(results[b], quads[b])
    ensures v == job.Result(e)
  {
    hide FromBlock, Job.HoldsBlock, Job.Result;
    var b :| 0 <= b < |quads| && FromBlock(job, quads[b], results[b], e, v);
    FromResult(job, quads[b], results[b], e, v);
  }

  /** The blocks of a job, from the filled index array. */
  method UniqueBlocks(n: nat) returns (blocks: seq<Quad>)
    ensures Enumerates(blocks, n) && |blocks| == UniqueBlockCount(n)
  {
    var indexArray := new nat[4 * UniqueBlockCount(n)];
    ghost var quads := GetIndexArray(n, indexArray);
    blocks := ReadBlocks(indexArray, quads);
  }

  /** All blocks are spread over the tensor, one after the other. */
  method WriteBlocks(job: Job, blocks: seq<Quad>, results: seq<Mat>, moment: array4<real>)
    returns (ghost done: iset<Quad>)
    requires job.Valid() && |results| == |blocks| && IsCube(moment, job.cols)
    requires forall b :: 0 <= b < |blocks| ==> IsUnique(blocks[b], job.NBlocks())
    modifies moment
    ensures BlocksDone(job, blocks, |blocks|, done) && Written(moment, done, job, blocks, results)
  {
    done := iset{};
    assert Written(moment, done, job, blocks, results) && BlocksDone(job, blocks, 0, done);
    hide Written, BlocksDone, BlockDone, IsUnique;
    var ki := 0;
    while ki < |results|
      invariant 0 <= ki <= |results| && BlocksDone(job, blocks, ki, done)
      invariant Written(moment, done, job, blocks, results)
    {
      ghost var before := done;
      done := WriteBlock(job, blocks, results, ki, moment, before);
      BlocksStayDone(job, blocks, ki, before, done);
      ki := ki + 1;
    }
  }

  /** The blocks that the teams have computed are those of the job, and every entry of the tensor is an
      entry of one of them. */
  ghost predicate IsCokurtosis(job: Job, garbage: Mat, blocks: seq<Quad>, results: seq<Mat>, moment: array4<real>)
    requires job.s > 0 && job.tile > 0 && job.teams > 0 && IsCube(moment, job.cols)
    reads moment
  {
    && |results| == |blocks| && Enumerates(blocks, job.NBlocks())
    && TeamsDone(job, results, blocks, garbage, job.teams)
    && forall e :: InTensor(e, job.cols) ==> FromBlocks(job, blocks, results, e, moment[e.i, e.j, e.k, e.l])
  }

  /** s lists the products of four columns, row by row. */
  ghost predicate AreProducts(x: Mat, i: nat, j: nat, k: nat, l: nat, s: Vec)
  {
    |s| == |x| && forall row :: 0 <= row < |x| ==>
      && i < |x[row]| && j < |x[row]| && k < |x[row]| && l < |x[row]|
      && s[row] == x[row][i] * x[row][j] * x[row][k] * x[row][l]
  }

  /** The moment tensor of a data matrix. Every entry is written, also when the last block of columns is
      odd. When no block suffers from another's partial tile the entries are the tiles' results; these
      are the means over the rows when the tile size divides the number of rows or there is one row. */
  method CokurtosisImpl(job: Job, garbage: Mat)
    returns (moment: array4<real>, ghost blocks: seq<Quad>, ghost results: seq<Mat>)
    requires job.Valid() && IsMat(garbage, job.tile, job.s * job.s)
    ensures IsCube(moment, job.cols)
    ensures job.Clean() ==> forall e :: InTensor(e, job.cols) ==> moment[e.i, e.j, e.k, e.l] == job.Result(e)
    ensures WholeTiles(|job.x|, job.tile) ==>
              forall e :: InTensor(e, job.cols) ==> moment[e.i, e.j, e.k, e.l] == Moment(job.x, e)
    ensures |job.x| > 0 && (|job.x| % job.tile == 0 || |job.x| == 1) ==>
              forall i: nat, j: nat, k: nat, l: nat, s: Vec ::
                i < job.cols && j < job.cols && k < job.cols && l < job.cols && AreProducts(job.x, i, j, k, l, s) ==>
                |job.x| as real * moment[i, j, k, l] == Total(s)
    ensures IsCokurtosis(job, garbage, blocks, results, moment)
  {
    hide IsCokurtosis, Job.Clean, Job.Result, Moment, WholeTiles, Total;
    moment, blocks, results := MomentTensor(job, garbage);
    MeansArePlain(job, moment);
  }

  /** Blocks in parallel, then reconstruction. */
  method MomentTensor(job: Job, garbage: Mat)
    returns (moment: array4<real>, ghost blocks: seq<Quad>, ghost results: seq<Mat>)
    requires job.Valid() && IsMat(garbage, job.tile, job.s * job.s)
    ensures IsCube(moment, job.cols)
    ensures job.Clean() ==> forall e :: InTensor(e, job.cols) ==> moment[e.i, e.j, e.k, e.l] == job.Result(e)
    ensures WholeTiles(|job.x|, job.tile) ==>
              forall e :: InTensor(e, job.cols) ==> moment[e.i, e.j, e.k, e.l] == Moment(job.x, e)
    ensures IsCokurtosis(job, garbage, blocks, results, moment)
  {
    var quads := UniqueBlocks(job.NBlocks());
    assert forall b :: 0 <= b < |quads| ==> quads[b] in quads;
    hide TeamsDone, Written, BlocksDone, FromBlocks;
    var computed := ComputeBlocks(job, quads, garbage);
    moment := new real[job.cols, job.cols, job.cols, job.cols];
    blocks, results := quads, computed[..];
    ghost var done := WriteBlocks(job, quads, computed[..], moment);
    AllWritten(job, blocks, results, moment, done);
    CleanEntries(job, garbage, blocks, results, moment);
    if WholeTiles(|job.x|, job.tile) {
      ResultsAreMoments(job);
    }
  }

  lemma MeansArePlain(job: Job, moment: array4<real>)
    requires job.Valid() && IsCube(moment, job.cols)
    requires WholeTiles(|job.x|, job.tile) ==>
               forall e :: InTensor(e, job.cols) ==> moment[e.i, e.j, e.k, e.l] == Moment(job.x, e)
    ensures |job.x| > 0 && (|job.x| % job.tile == 0 || |job.x| == 1) ==>
              forall i: nat, j: nat, k: nat, l: nat, s: Vec ::
                i < job.cols && j < job.cols && k < job.cols && l < job.cols && AreProducts(job.x, i, j, k, l, s) ==>
                |job.x| as real * moment[i, j, k, l] == Total(s)
  {
    hide Moment, Total;
    if |job.x| > 0 && (|job.x| % job.tile == 0 || |job.x| == 1) {
      hide AreProducts, Job.Valid, WholeTiles;
      forall i: nat, j: nat, k: nat, l: nat, s: Vec |
        i < job.cols && j < job.cols && k < job.cols && l < job.cols && AreProducts(job.x, i, j, k, l, s)
        ensures |job.x| as real * moment[i, j, k, l] == Total(s)
      {
        MeanIsPlain(job, Quad(i, j, k, l), s);
        assert InTensor(Quad(i, j, k, l), job.cols);
      }
    }
  }

  lemma MeanIsPlain(job: Job, q: Quad, s: Vec)
    requires job.Valid() && |job.x| > 0 && InTensor(q, job.cols) && AreProducts(job.x, q.i, q.j, q.k, q.l, s)
    ensures |job.x| as real * Moment(job.x, q) == Total(s)
  {
    hide Moment, Total;
    MomentIsPlain(job.x, job.cols, q, s);
  }

  lemma CleanEntries(job: Job, garbage: Mat, blocks: seq<Quad>, results: seq<Mat>, moment: array4<real>)
    requires job.Valid() && IsCube(moment, job.cols) && IsCokurtosis(job, garbage, blocks, results, moment)
    requires |blocks| == UniqueBlockCount(job.NBlocks())
    ensures job.Clean() ==> forall e :: InTensor(e, job.cols) ==> moment[e.i, e.j, e.k, e.l] == job.Result(e)
  {
    if job.Clean() {
      hide Job.HoldsBlock, Job.Result, FromBlocks, TeamsDone, Job.Clean;
      forall b | 0 <= b < |blocks| ensures job.HoldsBlock(results[b], blocks[b]) {
        CleanIsRight(job, results, blocks, garbage, b);
      }
      forall e | InTensor(e, job.cols) ensures moment[e.i, e.j, e.k, e.l] == job.Result(e) {
        FromResults(job, blocks, results, e, moment[e.i, e.j, e.k, e.l]);
      }
    }
  }

  method ReadBlocks(indexArray: array<nat>, ghost quads: seq<Quad>) returns (blocks: seq<Quad>)
    requires 4 * |quads| == indexArray.Length && Stored(indexArray[..], quads)
    ensures blocks == quads
  {
    blocks := [];
    while |blocks| < indexArray.Length / 4
      invariant |blocks| <= |quads| && blocks == quads[..|blocks|]
    {
      var q := RankToBlockIndex(|blocks|, indexArray, quads);
      blocks := blocks + [q];
    }
  }
}
