/** The sparse two-sided update: every rank lists the rows its nonzeros touch, and only those rows
    travel, packed into buffers and exchanged all-to-all. */
module TwoSidedUpdate {
  import opened Sequences
  import opened Vectors
  import opened UniformBlocking
  import opened KtensorUpdate
  import opened RowLists

  // ----- all-to-all

  /** What rank `me` is sent: piece `me` of every rank, in rank order. */
  function ReceivedBy<T>(pieces: seq<seq<seq<T>>>, me: nat): (r: seq<seq<T>>)
    requires forall p :: 0 <= p < |pieces| ==> me < |pieces[p]|
    ensures |r| == |pieces| && forall p :: 0 <= p < |r| ==> r[p] == pieces[p][me]
  {
    seq(|pieces|, p requires 0 <= p < |pieces| => pieces[p][me])
  }

  ghost predicate SquareTable<T>(t: seq<seq<T>>, np: nat)
  {
    |t| == np && forall p :: 0 <= p < np ==> |t[p]| == np
  }

  ghost predicate Packed<T>(flat: seq<seq<T>>, pieces: seq<seq<seq<T>>>)
  {
    && |flat| == |pieces| && SquareTable(pieces, |pieces|)
    && forall p :: 0 <= p < |flat| ==> flat[p] == Flatten(pieces[p])
  }

  ghost predicate CountsOf<T>(counts: seq<seq<nat>>, pieces: seq<seq<seq<T>>>)
  {
    && SquareTable(counts, |pieces|) && SquareTable(pieces, |pieces|)
    && forall p, q :: 0 <= p < |pieces| && 0 <= q < |pieces| ==> counts[p][q] == |pieces[p][q]|
  }

  /** MPI_Alltoallv on packed buffers, seen from rank `me`: copy the slice that every rank keeps for
      `me`, cut out at that rank's displacement, a scan of its counts. */
  method AllToAllV<T>(send: seq<seq<T>>, counts: seq<seq<nat>>, me: nat, ghost pieces: seq<seq<seq<T>>>)
    returns (recv: seq<T>)
    requires Packed(send, pieces) && CountsOf(counts, pieces) && me < |pieces|
    ensures recv == Flatten(ReceivedBy(pieces, me))
  {
    recv := [];
    ghost var mine := ReceivedBy(pieces, me);
    var p := 0;
    assert mine[..0] == [];
    while p < |send|
      invariant 0 <= p <= |send| && recv == Flatten(mine[..p])
    {
      var d := SizesBefore(counts[p], me);
      PieceSlice(pieces[p], counts[p], me);
      recv := recv + send[p][d..d + counts[p][me]];
      assert mine[..p + 1][..p] == mine[..p];
      p := p + 1;
    }
    assert mine[..p] == mine;
  }

  // ----- packing and unpacking

  function GatherRows(m: Mat, rows: seq<nat>): (r: Mat)
    ensures |r| == |rows|
  {
    seq(|rows|, i requires 0 <= i < |rows| => if rows[i] < |m| then m[rows[i]] else [])
  }

  function GatherPieces(m: Mat, rows: seq<seq<nat>>): (r: seq<Mat>)
    ensures |r| == |rows| && forall p :: 0 <= p < |r| ==> r[p] == GatherRows(m, rows[p])
  {
    seq(|rows|, p requires 0 <= p < |rows| => GatherRows(m, rows[p]))
  }

  lemma {:induction false} GatherFlatten(m: Mat, rows: seq<seq<nat>>)
    ensures GatherRows(m, Flatten(rows)) == Flatten(GatherPieces(m, rows))
  {
    if |rows| > 0 {
      var n := |rows| - 1;
      GatherFlatten(m, rows[..n]);
      assert GatherPieces(m, rows)[..n] == GatherPieces(m, rows[..n]);
      assert GatherRows(m, Flatten(rows)) == GatherRows(m, Flatten(rows[..n])) + GatherRows(m, rows[n]);
    }
  }

  /** Write the received rows over the overlap. */
  method Unpack(before: Mat, rows: seq<nat>, values: seq<Vec>, ghost all: Mat) returns (after: Mat)
    requires |before| == |all| && |rows| == |values| && values == GatherRows(all, rows)
    requires forall i :: 0 <= i < |rows| ==> rows[i] < |all|
    ensures ImportedRows(after, before, all, SetOf(rows))
  {
    after := before;
    var i := 0;
    while i < |rows|
      invariant 0 <= i <= |rows|
      invariant ImportedRows(after, before, all, SetOf(rows[..i]))
    {
      after := after[rows[i] := values[i]];
      assert rows[..i + 1] == rows[..i] + [rows[i]];
      i := i + 1;
    }
    assert rows[..i] == rows;
  }

  /** What the entries listed for one row add up to. */
  function ContribSum(rows: seq<nat>, values: seq<Vec>, row: nat, nc: nat): (v: Vec)
    requires |rows| == |values| && forall i :: 0 <= i < |values| ==> |values[i]| == nc
    ensures |v| == nc
  {
    if |rows| == 0 then Zeros(nc)
    else
      var n := |rows| - 1;
      var before := ContribSum(rows[..n], values[..n], row, nc);
      if rows[n] == row then Add(before, values[n]) else before
  }

  /** Zero the owned rows, then add every received row where it belongs. */
  method Accumulate(size: nat, offset: nat, rows: seq<nat>, values: seq<Vec>, nc: nat) returns (owned: Mat)
    requires |rows| == |values| && forall i :: 0 <= i < |values| ==> |values[i]| == nc
    requires forall i :: 0 <= i < |rows| ==> offset <= rows[i] < offset + size
    ensures IsMat(owned, size, nc)
    ensures forall k: nat :: k < size ==> owned[k] == ContribSum(rows, values, offset + k, nc)
  {
    owned := seq(size, _ => Zeros(nc));
    var i := 0;
    while i < |rows|
      invariant 0 <= i <= |rows| && IsMat(owned, size, nc)
      invariant forall k: nat :: k < size ==> owned[k] == ContribSum(rows[..i], values[..i], offset + k, nc)
    {
      var k := rows[i] - offset;
      owned := owned[k := Add(owned[k], values[i])];
      assert rows[..i + 1][..i] == rows[..i] && values[..i + 1][..i] == values[..i];
      i := i + 1;
    }
    assert rows[..i] == rows && values[..i] == values;
  }

  lemma {:induction false} ContribSumAppend(r1: seq<nat>, v1: seq<Vec>, r2: seq<nat>, v2: seq<Vec>, row: nat, nc: nat)
    requires |r1| == |v1| && forall i :: 0 <= i < |v1| ==> |v1[i]| == nc
    requires |r2| == |v2| && forall i :: 0 <= i < |v2| ==> |v2[i]| == nc
    ensures ContribSum(r1 + r2, v1 + v2, row, nc)
         == Add(ContribSum(r1, v1, row, nc), ContribSum(r2, v2, row, nc))
  {
    if |r2| == 0 {
      assert r1 + r2 == r1 && v1 + v2 == v1;
      AddZero(ContribSum(r1, v1, row, nc));
    } else {
      var n := |r2| - 1;
      assert (r1 + r2)[..|r1| + n] == r1 + r2[..n] && (v1 + v2)[..|r1| + n] == v1 + v2[..n];
      ContribSumAppend(r1, v1, r2[..n], v2[..n], row, nc);
      AddAssoc(ContribSum(r1, v1, row, nc), ContribSum(r2[..n], v2[..n], row, nc), v2[n]);
    }
  }

  /** A list without repetitions contributes a row at most once. */
  lemma {:induction false} ContribSumOnce(m: Mat, rows: seq<nat>, row: nat, nc: nat)
    requires IsMat(m, |m|, nc) && row < |m| && NoDuplicates(rows)
    requires forall i :: 0 <= i < |rows| ==> rows[i] < |m|
    ensures ContribSum(rows, GatherRows(m, rows), row, nc) == if row in rows then m[row] else Zeros(nc)
  {
    if |rows| > 0 {
      var n := |rows| - 1;
      ContribSumOnce(m, rows[..n], row, nc);
      assert GatherRows(m, rows)[..n] == GatherRows(m, rows[..n]);
      AddZero(m[row]);
    }
  }

  /** Rows that the first q ranks send to one owner, with the values from their overlaps. */
  function SentRows(uo: Pieces, lists: seq<seq<nat>>): (r: seq<Mat>)
    requires |uo| == |lists|
    ensures |r| == |uo| && forall p :: 0 <= p < |r| ==> r[p] == GatherRows(uo[p], lists[p])
  {
    seq(|uo|, p requires 0 <= p < |uo| => GatherRows(uo[p], lists[p]))
  }

  lemma RowsAreVectors(uo: Pieces, lists: seq<seq<nat>>, rows: nat, nc: nat)
    requires |uo| == |lists| && IsOverlap(uo, |uo|, rows, nc)
    requires forall p, i :: 0 <= p < |lists| && 0 <= i < |lists[p]| ==> lists[p][i] < rows
    ensures |Flatten(SentRows(uo, lists))| == |Flatten(lists)|
    ensures forall i :: 0 <= i < |Flatten(SentRows(uo, lists))| ==> |Flatten(SentRows(uo, lists))[i]| == nc
  {
    FlattenLength(SentRows(uo, lists), lists);
    forall i | 0 <= i < |Flatten(SentRows(uo, lists))| ensures |Flatten(SentRows(uo, lists))[i]| == nc {
      var p, k := FlattenFind(SentRows(uo, lists), i);
      FlattenAt(SentRows(uo, lists), p, k);
    }
  }

  ghost predicate NeededBelow(needed: seq<set<nat>>, rows: nat)
  {
    forall p, x :: 0 <= p < |needed| && x in needed[p] ==> x < rows
  }

  /** lists[p] names, once each, the rows of one owner's part that rank p needs. */
  ghost predicate ListsPart(lists: seq<seq<nat>>, needed: seq<set<nat>>, cuts: seq<nat>, owner: nat)
  {
    && |lists| == |needed|
    && forall p :: 0 <= p < |lists| ==>
         NoDuplicates(lists[p]) && forall x: nat :: x in lists[p] <==> x in needed[p] && InPart(cuts, owner, x)
  }

  lemma MaskedIsOverlap(uo: Pieces, needed: seq<set<nat>>, rows: nat, nc: nat)
    requires IsOverlap(uo, |needed|, rows, nc)
    ensures IsOverlap(Masked(uo, needed, nc), |uo|, rows, nc)
  {
  }

  /** What arrives for a row is the sum over the ranks of the masked overlaps. */
  lemma {:induction false} ContributionsAreMaskedSum(uo: Pieces, lists: seq<seq<nat>>, needed: seq<set<nat>>,
      cuts: seq<nat>, owner: nat, rows: nat, nc: nat, row: nat, q: nat)
    requires IsOverlap(uo, |needed|, rows, nc) && ListsPart(lists, needed, cuts, owner)
    requires NeededBelow(needed, rows) && row < rows && InPart(cuts, owner, row) && q <= |uo|
    ensures var vals := Flatten(SentRows(uo[..q], lists[..q]));
            && |vals| == |Flatten(lists[..q])|
            && (forall i :: 0 <= i < |vals| ==> |vals[i]| == nc)
            && IsOverlap(Masked(uo, needed, nc), |uo|, rows, nc)
            && ContribSum(Flatten(lists[..q]), vals, row, nc) == RowSum(Masked(uo, needed, nc), rows, nc, row, q)
  {
    hide Add;
    MaskedIsOverlap(uo, needed, rows, nc);
    ListedRowsBelow(lists, needed, cuts, owner, rows);
    RowsAreVectors(uo[..q], lists[..q], rows, nc);
    if q > 0 {
      ContributionsAreMaskedSum(uo, lists, needed, cuts, owner, rows, nc, row, q - 1);
      assert lists[..q][..q - 1] == lists[..q - 1];
      assert SentRows(uo[..q], lists[..q])[..q - 1] == SentRows(uo[..q - 1], lists[..q - 1]);
      ContribSumAppend(Flatten(lists[..q - 1]), Flatten(SentRows(uo[..q - 1], lists[..q - 1])),
                       lists[q - 1], GatherRows(uo[q - 1], lists[q - 1]), row, nc);
      ContribSumOnce(uo[q - 1], lists[q - 1], row, nc);
    }
  }

  lemma ListedRowsBelow(lists: seq<seq<nat>>, needed: seq<set<nat>>, cuts: seq<nat>, owner: nat, rows: nat)
    requires ListsPart(lists, needed, cuts, owner) && NeededBelow(needed, rows)
    ensures forall p, i :: 0 <= p < |lists| && 0 <= i < |lists[p]| ==> lists[p][i] < rows
  {
    forall p, i | 0 <= p < |lists| && 0 <= i < |lists[p]| ensures lists[p][i] < rows {
      Member(lists[p], i);
    }
  }

  datatype MapPath = HostSorted | HostUnsorted | Device

  function Lengths<T>(lists: seq<seq<T>>): (r: seq<nat>)
    ensures |r| == |lists| && forall p :: 0 <= p < |r| ==> r[p] == |lists[p]|
  {
    seq(|lists|, p requires 0 <= p < |lists| => |lists[p]|)
  }

  function LengthTable<T>(tables: seq<seq<seq<T>>>): (r: seq<seq<nat>>)
    ensures |r| == |tables| && forall p :: 0 <= p < |r| ==> r[p] == Lengths(tables[p])
  {
    seq(|tables|, p requires 0 <= p < |tables| => Lengths(tables[p]))
  }

  function FlattenEach<T>(tables: seq<seq<seq<T>>>): (r: seq<seq<T>>)
    ensures |r| == |tables| && forall p :: 0 <= p < |r| ==> r[p] == Flatten(tables[p])
  {
    seq(|tables|, p requires 0 <= p < |tables| => Flatten(tables[p]))
  }

  /** Row q of the transpose: what everybody has for rank q. */
  function Transpose<T>(tables: seq<seq<seq<T>>>): (r: seq<seq<seq<T>>>)
    requires SquareTable(tables, |tables|)
    ensures SquareTable(r, |tables|)
    ensures forall q :: 0 <= q < |r| ==> r[q] == ReceivedBy(tables, q)
  {
    seq(|tables|, q requires 0 <= q < |tables| => ReceivedBy(tables, q))
  }

  lemma TransposeTwice<T>(tables: seq<seq<seq<T>>>)
    requires SquareTable(tables, |tables|)
    ensures Transpose(Transpose(tables)) == tables
  {
    var back := Transpose(Transpose(tables));
    forall p | 0 <= p < |tables| ensures back[p] == tables[p] {
      assert back[p] == ReceivedBy(Transpose(tables), p);
      forall q | 0 <= q < |tables| ensures back[p][q] == tables[p][q] {
        assert Transpose(tables)[q] == ReceivedBy(tables, q);
      }
    }
  }

  /** All ranks exchange their packed buffers; rank q ends up with the pieces everybody had for it. */
  method ExchangeAll<T>(send: seq<seq<T>>, counts: seq<seq<nat>>, ghost tables: seq<seq<seq<T>>>)
    returns (recv: seq<seq<T>>)
    requires Packed(send, tables) && counts == LengthTable(tables)
    ensures recv == FlattenEach(Transpose(tables))
  {
    recv := [];
    var q := 0;
    while q < |send|
      invariant 0 <= q <= |send| && recv == FlattenEach(Transpose(tables))[..q]
    {
      var mine := AllToAllV(send, counts, q, tables);
      recv := recv + [mine];
      q := q + 1;
    }
  }

  ghost predicate AllListRows(tables: seq<seq<seq<nat>>>, needed: seq<set<nat>>, cuts: seq<nat>)
  {
    && |tables| == |needed|
    && forall me :: 0 <= me < |tables| ==> |tables[me]| == |cuts| - 1 && ListsRows(tables[me], needed[me], cuts)
  }

  ghost function NeededRows(subs: seq<seq<nat>>): (r: seq<set<nat>>)
    ensures |r| == |subs| && forall p :: 0 <= p < |r| ==> r[p] == SetOf(subs[p])
  {
    seq(|subs|, p requires 0 <= p < |subs| => SetOf(subs[p]))
  }

  ghost predicate SubsBelow(subs: seq<seq<nat>>, rows: nat)
  {
    forall p :: 0 <= p < |subs| ==> forall i :: 0 <= i < |subs[p]| ==> subs[p][i] < rows
  }

  /** Every rank lists the rows of its nonzeros. */
  method ListAllRows(subs: seq<seq<nat>>, offsets: seq<nat>, rows: nat, path: MapPath)
    returns (tables: seq<seq<seq<nat>>>)
    requires IsCuts(offsets + [rows], |offsets|, rows) && SubsBelow(subs, rows)
    ensures AllListRows(tables, NeededRows(subs), offsets + [rows])
  {
    tables := [];
    var p := 0;
    while p < |subs|
      invariant 0 <= p <= |subs|
      invariant AllListRows(tables, NeededRows(subs)[..p], offsets + [rows])
    {
      var mine: seq<seq<nat>>;
      if path.Device? {
        mine := ListRowsDevice(subs[p], offsets, rows);
      } else {
        mine := ListRowsHost(subs[p], offsets, rows, path.HostSorted?);
      }
      tables := tables + [mine];
      p := p + 1;
    }
    assert NeededRows(subs)[..p] == NeededRows(subs);
  }

  /** The update object of all ranks of a layer, for one mode. Row buffers are flat; `lists` remembers
      which slice goes to whom. */
  class KtensorTwoSidedUpdate {
    const np: nat
    const rows: nat
    const offsets: seq<nat>
    var numRowRecvs: seq<seq<nat>>
    var rowRecvs: seq<seq<nat>>
    var numRowSends: seq<seq<nat>>
    var rowSends: seq<seq<nat>>
    ghost var lists: seq<seq<seq<nat>>>
    ghost var needed: seq<set<nat>>

    ghost predicate Shape()
    {
      |offsets| == np && IsCuts(offsets + [rows], np, rows)
    }

    ghost predicate Valid()
      reads this
    {
      && Shape() && |needed| == np && NeededBelow(needed, rows)
      && AllListRows(lists, needed, offsets + [rows]) && SquareTable(lists, np)
      && rowRecvs == FlattenEach(lists) && numRowRecvs == LengthTable(lists)
      && rowSends == FlattenEach(Transpose(lists)) && numRowSends == LengthTable(Transpose(lists))
    }

    constructor (np: nat, rows: nat, offsets: seq<nat>)
      requires |offsets| == np && IsCuts(offsets + [rows], np, rows)
      ensures Shape() && this.np == np && this.rows == rows && this.offsets == offsets
    {
      this.np, this.rows, this.offsets := np, rows, offsets;
    }

    /** List the rows each rank receives, tell the owners how many and which. */
    method UpdateTensor(subs: seq<seq<nat>>, path: MapPath)
      requires Shape() && |subs| == np && SubsBelow(subs, rows)
      modifies this
      ensures Valid() && needed == NeededRows(subs)
    {
      var tables := ListAllRows(subs, offsets, rows, path);
      lists := tables;
      needed := NeededRows(subs);
      numRowRecvs := LengthTable(tables);
      rowRecvs := FlattenEach(tables);
      numRowSends := LengthTable(Transpose(tables));
      rowSends := ExchangeAll(rowRecvs, numRowRecvs, tables);
    }

    /** Every rank packs the rows it sends. */
    method PackAll(u: Pieces) returns (facSends: seq<Mat>)
      requires Valid() && |u| == np && HasOffsets(u, offsets, rows)
      ensures facSends == FlattenEach(GatherTable(Flatten(u), Transpose(lists)))
    {
      ghost var pieces := GatherTable(Flatten(u), Transpose(lists));
      facSends := [];
      var p := 0;
      while p < np
        invariant 0 <= p <= np && facSends == FlattenEach(pieces)[..p]
      {
        var packed := PackOne(u, p);
        facSends := facSends + [packed];
        p := p + 1;
      }
    }

    /** What owner p packs for all ranks. */
    method PackOne(u: Pieces, p: nat) returns (packed: Mat)
      requires Valid() && |u| == np && HasOffsets(u, offsets, rows) && p < np
      ensures packed == FlattenEach(GatherTable(Flatten(u), Transpose(lists)))[p]
    {
      SendsOwned(lists, needed, offsets + [rows], rows, p);
      OwnedPart(u, offsets, rows, rowSends[p], p);
      packed := PackOwned(u[p], rowSends[p], offsets[p], u, p);
      GatherFlatten(Flatten(u), Transpose(lists)[p]);
    }

    /** Every rank writes what it received over its overlap. */
    method UnpackAll(uOverlapped: Pieces, facRecvs: seq<Mat>, ghost all: Mat) returns (after: Pieces)
      requires Valid() && |uOverlapped| == np && |all| == rows
      requires forall p :: 0 <= p < np ==> |uOverlapped[p]| == rows
      requires facRecvs == FlattenEach(GatherTable(all, lists))
      ensures |after| == np
      ensures forall p :: 0 <= p < np ==> ImportedRows(after[p], uOverlapped[p], all, needed[p])
    {
      after := [];
      var p := 0;
      while p < np
        invariant 0 <= p <= np && |after| == p
        invariant forall q :: 0 <= q < p ==> ImportedRows(after[q], uOverlapped[q], all, needed[q])
      {
        GatherFlatten(all, lists[p]);
        ListedAre(lists[p], needed[p], offsets + [rows], rows);
        var mine := Unpack(uOverlapped[p], rowRecvs[p], facRecvs[p], all);
        after := after + [mine];
        p := p + 1;
      }
    }

    /** Pack owned rows, exchange, write the needed rows over the overlap. */
    method DoImportSparse(uOverlapped: Pieces, u: Pieces) returns (after: Pieces)
      requires Valid() && |u| == np && HasOffsets(u, offsets, rows)
      requires |uOverlapped| == np && forall p :: 0 <= p < np ==> |uOverlapped[p]| == rows
      ensures |after| == np
      ensures forall p :: 0 <= p < np ==> ImportedRows(after[p], uOverlapped[p], Flatten(u), needed[p])
      ensures |Flatten(u)| == rows && forall p :: 0 <= p < np ==> |after[p]| == rows
      ensures forall p, row :: 0 <= p < np && 0 <= row < rows ==>
                after[p][row] == if row in needed[p] then Flatten(u)[row] else uOverlapped[p][row]
    {
      ghost var all := Flatten(u);
      var facSends := PackAll(u);
      GatherTableLengths(all, Transpose(lists));
      GatherTranspose(all, Transpose(lists));
      TransposeTwice(lists);
      var facRecvs := ExchangeAll(facSends, numRowSends, GatherTable(all, Transpose(lists)));
      after := UnpackAll(uOverlapped, facRecvs, all);
    }

    /** Every rank packs the rows of its overlap that it needs. */
    method PackOverlaps(uOverlapped: Pieces) returns (facRecvs: seq<Mat>)
      requires Valid() && |uOverlapped| == np
      requires forall p :: 0 <= p < np ==> |uOverlapped[p]| == rows
      ensures facRecvs == FlattenEach(OverlapTable(uOverlapped, lists))
    {
      facRecvs := [];
      var p := 0;
      while p < np
        invariant 0 <= p <= np && facRecvs == FlattenEach(OverlapTable(uOverlapped, lists))[..p]
      {
        GatherFlatten(uOverlapped[p], lists[p]);
        ListedAre(lists[p], needed[p], offsets + [rows], rows);
        var packed := PackOverlap(uOverlapped[p], rowRecvs[p]);
        facRecvs := facRecvs + [packed];
        p := p + 1;
      }
    }

    /** Pack needed rows and exchange in the opposite direction. */
    method SendOverlaps(uOverlapped: Pieces, nc: nat) returns (facSends: seq<Mat>)
      requires Valid() && IsOverlap(uOverlapped, np, rows, nc)
      ensures |facSends| == np
      ensures forall q :: 0 <= q < np ==> facSends[q] == Flatten(SentRows(uOverlapped, ReceivedBy(lists, q)))
    {
      var facRecvs := PackOverlaps(uOverlapped);
      OverlapTableLengths(uOverlapped, lists);
      hide Flatten, SentRows;
      facSends := ExchangeAll(facRecvs, numRowRecvs, OverlapTable(uOverlapped, lists));
    }

    /** Owners zero their rows and accumulate what they receive. The result is the dense reduction of the
        overlaps with every unneeded row masked out. */
    method DoExportSparse(uOverlapped: Pieces, nc: nat, ghost u: Pieces) returns (owned: Pieces)
      requires Valid() && |u| == np && HasOffsets(u, offsets, rows)
      requires IsOverlap(uOverlapped, np, rows, nc)
      ensures |owned| == np
      ensures forall q :: 0 <= q < np ==>
                ExportedRows(owned[q], uOverlapped, needed, rows, nc, StartOf(u, q), |u[q]|)
    {
      hide *;
      var facSends := SendOverlaps(uOverlapped, nc);
      owned := [];
      var q := 0;
      while q < np
        invariant 0 <= q <= np && |owned| == q
        invariant forall p :: 0 <= p < q ==>
                    ExportedRows(owned[p], uOverlapped, needed, rows, nc, StartOf(u, p), |u[p]|)
      {
        var mine := UnpackSum(q, facSends[q], uOverlapped, nc, u);
        owned := owned + [mine];
        q := q + 1;
      }
    }

    /** The rows that owner q receives contributions for are its own, and the contributions fit. */
    lemma ReceivedFits(q: nat, uOverlapped: Pieces, nc: nat, u: Pieces)
      requires Valid() && q < np && |u| == np && HasOffsets(u, offsets, rows)
      requires IsOverlap(uOverlapped, np, rows, nc)
      ensures rowSends[q] == Flatten(ReceivedBy(lists, q))
      ensures ListsPart(ReceivedBy(lists, q), needed, offsets + [rows], q)
      ensures |Flatten(SentRows(uOverlapped, ReceivedBy(lists, q)))| == |rowSends[q]|
      ensures forall i :: 0 <= i < |rowSends[q]| ==> |Flatten(SentRows(uOverlapped, ReceivedBy(lists, q)))[i]| == nc
      ensures forall i :: 0 <= i < |rowSends[q]| ==> offsets[q] <= rowSends[q][i] < offsets[q] + |u[q]|
    {
      hide SentRows, StartOf, SetOf;
      PartOfLists(lists, needed, offsets + [rows], q);
      SendsOwned(lists, needed, offsets + [rows], rows, q);
      OwnedPart(u, offsets, rows, rowSends[q], q);
      ReadyToAccumulate(uOverlapped, ReceivedBy(lists, q), needed, offsets + [rows], q, rows, nc);
    }

    lemma OwnRange(q: nat, u: Pieces)
      requires Valid() && q < np && |u| == np && HasOffsets(u, offsets, rows)
      ensures (if q + 1 < np then offsets[q + 1] else rows) == offsets[q] + |u[q]| <= rows
      ensures offsets[q] == StartOf(u, q)
      ensures (offsets + [rows])[q] == offsets[q] && (offsets + [rows])[q + 1] == offsets[q] + |u[q]|
    {
      PieceSize(u, offsets, rows, q);
    }

    method UnpackSum(q: nat, received: Mat, ghost uOverlapped: Pieces, nc: nat, ghost u: Pieces) returns (mine: Mat)
      requires Valid() && q < np && |u| == np && HasOffsets(u, offsets, rows)
      requires IsOverlap(uOverlapped, np, rows, nc)
      requires received == Flatten(SentRows(uOverlapped, ReceivedBy(lists, q)))
      ensures ExportedRows(mine, uOverlapped, needed, rows, nc, StartOf(u, q), |u[q]|)
    {
      hide ExportedRows, SentRows, ReceivedBy, ListsPart, HasOffsets, StartOf, AllListRows, IsOverlap, Flatten;
      var next := if q + 1 < np then offsets[q + 1] else rows;
      OwnRange(q, u);
      ReceivedFits(q, uOverlapped, nc, u);
      mine := Accumulate(next - offsets[q], offsets[q], rowSends[q], received, nc);
      AccumulatedIsReduced(mine, uOverlapped, ReceivedBy(lists, q), needed, offsets + [rows], q, rows, nc,
          offsets[q], |u[q]|);
    }
  }

  /** The dense reduction of the masked overlaps, cut down to one owner's rows. */
  ghost predicate ExportedRows(owned: Mat, uo: Pieces, needed: seq<set<nat>>, rows: nat, nc: nat, start: nat,
      size: nat)
  {
    && |uo| == |needed| && start + size <= rows && IsOverlap(Masked(uo, needed, nc), |uo|, rows, nc)
    && owned == ReduceTo(Masked(uo, needed, nc), rows, nc, start, size)
  }

  /** Written out: the owner's row k is the sum, component by component, of that row of all ranks that need
      it. */
  lemma ExportedIsPlain(owned: Mat, uo: Pieces, needed: seq<set<nat>>, rows: nat, nc: nat, start: nat, size: nat,
      k: nat, r: nat, s: Vec)
    requires ExportedRows(owned, uo, needed, rows, nc, start, size) && IsOverlap(uo, |uo|, rows, nc)
    requires k < size && r < nc && |s| == |uo|
    requires forall p :: 0 <= p < |uo| ==> s[p] == if start + k in needed[p] then uo[p][start + k][r] else 0.0
    ensures |owned| == size && |owned[k]| == nc && owned[k][r] == Total(s)
  {
    var masked := Masked(uo, needed, nc);
    forall p | 0 <= p < |uo| ensures masked[p][start + k][r] == s[p] {
      assert masked[p] == MaskRows(uo[p], needed[p], nc);
    }
    ReducedIsPlain(masked, rows, nc, start, size, k, r, s);
  }

  lemma PieceSize(u: Pieces, offsets: seq<nat>, rows: nat, q: nat)
    requires HasOffsets(u, offsets, rows) && q < |u|
    ensures (if q + 1 < |u| then offsets[q + 1] else rows) == offsets[q] + |u[q]| <= rows
  {
    PieceFits(u, q);
    StartOfStep(u, q);
    assert u[..|u|] == u;
  }

  lemma ReadyToAccumulate(uo: Pieces, part: seq<seq<nat>>, needed: seq<set<nat>>, cuts: seq<nat>, owner: nat,
      rows: nat, nc: nat)
    requires IsOverlap(uo, |needed|, rows, nc) && ListsPart(part, needed, cuts, owner) && NeededBelow(needed, rows)
    ensures |Flatten(SentRows(uo, part))| == |Flatten(part)|
    ensures forall i :: 0 <= i < |Flatten(SentRows(uo, part))| ==> |Flatten(SentRows(uo, part))[i]| == nc
  {
    ListedRowsBelow(part, needed, cuts, owner, rows);
    RowsAreVectors(uo, part, rows, nc);
  }

  lemma AccumulatedIsReduced(mine: Mat, uo: Pieces, part: seq<seq<nat>>, needed: seq<set<nat>>, cuts: seq<nat>,
      owner: nat, rows: nat, nc: nat, start: nat, size: nat)
    requires IsOverlap(uo, |needed|, rows, nc) && ListsPart(part, needed, cuts, owner) && NeededBelow(needed, rows)
    requires |Flatten(SentRows(uo, part))| == |Flatten(part)|
    requires forall i :: 0 <= i < |Flatten(SentRows(uo, part))| ==> |Flatten(SentRows(uo, part))[i]| == nc
    requires |mine| == size && start + size <= rows
    requires owner + 1 < |cuts| && cuts[owner] == start && cuts[owner + 1] == start + size
    requires forall k: nat :: k < size ==>
               mine[k] == ContribSum(Flatten(part), Flatten(SentRows(uo, part)), start + k, nc)
    ensures ExportedRows(mine, uo, needed, rows, nc, start, size)
  {
    MaskedIsOverlap(uo, needed, rows, nc);
    assert uo[..|uo|] == uo && part[..|uo|] == part;
    forall k: nat | k < size
      ensures mine[k] == RowSum(Masked(uo, needed, nc), rows, nc, start + k, |uo|)
    {
      ContributionsAreMaskedSum(uo, part, needed, cuts, owner, rows, nc, start + k, |uo|);
    }
  }

  lemma PartOfLists(lists: seq<seq<seq<nat>>>, needed: seq<set<nat>>, cuts: seq<nat>, owner: nat)
    requires AllListRows(lists, needed, cuts) && SquareTable(lists, |lists|) && |cuts| == |lists| + 1
    requires owner < |lists|
    ensures ListsPart(ReceivedBy(lists, owner), needed, cuts, owner)
  {
    forall p | 0 <= p < |lists|
      ensures NoDuplicates(lists[p][owner])
      ensures forall x: nat :: x in lists[p][owner] <==> x in needed[p] && InPart(cuts, owner, x)
    {
      assert ListsRows(lists[p], needed[p], cuts);
    }
  }

  function OverlapTable(uo: Pieces, lists: seq<seq<seq<nat>>>): (r: seq<seq<Mat>>)
    requires |uo| == |lists|
    ensures |r| == |uo| && forall p :: 0 <= p < |r| ==> r[p] == GatherPieces(uo[p], lists[p])
  {
    seq(|uo|, p requires 0 <= p < |uo| => GatherPieces(uo[p], lists[p]))
  }

  lemma OverlapTableLengths(uo: Pieces, lists: seq<seq<seq<nat>>>)
    requires |uo| == |lists| && SquareTable(lists, |lists|)
    ensures LengthTable(OverlapTable(uo, lists)) == LengthTable(lists)
    ensures SquareTable(OverlapTable(uo, lists), |lists|)
    ensures forall q :: 0 <= q < |lists| ==>
              ReceivedBy(OverlapTable(uo, lists), q) == SentRows(uo, ReceivedBy(lists, q))
  {
    forall p | 0 <= p < |lists| ensures Lengths(OverlapTable(uo, lists)[p]) == Lengths(lists[p]) {
    }
  }

  /** Copy the listed rows of an overlap into a buffer. */
  method PackOverlap(m: Mat, rowList: seq<nat>) returns (packed: Mat)
    requires AllBelow(rowList, |m|)
    ensures packed == GatherRows(m, rowList)
  {
    packed := [];
    var i := 0;
    while i < |rowList|
      invariant 0 <= i <= |rowList| && packed == GatherRows(m, rowList)[..i]
    {
      packed := packed + [m[rowList[i]]];
      i := i + 1;
    }
  }

  ghost predicate HasOffsets(u: Pieces, offsets: seq<nat>, rows: nat)
  {
    && |offsets| == |u| && |Flatten(u)| == rows
    && forall p :: 0 <= p < |u| ==> offsets[p] == StartOf(u, p)
  }

  /** Rows of a rank's part are rows of its own matrix. */
  lemma OwnedPart(u: Pieces, offsets: seq<nat>, rows: nat, rowList: seq<nat>, p: nat)
    requires HasOffsets(u, offsets, rows) && p < |u|
    requires forall i :: 0 <= i < |rowList| ==> InPart(offsets + [rows], p, rowList[i])
    ensures forall i :: 0 <= i < |rowList| ==> offsets[p] <= rowList[i] < offsets[p] + |u[p]|
  {
    StartOfStep(u, p);
    assert u[..|u|] == u;
    assert (offsets + [rows])[p + 1] == StartOf(u, p + 1);
  }

  function GatherTable(m: Mat, tables: seq<seq<seq<nat>>>): (r: seq<seq<Mat>>)
    ensures |r| == |tables| && forall p :: 0 <= p < |r| ==> r[p] == GatherPieces(m, tables[p])
  {
    seq(|tables|, p requires 0 <= p < |tables| => GatherPieces(m, tables[p]))
  }

  lemma GatherTableLengths(m: Mat, tables: seq<seq<seq<nat>>>)
    ensures LengthTable(GatherTable(m, tables)) == LengthTable(tables)
  {
    forall p | 0 <= p < |tables| ensures Lengths(GatherTable(m, tables)[p]) == Lengths(tables[p]) {
    }
  }

  lemma GatherTranspose(m: Mat, tables: seq<seq<seq<nat>>>)
    requires SquareTable(tables, |tables|)
    ensures SquareTable(GatherTable(m, tables), |tables|)
    ensures Transpose(GatherTable(m, tables)) == GatherTable(m, Transpose(tables))
  {
    forall q | 0 <= q < |tables|
      ensures Transpose(GatherTable(m, tables))[q] == GatherTable(m, Transpose(tables))[q]
    {
      assert ReceivedBy(GatherTable(m, tables), q) == GatherPieces(m, ReceivedBy(tables, q));
    }
  }

  /** A rank only sends rows it owns. */
  lemma SendsOwned(lists: seq<seq<seq<nat>>>, needed: seq<set<nat>>, cuts: seq<nat>, rows: nat, owner: nat)
    requires AllListRows(lists, needed, cuts) && SquareTable(lists, |lists|) && |cuts| == |lists| + 1
    requires owner < |lists|
    ensures forall i :: 0 <= i < |Flatten(Transpose(lists)[owner])| ==>
              InPart(cuts, owner, Flatten(Transpose(lists)[owner])[i])
  {
    var mine := Transpose(lists)[owner];
    forall i | 0 <= i < |Flatten(mine)| ensures InPart(cuts, owner, Flatten(mine)[i]) {
      var p, k := FlattenFind(mine, i);
      FlattenAt(mine, p, k);
      assert ListsRows(lists[p], needed[p], cuts);
      Member(mine[p], k);
    }
  }

  ghost predicate AllBelow(s: seq<nat>, rows: nat)
  {
    forall i :: 0 <= i < |s| ==> s[i] < rows
  }

  /** Over all owners, a rank lists exactly the rows it needs. */
  lemma ListedAre(lists: seq<seq<nat>>, needed: set<nat>, cuts: seq<nat>, rows: nat)
    requires ListsRows(lists, needed, cuts) && IsCuts(cuts, |lists|, rows)
    requires forall x :: x in needed ==> x < rows
    ensures SetOf(Flatten(lists)) == needed
    ensures AllBelow(Flatten(lists), rows)
  {
    var flat: seq<nat> := Flatten(lists);
    forall x: nat ensures x in flat <==> x in needed {
      if x in flat {
        var i: nat :| i < |flat| && flat[i] == x;
        var p, k := FlattenFind(lists, i);
        FlattenAt(lists, p, k);
        Member(lists[p], k);
      }
      if x in needed {
        PartOfSpec(cuts, rows, |lists|, x);
        var p := PartOf(cuts, x);
        var k: nat :| k < |lists[p]| && lists[p][k] == x;
        FlattenAt(lists, p, k);
      }
    }
    forall i | 0 <= i < |flat| ensures flat[i] < rows {
      Member(flat, i);
    }
  }

  /** Copy the listed rows of a rank's own matrix into its send buffer. */
  method PackOwned(own: Mat, rowList: seq<nat>, gidOffset: nat, ghost u: Pieces, ghost p: nat) returns (packed: Mat)
    requires p < |u| && own == u[p] && gidOffset == StartOf(u, p)
    requires forall i :: 0 <= i < |rowList| ==> gidOffset <= rowList[i] < gidOffset + |own|
    ensures packed == GatherRows(Flatten(u), rowList)
  {
    packed := [];
    var i := 0;
    while i < |rowList|
      invariant 0 <= i <= |rowList| && packed == GatherRows(Flatten(u), rowList)[..i]
    {
      var row := rowList[i] - gidOffset;
      FlattenAt(u, p, row);
      packed := packed + [own[row]];
      i := i + 1;
    }
  }
}
