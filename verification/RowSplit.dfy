/** A matrix whose rows are spread over ranks, every row on exactly one of them: sums and maxima over
    the ranks' own rows, reduced over the ranks, are those over all rows. */
module RowSplit {
  import opened Vectors
  import opened Sums
  import opened Mttkrp
  import opened ColumnMax

  /** Rank t has the rows from offs[t] on, lens[t] of them. */
  datatype Split = Split(offs: seq<nat>, lens: seq<nat>, rows: nat) {

    predicate Owns(t: nat, row: nat)
    {
      t < |offs| == |lens| && offs[t] <= row < offs[t] + lens[t]
    }

    ghost predicate HasOwner(row: nat)
    {
      exists t: nat :: Owns(t, row)
    }

    ghost predicate Valid()
    {
      && |offs| == |lens|
      && (forall t :: 0 <= t < |offs| ==> offs[t] + lens[t] <= rows)
      && (forall row: nat :: row < rows ==> HasOwner(row))
      && (forall row: nat, a: nat, b: nat :: Owns(a, row) && Owns(b, row) ==> a == b)
    }

    /** parts[t] has the rows of rank t. */
    ghost predicate Pieces(parts: seq<Mat>, nc: nat)
    {
      |parts| == |lens| && forall t :: 0 <= t < |parts| ==> IsMat(parts[t], lens[t], nc)
    }

    /** The rank that owns a row. */
    function OwnerOf(row: nat): (t: nat)
      requires Valid() && row < rows
      ensures Owns(t, row)
    {
      assert HasOwner(row);
      var t: nat :| t < |offs| && Owns(t, row);
      t
    }

    /** The matrix whose pieces these are. */
    function Whole(parts: seq<Mat>, nc: nat): (a: Mat)
      requires Valid() && Pieces(parts, nc)
      ensures IsMat(a, rows, nc)
    {
      seq(rows, row requires 0 <= row < rows => parts[OwnerOf(row)][row - offs[OwnerOf(row)]])
    }

    lemma WholeRow(parts: seq<Mat>, nc: nat, t: nat, k: nat)
      requires Valid() && Pieces(parts, nc) && t < |lens| && k < lens[t]
      ensures offs[t] + k < rows && Whole(parts, nc)[offs[t] + k] == parts[t][k]
    {
      var row := offs[t] + k;
      assert Owns(t, row);
    }

    lemma WholeAt(parts: seq<Mat>, nc: nat, t: nat, k: nat, r: nat)
      requires Valid() && Pieces(parts, nc) && t < |lens| && k < lens[t]
      ensures offs[t] + k < rows && At(Whole(parts, nc), offs[t] + k, r) == At(parts[t], k, r)
    {
      WholeRow(parts, nc, t, k);
    }

    lemma WholePiece(parts: seq<Mat>, nc: nat, t: nat)
      requires Valid() && Pieces(parts, nc) && t < |lens|
      ensures Whole(parts, nc)[offs[t]..offs[t] + lens[t]] == parts[t]
    {
      var a := Whole(parts, nc);
      hide Whole;
      forall k: nat | k < lens[t] ensures a[offs[t]..offs[t] + lens[t]][k] == parts[t][k] {
        WholeRow(parts, nc, t, k);
      }
    }

    // ----- sums

    /** The sums over the ranks' own rows. */
    function PieceSums(locals: (nat, nat) -> real): nat -> real
    {
      (t: nat) => if t < |lens| then Sum(lens[t], Row(locals, t)) else 0.0
    }

    /** f on the rows that rank t owns, zero elsewhere. */
    function OnOwned(f: nat -> real): (nat, nat) -> real
    {
      (t: nat, row: nat) => if Owns(t, row) then f(row) else 0.0
    }

    lemma OwnSum(f: nat -> real, local: nat -> real, t: nat)
      requires Valid() && t < |lens| && forall k: nat :: k < lens[t] ==> local(k) == f(offs[t] + k)
      ensures Sum(lens[t], local) == Sum(rows, Row(OnOwned(f), t))
    {
      var lo, n, h := offs[t], lens[t], Row(OnOwned(f), t);
      var rest := rows - (lo + n);
      SumSplit(lo + n, rest, h);
      SumSplit(lo, n, h);
      SumZero(lo, h);
      SumZero(rest, Shifted(h, lo + n));
      SumExt(n, Shifted(h, lo), local);
    }

    lemma RowCounted(f: nat -> real, row: nat)
      requires Valid() && row < rows
      ensures Sum(|lens|, Col(OnOwned(f), row)) == f(row)
    {
      var owner, h := OwnerOf(row), Col(OnOwned(f), row);
      SumPoint(|lens|, owner, h);
    }

    /** Reduced over the ranks they are the sum over all rows. */
    lemma ReducedSum(f: nat -> real, locals: (nat, nat) -> real)
      requires Valid()
      requires forall t: nat, k: nat :: t < |lens| && k < lens[t] ==> locals(t, k) == f(offs[t] + k)
      ensures Sum(|lens|, PieceSums(locals)) == Sum(rows, f)
    {
      var h, n := OnOwned(f), |lens|;
      hide Split.OnOwned, Split.Valid;
      forall t: nat | t < n ensures PieceSums(locals)(t) == RowSums(rows, h)(t) {
        OwnSum(f, Row(locals, t), t);
      }
      SumExt(n, PieceSums(locals), RowSums(rows, h));
      SumSwap(n, rows, h);
      forall row: nat | row < rows ensures ColSums(n, h)(row) == f(row) {
        RowCounted(f, row);
      }
      SumExt(rows, ColSums(n, h), f);
    }

    // ----- maxima

    function PieceMax(parts: seq<Mat>, r: nat): nat -> real
    {
      (t: nat) => if t < |parts| then ColMax(parts[t], r, |parts[t]|) else 0.0
    }

    lemma MaxIsBound(parts: seq<Mat>, nc: nat, r: nat, i: nat)
      requires Valid() && Pieces(parts, nc) && i < rows
      ensures Abs(At(Whole(parts, nc), i, r)) <= AllReduceMax(|parts|, PieceMax(parts, r))
    {
      var t := OwnerOf(i);
      var k := i - offs[t];
      WholeAt(parts, nc, t, k, r);
      ColMaxSpec(parts[t], r, |parts[t]|);
      hide Split.Whole, At, Abs, ColMax;
      assert Abs(At(parts[t], k, r)) <= ColMax(parts[t], r, |parts[t]|);
      assert PieceMax(parts, r)(t) <= AllReduceMax(|parts|, PieceMax(parts, r));
    }

    lemma MaxIsAttained(parts: seq<Mat>, nc: nat, r: nat)
      requires Valid() && Pieces(parts, nc) && AllReduceMax(|parts|, PieceMax(parts, r)) != 0.0
      ensures Attained(AllReduceMax(|parts|, PieceMax(parts, r)), Whole(parts, nc), r, 0, rows)
    {
      var v := AllReduceMax(|parts|, PieceMax(parts, r));
      var t: nat :| t < |parts| && PieceMax(parts, r)(t) == v;
      ColMaxSpec(parts[t], r, |parts[t]|);
      hide Split.Whole, At, Abs, ColMax, AllReduceMax;
      var k: nat :| k < |parts[t]| && v == Abs(At(parts[t], k, r));
      WholeAt(parts, nc, t, k, r);
      assert v == Abs(At(Whole(parts, nc), offs[t] + k, r));
    }

    /** Reduced over the ranks the largest entries of the pieces are the largest of the matrix. */
    lemma ReducedMax(parts: seq<Mat>, nc: nat, r: nat)
      requires Valid() && Pieces(parts, nc)
      ensures AllReduceMax(|parts|, PieceMax(parts, r)) == ColMax(Whole(parts, nc), r, rows)
      ensures var a, v := Whole(parts, nc), AllReduceMax(|parts|, PieceMax(parts, r));
              && (forall i: nat :: i < rows ==> -v <= At(a, i, r) <= v)
              && (v == 0.0 || exists i: nat :: i < rows && (At(a, i, r) == v || At(a, i, r) == -v))
    {
      var a, v := Whole(parts, nc), AllReduceMax(|parts|, PieceMax(parts, r));
      hide Split.Whole, At, Abs, ColMax, AllReduceMax, Split.PieceMax, Split.Valid, Attained;
      forall i: nat | i < rows ensures Abs(At(a, i, r)) <= v {
        MaxIsBound(parts, nc, r, i);
      }
      if v != 0.0 {
        MaxIsAttained(parts, nc, r);
      }
      ColMaxSpec(a, r, rows);
      assert IsMax(v, a, r, 0, rows);
      hide IsMax;
      MaxIsPlain(v, a, r, 0, rows);
      IsMaxUnique(v, ColMax(a, r, rows), a, r, 0, rows);
    }
  }

  /** The largest of the first n values, at least zero (MPI_Allreduce with MPI_MAX). */
  function AllReduceMax(n: nat, values: nat -> real): (v: real)
    ensures v >= 0.0 && forall t: nat :: t < n ==> values(t) <= v
    ensures v == 0.0 || exists t: nat :: t < n && values(t) == v
  {
    if n == 0 then 0.0
    else
      var before := AllReduceMax(n - 1, values);
      if before < values(n - 1) then values(n - 1) else before
  }
}
