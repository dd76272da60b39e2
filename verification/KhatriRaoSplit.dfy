/** The Khatri-Rao product of a data matrix with itself, split over a two-dimensional array of teams. */
module KhatriRaoSplit {
  import opened Arithmetic
  import opened Vectors
  import opened Mttkrp
  import opened UniformBlocking

  /** Rows of the data, columns, teams in both directions and threads per team. */
  datatype Split = Split(nrows: nat, ncols: nat, nteamsX: nat, nteamsY: nat, nthreads: nat) {

    ghost predicate Valid()
    {
      nteamsX > 0 && nteamsY > 0 && nthreads > 0
    }

    /** The row that a thread works on. */
    function RowOf(league: nat, rank: nat): nat
      requires nteamsX > 0
    {
      rank + (league % nteamsX) * nthreads
    }

    /** The columns of a team. */
    ghost predicate ColumnOf(league: nat, col: nat)
      requires nteamsX > 0 && nteamsY > 0
    {
      Start(ncols, nteamsY, league / nteamsX) <= col < Start(ncols, nteamsY, league / nteamsX + 1)
    }

    /** A cell belongs to a team. */
    ghost predicate Owns(league: nat, row: nat, col: nat)
      requires Valid()
    {
      row / nthreads == league % nteamsX && ColumnOf(league, col)
    }

    /** Entry of the product: row r stands for the pair of data rows (r / nrows, r % nrows). */
    function Entry(a: Mat, row: nat, col: nat): real
    {
      if nrows == 0 then 0.0 else At(a, row / nrows, col) * At(a, row % nrows, col)
    }
  }

  ghost predicate IsPair(s: Split, row: nat, i: nat, j: nat)
  {
    i < s.nrows && j < s.nrows && row == i * s.nrows + j
  }

  lemma PairIs(s: Split, row: nat, i: nat, j: nat)
    requires i < s.nrows && j < s.nrows && row == i * s.nrows + j
    ensures IsPair(s, row, i, j)
  {
  }

  /** Row i * nrows + j holds the products of data rows i and j. */
  lemma EntryIsPlain(s: Split, a: Mat, row: nat, i: nat, j: nat, col: nat)
    requires IsPair(s, row, i, j)
    ensures s.Entry(a, row, col) == At(a, i, col) * At(a, j, col) && row < s.nrows * s.nrows
  {
    QuotientUnique(row, s.nrows, i, j);
    MulMono(i + 1, s.nrows, s.nrows);
    Distribute(i, 1, s.nrows);
  }

  lemma RowOfThread(s: Split, league: nat, rank: nat, row: nat)
    requires s.Valid() && rank < s.nthreads
    ensures s.RowOf(league, rank) / s.nthreads == league % s.nteamsX
    ensures row / s.nthreads == league % s.nteamsX && row % s.nthreads == rank ==> row == s.RowOf(league, rank)
  {
    QuotientUnique(s.RowOf(league, rank), s.nthreads, league % s.nteamsX, rank);
    SubtractMultiple(row, s.nthreads);
  }

  /** What one thread does: its row, in the columns of its team, if the row exists. */
  method Thread(s: Split, a: Mat, result: array2<real>, league: nat, rank: nat)
    requires s.Valid() && league < s.nteamsX * s.nteamsY && rank < s.nthreads
    requires result.Length0 == s.nrows * s.nrows && result.Length1 == s.ncols
    modifies result
    ensures forall row: nat, col: nat :: row < result.Length0 && col < result.Length1 ==>
              result[row, col] == if row == s.RowOf(league, rank) && s.ColumnOf(league, col) then s.Entry(a, row, col)
                                  else old(result[row, col])
    ensures s.RowOf(league, rank) < result.Length0 ==>
              forall i: nat, j: nat, col: nat ::
                i < s.nrows && j < s.nrows && col < s.ncols && s.ColumnOf(league, col)
                && s.RowOf(league, rank) == i * s.nrows + j ==>
                result[s.RowOf(league, rank), col] == At(a, i, col) * At(a, j, col)
  {
    QuotientBelow(league, s.nteamsX, s.nteamsY);
    var colStart, colEnd := KrpColumns(s.ncols, s.nteamsY, league / s.nteamsX);
    StartMonotone(s.ncols, s.nteamsY, league / s.nteamsX, league / s.nteamsX + 1);
    StartMonotone(s.ncols, s.nteamsY, league / s.nteamsX + 1, s.nteamsY);
    StartBounds(s.ncols, s.nteamsY);
    var row := rank + (league % s.nteamsX) * s.nthreads;
    Columns(s, a, result, row, colStart, colEnd);
    hide Split.Entry, At;
    if row < result.Length0 {
      ThreadPairs(s, a, result, league, row);
    }
  }

  /** One row in a range of columns. */
  method Columns(s: Split, a: Mat, result: array2<real>, row: nat, colStart: nat, colEnd: nat)
    requires result.Length0 == s.nrows * s.nrows && colStart <= colEnd <= result.Length1
    modifies result
    ensures forall i: nat, c: nat :: i < result.Length0 && c < result.Length1 ==>
              result[i, c] == if i == row && colStart <= c < colEnd then s.Entry(a, i, c) else old(result[i, c])
  {
    var col := colStart;
    while col < colEnd
      invariant colStart <= col <= colEnd
      invariant forall i: nat, c: nat :: i < result.Length0 && c < result.Length1 ==>
                  result[i, c] == if i == row && colStart <= c < col then s.Entry(a, i, c) else old(result[i, c])
    {
      if row < s.nrows * s.nrows {
        var left, right := row / s.nrows, row % s.nrows;
        result[row, col] := At(a, left, col) * At(a, right, col);
      }
      col := col + 1;
    }
  }

  lemma ThreadPairs(s: Split, a: Mat, result: array2<real>, league: nat, row: nat)
    requires s.Valid() && row < result.Length0 && result.Length1 == s.ncols
    requires forall c: nat :: c < s.ncols && s.ColumnOf(league, c) ==> result[row, c] == s.Entry(a, row, c)
    ensures forall i: nat, j: nat, c: nat ::
              i < s.nrows && j < s.nrows && c < s.ncols && s.ColumnOf(league, c) && row == i * s.nrows + j ==>
              result[row, c] == At(a, i, c) * At(a, j, c)
  {
    hide At, Split.Entry, Split.ColumnOf, IsPair;
    forall i: nat, j: nat, c: nat |
      i < s.nrows && j < s.nrows && c < s.ncols && s.ColumnOf(league, c) && row == i * s.nrows + j
      ensures result[row, c] == At(a, i, c) * At(a, j, c)
    {
      PairIs(s, row, i, j);
      EntryIsPlain(s, a, row, i, j, c);
    }
  }

  /** All threads of one team. */
  method Team(s: Split, a: Mat, result: array2<real>, league: nat)
    requires s.Valid() && league < s.nteamsX * s.nteamsY
    requires result.Length0 == s.nrows * s.nrows && result.Length1 == s.ncols
    modifies result
    ensures forall row: nat, col: nat :: row < result.Length0 && col < result.Length1 ==>
              result[row, col] == if s.Owns(league, row, col) then s.Entry(a, row, col) else old(result[row, col])
  {
    var rank := 0;
    while rank < s.nthreads
      invariant 0 <= rank <= s.nthreads
      invariant forall row: nat, col: nat :: row < result.Length0 && col < result.Length1 ==>
                  result[row, col] == if s.Owns(league, row, col) && row % s.nthreads < rank then s.Entry(a, row, col)
                                      else old(result[row, col])
    {
      Thread(s, a, result, league, rank);
      forall row: nat | row < result.Length0
        ensures row == s.RowOf(league, rank) <==> row / s.nthreads == league % s.nteamsX && row % s.nthreads == rank
      {
        RowOfThread(s, league, rank, row);
        QuotientUnique(s.RowOf(league, rank), s.nthreads, league % s.nteamsX, rank);
      }
      rank := rank + 1;
    }
    forall row: nat | row < result.Length0 ensures row % s.nthreads < s.nthreads {
      SubtractMultiple(row, s.nthreads);
    }
  }

  lemma TeamNumber(nx: nat, ny: nat, idx: nat, idy: nat) returns (league: nat)
    requires idx < nx && idy < ny
    ensures league < nx * ny && league / nx == idy && league % nx == idx
  {
    league := idy * nx + idx;
    QuotientUnique(league, nx, idy, idx);
    MulMono(idy + 1, ny, nx);
    Distribute(idy, 1, nx);
    assert ny * nx == nx * ny;
  }

  /** The team of a cell. */
  lemma OwnerOf(s: Split, row: nat, col: nat) returns (league: nat)
    requires s.Valid() && row < s.nteamsX * s.nthreads && col < s.ncols
    ensures league < s.nteamsX * s.nteamsY && s.Owns(league, row, col)
  {
    hide PartOf, Start;
    var cuts := UniformCuts(s.ncols, s.nteamsY);
    UniformIsBalanced(cuts, s.ncols, s.nteamsY);
    PartOfSpec(cuts, s.ncols, s.nteamsY, col);
    var idy := PartOf(cuts, col);
    assert cuts[idy] == Start(s.ncols, s.nteamsY, idy) && cuts[idy + 1] == Start(s.ncols, s.nteamsY, idy + 1);
    DivModLess(row, s.nteamsX, s.nthreads);
    league := TeamNumber(s.nteamsX, s.nteamsY, row / s.nthreads, idy);
  }

  lemma PairsAreProducts(s: Split, a: Mat, result: array2<real>, reached: nat)
    requires result.Length1 == s.ncols
    requires forall row: nat, col: nat :: row < result.Length0 && col < s.ncols && row < reached ==>
               result[row, col] == s.Entry(a, row, col)
    ensures forall row: nat, i: nat, j: nat, col: nat ::
              row < result.Length0 && row < reached && IsPair(s, row, i, j) && col < s.ncols ==>
              result[row, col] == At(a, i, col) * At(a, j, col)
  {
    hide IsPair, Split.Entry, At;
    forall row: nat, i: nat, j: nat, col: nat |
      row < result.Length0 && row < reached && IsPair(s, row, i, j) && col < s.ncols
      ensures result[row, col] == At(a, i, col) * At(a, j, col)
    {
      EntryIsPlain(s, a, row, i, j, col);
    }
  }

  /** All teams: exactly the rows that the threads reach are computed, each in every column, and row
      i * nrows + j holds the products of data rows i and j. */
  method ComputeKhatriRaoProduct(s: Split, a: Mat, result: array2<real>)
    requires s.Valid()
    requires result.Length0 == s.nrows * s.nrows && result.Length1 == s.ncols
    modifies result
    ensures forall row: nat, col: nat :: row < result.Length0 && col < result.Length1 ==>
              result[row, col] == if row < s.nteamsX * s.nthreads then s.Entry(a, row, col) else old(result[row, col])
    ensures forall row: nat, i: nat, j: nat, col: nat ::
              row < result.Length0 && row < s.nteamsX * s.nthreads && i < s.nrows && j < s.nrows && col < s.ncols
              && row == i * s.nrows + j ==>
              result[row, col] == At(a, i, col) * At(a, j, col)
  {
    hide Split.Entry, At, IsPair;
    AllTeams(s, a, result);
    PairsAreProducts(s, a, result, s.nteamsX * s.nthreads);
    forall row: nat, i: nat, j: nat, col: nat |
      row < result.Length0 && row < s.nteamsX * s.nthreads && i < s.nrows && j < s.nrows && col < s.ncols
      && row == i * s.nrows + j
      ensures result[row, col] == At(a, i, col) * At(a, j, col)
    {
      PairIs(s, row, i, j);
    }
  }

  method AllTeams(s: Split, a: Mat, result: array2<real>)
    requires s.Valid()
    requires result.Length0 == s.nrows * s.nrows && result.Length1 == s.ncols
    modifies result
    ensures forall row: nat, col: nat :: row < result.Length0 && col < result.Length1 ==>
              result[row, col] == if row < s.nteamsX * s.nthreads then s.Entry(a, row, col) else old(result[row, col])
  {
    var league := 0;
    while league < s.nteamsX * s.nteamsY
      invariant 0 <= league <= s.nteamsX * s.nteamsY
      invariant forall row: nat, col: nat, g: nat ::
                  row < result.Length0 && col < result.Length1 && g < league && s.Owns(g, row, col) ==>
                  result[row, col] == s.Entry(a, row, col)
      invariant forall row: nat, col: nat ::
                  row < result.Length0 && col < result.Length1 && row >= s.nteamsX * s.nthreads ==>
                  result[row, col] == old(result[row, col])
    {
      Team(s, a, result, league);
      forall row: nat | row >= s.nteamsX * s.nthreads ensures row / s.nthreads != league % s.nteamsX {
        BeyondTeams(s, league, row);
      }
      league := league + 1;
    }
    forall row: nat, col: nat | row < result.Length0 && col < result.Length1 && row < s.nteamsX * s.nthreads
      ensures result[row, col] == s.Entry(a, row, col)
    {
      var g := OwnerOf(s, row, col);
    }
  }

  lemma BeyondTeams(s: Split, league: nat, row: nat)
    requires s.Valid() && row >= s.nteamsX * s.nthreads
    ensures row / s.nthreads != league % s.nteamsX
  {
    SubtractMultiple(row, s.nthreads);
    var q := row / s.nthreads;
    if q < s.nteamsX {
      MulMono(q + 1, s.nteamsX, s.nthreads);
      Distribute(q, 1, s.nthreads);
    }
  }
}
