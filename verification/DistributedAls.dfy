/** One mode update of the ALS loop on a grid: every rank solves for its own rows, and Gram matrices and
    column norms are reduced over all ranks. Together the ranks make a step of the serial loop. */
module DistributedAls {
  import opened Vectors
  import opened Layout
  import opened ProcessGrid
  import opened Sums
  import opened Mttkrp
  import opened UniformBlocking
  import opened KtensorAlgebra
  import opened FactorMatrix
  import opened LeastSquares
  import opened ColumnMax
  import opened RowOwnership
  import opened RowSplit
  import opened TwoSidedUpdate
  import opened DistributedMttkrp
  import opened DistributedRun
  import opened AlsRuns

  // ----- Gram matrices

  /** Entry (r, q) of the ranks' matrices. */
  function EntryOf(ms: seq<Mat>, r: nat, q: nat): nat -> real
  {
    (t: nat) => if t < |ms| then At(ms[t], r, q) else 0.0
  }

  /** MPI_Allreduce of matrices with MPI_SUM. */
  function AllReduceSum(ms: seq<Mat>, nc: nat): (m: Mat)
    ensures IsMat(m, nc, nc)
    ensures forall r: nat, q: nat :: r < nc && q < nc ==> At(m, r, q) == Sum(|ms|, EntryOf(ms, r, q))
  {
    Tabulate(nc, nc, (r: nat, q: nat) => Sum(|ms|, EntryOf(ms, r, q)))
  }

  function LocalProducts(parts: seq<Mat>, r: nat, q: nat): (nat, nat) -> real
  {
    (t: nat, k: nat) => if t < |parts| then At(parts[t], k, r) * At(parts[t], k, q) else 0.0
  }

  lemma GramEntry(before: Mat, a: Mat, nc: nat, full: bool, r: nat, q: nat)
    requires Kept(r, q, nc, full)
    ensures At(GramInto(before, a, nc, full), r, q) == Sum(|a|, ColumnProducts(a, a, r, q))
  {
  }

  lemma PieceGram(sp: Split, parts: seq<Mat>, nc: nat, before: Mat, gram: Mat, full: bool, r: nat, q: nat, t: nat)
    requires sp.Pieces(parts, nc) && t < |parts| && Kept(r, q, nc, full)
    requires gram == GramInto(before, parts[t], nc, full)
    ensures At(gram, r, q) == sp.PieceSums(LocalProducts(parts, r, q))(t)
  {
    GramEntry(before, parts[t], nc, full, r, q);
    hide At;
    SumExt(|parts[t]|, ColumnProducts(parts[t], parts[t], r, q), Row(LocalProducts(parts, r, q), t));
  }

  lemma WholeProducts(sp: Split, parts: seq<Mat>, nc: nat, r: nat, q: nat)
    requires sp.Valid() && sp.Pieces(parts, nc)
    ensures Sum(|sp.lens|, sp.PieceSums(LocalProducts(parts, r, q)))
         == Sum(sp.rows, ColumnProducts(sp.Whole(parts, nc), sp.Whole(parts, nc), r, q))
  {
    var a, locals := sp.Whole(parts, nc), LocalProducts(parts, r, q);
    var f := ColumnProducts(a, a, r, q);
    hide Split.Whole, Split.Valid, At;
    forall t: nat, k: nat | t < |sp.lens| && k < sp.lens[t] ensures locals(t, k) == f(sp.offs[t] + k) {
      sp.WholeAt(parts, nc, t, k, r);
      sp.WholeAt(parts, nc, t, k, q);
    }
    sp.ReducedSum(f, locals);
  }

  lemma ReducedGramEntry(sp: Split, parts: seq<Mat>, nc: nat, before: Mat, grams: seq<Mat>, full: bool, r: nat,
      q: nat)
    requires sp.Valid() && sp.Pieces(parts, nc) && |grams| == |parts| && Kept(r, q, nc, full)
    requires forall t: nat :: t < |grams| ==> grams[t] == GramInto(before, parts[t], nc, full)
    ensures Sum(|grams|, EntryOf(grams, r, q))
         == Sum(sp.rows, ColumnProducts(sp.Whole(parts, nc), sp.Whole(parts, nc), r, q))
  {
    var locals := LocalProducts(parts, r, q);
    hide Split.Whole, GramInto, Split.Valid, LocalProducts, Split.PieceSums, At;
    WholeProducts(sp, parts, nc, r, q);
    forall t: nat | t < |grams| ensures EntryOf(grams, r, q)(t) == sp.PieceSums(locals)(t) {
      PieceGram(sp, parts, nc, before, grams[t], full, r, q, t);
    }
    SumExt(|grams|, EntryOf(grams, r, q), sp.PieceSums(locals));
  }

  /** The Gram matrices of the pieces add up to that of the matrix, in the entries that are kept. */
  lemma ReducedGram(sp: Split, parts: seq<Mat>, nc: nat, before: Mat, grams: seq<Mat>, full: bool)
    requires sp.Valid() && sp.Pieces(parts, nc) && |grams| == |parts|
    requires forall t: nat :: t < |grams| ==> grams[t] == GramInto(before, parts[t], nc, full)
    ensures KeptEqual(AllReduceSum(grams, nc), GramOf(sp.Whole(parts, nc)), nc, full)
  {
    var a := sp.Whole(parts, nc);
    hide Split.Whole, GramInto, Split.Valid, AllReduceSum;
    forall r: nat, q: nat | Kept(r, q, nc, full) ensures At(AllReduceSum(grams, nc), r, q) == GramOf(a)(r, q) {
      ReducedGramEntry(sp, parts, nc, before, grams, full, r, q);
    }
  }

  /** Every rank's Gram matrix of its own rows, summed over the ranks. */
  method GramOnGrid(sp: Split, parts: seq<Mat>, nc: nat, before: Mat, full: bool) returns (gram: Mat)
    requires sp.Valid() && sp.Pieces(parts, nc)
    ensures KeptEqual(gram, GramOf(sp.Whole(parts, nc)), nc, full)
  {
    hide GramInto, AllReduceSum;
    var grams := seq(|parts|, t requires 0 <= t < |parts| => GramInto(before, parts[t], nc, full));
    ReducedGram(sp, parts, nc, before, grams, full);
    gram := AllReduceSum(grams, nc);
  }

  // ----- column norms

  function LocalSquares(parts: seq<Mat>, r: nat): (nat, nat) -> real
  {
    (t: nat, k: nat) => if t < |parts| then At(parts[t], k, r) * At(parts[t], k, r) else 0.0
  }

  /** Column norms: local sums of squares or local maxima, reduced over all ranks. */
  function ReducedNorms(sp: Split, parts: seq<Mat>, nc: nat, first: bool, sqrt: real -> real): (v: Vec)
    ensures |v| == nc
  {
    seq(nc, (r: nat) =>
      if first then sqrt(Sum(|sp.lens|, sp.PieceSums(LocalSquares(parts, r))))
      else AtLeast(AllReduceMax(|parts|, sp.PieceMax(parts, r)), 1.0))
  }

  lemma ReducedSquares(sp: Split, parts: seq<Mat>, nc: nat, r: nat)
    requires sp.Valid() && sp.Pieces(parts, nc)
    ensures Sum(|sp.lens|, sp.PieceSums(LocalSquares(parts, r))) == Sum(sp.rows, ColSquares(sp.Whole(parts, nc), r))
  {
    var f, locals := ColSquares(sp.Whole(parts, nc), r), LocalSquares(parts, r);
    hide Split.Whole, Split.Valid;
    forall t: nat, k: nat | t < |sp.lens| && k < sp.lens[t] ensures locals(t, k) == f(sp.offs[t] + k) {
      sp.WholeAt(parts, nc, t, k, r);
    }
    sp.ReducedSum(f, locals);
  }

  /** Reduced over the ranks, the column norms are those of the whole matrix. */
  lemma ReducedNormsAreNorms(sp: Split, parts: seq<Mat>, nc: nat, first: bool, sqrt: real -> real)
    requires sp.Valid() && sp.Pieces(parts, nc)
    ensures ReducedNorms(sp, parts, nc, first, sqrt) == ColNorms(sp.Whole(parts, nc), nc, first, sqrt)
  {
    var a := sp.Whole(parts, nc);
    hide Split.Whole, ColMax, AllReduceMax, Sum, Split.Valid, Split.PieceMax, Split.PieceSums;
    forall r: nat | r < nc
      ensures ReducedNorms(sp, parts, nc, first, sqrt)[r] == ColNorms(a, nc, first, sqrt)[r]
    {
      sp.ReducedMax(parts, nc, r);
      ReducedSquares(sp, parts, nc, r);
    }
  }

  // ----- solving row by row

  /** Rows of a product depend on the row alone. */
  lemma ProductRow(a: Mat, b: Mat, h: (nat, nat) -> real, nc: nat, i: nat, k: nat, q: nat)
    requires i < |a| && k < |b| && q < nc && a[i] == b[k]
    ensures At(MatMul(a, h, nc), i, q) == At(MatMul(b, h, nc), k, q)
  {
    forall r: nat | r < nc ensures MulTerm(a, h, i, q)(r) == MulTerm(b, h, k, q)(r) {
      assert At(a, i, r) == At(b, k, r);
    }
    SumExt(nc, MulTerm(a, h, i, q), MulTerm(b, h, k, q));
  }

  /** When every rank solves for its own rows, the rows together solve the whole system. */
  lemma SolvedTogether(sp: Split, parts: seq<Mat>, nc: nat, s: Mat, rhs: seq<Mat>, b: Mat)
    requires sp.Valid() && sp.Pieces(parts, nc) && |rhs| == |parts| && |b| == sp.rows
    requires forall t :: 0 <= t < |parts| ==> |rhs[t]| == sp.lens[t] && SolvesSystem(parts[t], s, rhs[t], nc)
    requires forall t: nat, k: nat, q: nat :: t < |sp.lens| && k < sp.lens[t] && q < nc ==>
               At(rhs[t], k, q) == At(b, sp.offs[t] + k, q)
    ensures SolvesSystem(sp.Whole(parts, nc), s, b, nc)
  {
    var a := sp.Whole(parts, nc);
    forall i: nat, q: nat | i < |b| && q < nc ensures At(MatMul(a, Entries(s), nc), i, q) == At(b, i, q) {
      var t := sp.OwnerOf(i);
      var k := i - sp.offs[t];
      sp.WholeRow(parts, nc, t, k);
      hide Split.Whole, At, Split.Valid, MatMul;
      ProductRow(a, parts[t], Entries(s), nc, i, k, q);
      assert SolvesSystem(parts[t], s, rhs[t], nc);
    }
  }

  /** Scaling the columns of every piece scales those of the matrix. */
  lemma WholeScaled(sp: Split, parts: seq<Mat>, scaled: seq<Mat>, nc: nat, v: Vec)
    requires sp.Valid() && sp.Pieces(parts, nc) && |v| == nc && |scaled| == |parts|
    requires forall t :: 0 <= t < |scaled| ==> scaled[t] == ColScaled(parts[t], v)
    ensures sp.Pieces(scaled, nc) && sp.Whole(scaled, nc) == ColScaled(sp.Whole(parts, nc), v)
  {
    var a, b := sp.Whole(parts, nc), sp.Whole(scaled, nc);
    forall i: nat, r: nat | i < sp.rows && r < nc ensures At(b, i, r) == At(ColScaled(a, v), i, r) {
      var t := sp.OwnerOf(i);
      var k := i - sp.offs[t];
      sp.WholeAt(parts, nc, t, k, r);
      sp.WholeAt(scaled, nc, t, k, r);
    }
    SameEntries(b, ColScaled(a, v), sp.rows, nc);
  }

  // ----- the grid

  /** How the rows of a mode are spread over the grid. */
  function GridSplit(g: Grid, m: nat): (sp: Split)
    requires g.Valid() && m < |g.procs|
    ensures sp.rows == g.dims[m] && |sp.offs| == |sp.lens| == g.Size()
    ensures forall t: nat :: t < g.Size() ==> sp.offs[t] == RowOffset(g, m, t) && sp.lens[t] == RowCount(g, m, t)
  {
    Split(seq(g.Size(), t requires 0 <= t < g.Size() => RowOffset(g, m, t)),
          seq(g.Size(), t requires 0 <= t < g.Size() => RowCount(g, m, t)), g.dims[m])
  }

  /** Every row is on exactly one rank. */
  lemma GridSplitValid(g: Grid, m: nat)
    requires g.Valid() && m < |g.procs|
    ensures GridSplit(g, m).Valid()
  {
    var sp := GridSplit(g, m);
    hide RowOffset, RowCount, Grid.Valid, GridSplit;
    forall t: nat | t < g.Size() ensures sp.offs[t] + sp.lens[t] <= sp.rows {
      RowsInMatrix(g, m, t);
    }
    forall row: nat | row < sp.rows ensures sp.HasOwner(row) {
      var t := RowHasOwner(g, m, row);
      assert sp.Owns(t, row);
    }
    forall row: nat, a: nat, b: nat | sp.Owns(a, row) && sp.Owns(b, row) ensures a == b {
      RowOwnerUnique(g, m, row, a, b);
    }
  }

  lemma PieceIsOwned(g: Grid, m: nat, parts: seq<Mat>, nc: nat, t: nat)
    requires g.Valid() && m < |g.procs| && t < g.Size() && GridSplit(g, m).Valid()
    requires GridSplit(g, m).Pieces(parts, nc)
    ensures OwnedRows(g, m, GridSplit(g, m).Whole(parts, nc), t) == parts[t]
  {
    hide RowOffset, RowCount, Grid.Valid, GridSplit, Split.Whole;
    RowsInMatrix(g, m, t);
    GridSplit(g, m).WholePiece(parts, nc, t);
  }

  /** What the ranks hold between two mode updates: rows by mode and rank, and on every rank alike the
      Gram matrices, the weights and the last product of Gram matrices; and by rank the rows of the
      last mode's MTTKRP. */
  datatype GridState = GridState(factors: seq<seq<Mat>>, gamma: seq<Mat>, lambda: Vec, upsilon: Mat, un: seq<Mat>)

  /** The job is the problem on a grid, with weights one as the loop keeps them. */
  ghost predicate OnGrid(problem: AlsProblem, job: Job)
  {
    && job.Valid() && job.x == problem.x && job.g.dims == problem.dims && job.nc == problem.nc
    && job.w == Ones(problem.nc)
  }

  /** The ranks hold the factors of the job, and Gram matrices of every mode but n. */
  ghost predicate GridHolds(problem: AlsProblem, job: Job, st: GridState, n: nat, full: bool)
    requires OnGrid(problem, job)
  {
    FactorsSpread(job, st.factors) && GramsKept(st.gamma, job.u, n, job.nc, full) && |st.lambda| == job.nc
  }

  /** The rows of the mode-n MTTKRP that a rank owns. */
  function RankRhs(problem: AlsProblem, job: Job, n: nat, t: nat): (b: Mat)
    requires OnGrid(problem, job) && n < |job.g.dims| && t < job.g.Size()
  {
    OwnedRows(job.g, n, MttkrpMat(problem.x, job.u, Ones(job.nc), n, problem.dims[n], job.nc), t)
  }

  /** What the solver returns on a rank. */
  function RankSolve(problem: AlsProblem, job: Job, n: nat, t: nat): (r: Result<Mat>)
    requires OnGrid(problem, job) && n < |job.g.dims| && t < job.g.Size()
  {
    problem.numerics.solve(SystemMat(job.u, n, job.nc, problem.penalty), RankRhs(problem, job, n, t), job.nc)
  }

  ghost predicate SomeSolveFails(problem: AlsProblem, job: Job, n: nat)
    requires OnGrid(problem, job) && n < |job.g.dims|
  {
    exists t: nat :: t < job.g.Size() && RankSolve(problem, job, n, t).Error?
  }

  function RankSolutions(problem: AlsProblem, job: Job, n: nat): (parts: seq<Mat>)
    requires OnGrid(problem, job) && n < |job.g.dims| && !SomeSolveFails(problem, job, n)
    ensures |parts| == job.g.Size()
  {
    seq(job.g.Size(), t requires 0 <= t < job.g.Size() => RankSolve(problem, job, n, t).value)
  }

  /** How an update of mode n ends on the grid: the solver fails on some rank, or some column of the ranks'
      solutions has norm zero, or all is well. */
  ghost function GridEnds(problem: AlsProblem, job: Job, n: nat, first: bool): Status
    requires OnGrid(problem, job) && n < |job.g.dims|
  {
    if SomeSolveFails(problem, job, n) then SolveFailed
    else
      NormsEnd(ReducedNorms(GridSplit(job.g, n), RankSolutions(problem, job, n), job.nc, first, problem.numerics.sqrt))
  }

  /** Every rank solves the same system for its own right-hand sides. */
  method SolveOnAll(problem: AlsProblem, job: Job, n: nat, sys: Mat, rhs: seq<Mat>) returns (r: Result<seq<Mat>>)
    requires problem.Valid() && OnGrid(problem, job) && n < |job.g.dims| && |rhs| == job.g.Size()
    requires sys == SystemMat(job.u, n, job.nc, problem.penalty)
    requires forall t: nat :: t < |rhs| ==> rhs[t] == RankRhs(problem, job, n, t)
    ensures r.Error? <==> SomeSolveFails(problem, job, n)
    ensures r.Ok? ==> r.value == RankSolutions(problem, job, n)
    ensures r.Ok? ==> forall t :: 0 <= t < |rhs| ==> SolvesSystem(r.value[t], sys, rhs[t], problem.nc)
  {
    hide SolvesSystem, RankRhs, SystemMat;
    var parts: seq<Mat> := [];
    while |parts| < |rhs|
      invariant |parts| <= |rhs|
      invariant forall t: nat :: t < |parts| ==>
                  RankSolve(problem, job, n, t).Ok? && parts[t] == RankSolve(problem, job, n, t).value
      invariant forall t :: 0 <= t < |parts| ==> SolvesSystem(parts[t], sys, rhs[t], problem.nc)
    {
      var solved := problem.numerics.solve(sys, rhs[|parts|], problem.nc);
      assert solved == RankSolve(problem, job, n, |parts|);
      if solved.Error? {
        return Error;
      }
      parts := parts + [solved.value];
    }
    assert parts == RankSolutions(problem, job, n);
    r := Ok(parts);
  }

  /** Every rank divides its rows by the weights; they fail alike, when some weight is zero. */
  method ScaleOnAll(parts: seq<Mat>, v: Vec) returns (r: Result<seq<Mat>>)
    ensures |parts| > 0 ==> (r.Ok? <==> forall j :: 0 <= j < |v| ==> v[j] != 0.0)
    ensures r.Ok? && |parts| > 0 ==> |r.value| == |parts|
    ensures r.Ok? && |parts| > 0 ==> forall t :: 0 <= t < |parts| ==> r.value[t] == ColScaled(parts[t], Inverse(v))
  {
    hide ColScaled, Inverse;
    var scaled: seq<Mat> := [];
    while |scaled| < |parts|
      invariant |scaled| <= |parts|
      invariant |scaled| > 0 ==> forall j :: 0 <= j < |v| ==> v[j] != 0.0
      invariant |scaled| > 0 ==> forall t :: 0 <= t < |scaled| ==> scaled[t] == ColScaled(parts[t], Inverse(v))
    {
      var next := ColScaleInverse(parts[|scaled|], v);
      if next.Error? {
        return Error;
      }
      scaled := scaled + [next.value];
    }
    r := Ok(scaled);
  }

  /** What the export leaves on a rank are its rows of the MTTKRP. */
  lemma RhsIsOwned(problem: AlsProblem, job: Job, n: nat, t: nat, mat: Mat)
    requires OnGrid(problem, job) && n < |job.g.dims| && t < job.g.Size() && HoldsItsRows(job, n, t, mat)
    ensures mat == RankRhs(problem, job, n, t)
  {
    RowsInMatrix(job.g, n, t);
    var b := RankRhs(problem, job, n, t);
    var off := RowOffset(job.g, n, t);
    hide RowOffset, RowCount, Grid.Valid, MttkrpAt;
    forall k: nat, q: nat | k < |mat| && q < job.nc ensures At(mat, k, q) == At(b, k, q) {
      assert b[k] == MttkrpMat(problem.x, job.u, Ones(job.nc), n, problem.dims[n], job.nc)[off + k];
    }
    SameEntries(mat, b, |mat|, job.nc);
  }

  lemma RightHandSides(problem: AlsProblem, job: Job, n: nat, sp: Split, t: nat, k: nat, q: nat)
    requires OnGrid(problem, job) && n < |job.g.dims| && sp == GridSplit(job.g, n)
    requires t < |sp.lens| && k < sp.lens[t] && q < job.nc
    ensures |RankRhs(problem, job, n, t)| == sp.lens[t] && sp.offs[t] + k < sp.rows
    ensures At(RankRhs(problem, job, n, t), k, q)
         == At(MttkrpMat(problem.x, job.u, Ones(job.nc), n, problem.dims[n], job.nc), sp.offs[t] + k, q)
  {
    RowsInMatrix(job.g, n, t);
    hide RowOffset, RowCount, Grid.Valid, GridSplit, MttkrpAt;
  }

  /** The rows that the ranks solve for make a solution of the serial normal equations. */
  lemma SolvedOnGrid(problem: AlsProblem, job: Job, n: nat, y: Mat, parts: seq<Mat>, full: bool, sp: Split)
    requires problem.Valid() && OnGrid(problem, job) && n < |job.g.dims| && |parts| == job.g.Size()
    requires sp == GridSplit(job.g, n) && sp.Valid()
    requires KeptEqual(y, PartialProduct(job.u, n, |job.u|), job.nc, full)
    requires forall t :: 0 <= t < |parts| ==>
               SolvesSystem(parts[t], MirroredMat(DiagonalShift(y, job.nc, problem.penalty), job.nc, full),
                            RankRhs(problem, job, n, t), job.nc)
    ensures sp.Pieces(parts, job.nc)
    ensures Solves(sp.Whole(parts, job.nc), problem.x, job.u, n, problem.dims, job.nc, problem.penalty)
  {
    var nc := job.nc;
    var b := MttkrpMat(problem.x, job.u, Ones(nc), n, problem.dims[n], nc);
    var s := MirroredMat(DiagonalShift(y, nc, problem.penalty), nc, full);
    var rhs := seq(|parts|, t requires 0 <= t < |parts| => RankRhs(problem, job, n, t));
    forall t: nat | t < |parts| ensures |rhs[t]| == sp.lens[t] && IsMat(parts[t], sp.lens[t], nc) {
      assert SolvesSystem(parts[t], s, RankRhs(problem, job, n, t), nc);
    }
    hide RowOffset, RowCount, Grid.Valid, GridSplit, MttkrpAt, MttkrpMat, MirroredMat, Split.Whole, Split.Valid;
    hide RankRhs, SolvesSystem;
    forall t: nat, k: nat, q: nat | t < |sp.lens| && k < sp.lens[t] && q < nc
      ensures At(rhs[t], k, q) == At(b, sp.offs[t] + k, q)
    {
      RightHandSides(problem, job, n, sp, t, k, q);
    }
    hide KeptEqual, Solves;
    SolvedTogether(sp, parts, nc, s, rhs, b);
    SystemIsNormalEquations(sp.Whole(parts, nc), y, b, problem.x, job.u, n, problem.dims, nc, problem.penalty, full);
  }

  /** Splitting the column norms off a solution is a mode update. */
  lemma StepFromSolution(problem: AlsProblem, job: Job, lambda: Vec, n: nat, first: bool, a: Mat, norms: Vec, v: Mat)
    requires problem.Valid() && OnGrid(problem, job) && n < |job.u| && |lambda| == job.nc
    requires Solves(a, problem.x, job.u, n, problem.dims, job.nc, problem.penalty)
    requires norms == ColNorms(a, job.nc, first, problem.numerics.sqrt)
    requires (forall j :: 0 <= j < |norms| ==> norms[j] != 0.0) && v == ColScaled(a, Inverse(norms))
    ensures problem.ModeUpdate(Iterate(job.u, lambda), Iterate(job.u[n := v], norms), n, first)
  {
    hide ColNorms, ColScaled, MttkrpAt, MatMul;
    ScaleRoundTrip(a, norms);
  }

  /** The same nonzeros and grid, with another factor. */
  lemma SameNonzeros(problem: AlsProblem, job: Job, next: Job, locals: seq<seq<Entry>>)
    requires OnGrid(problem, job) && OnGrid(problem, next) && next.g == job.g && NonzerosSpread(job, locals)
    ensures NonzerosSpread(next, locals)
  {
    forall t: nat | t < |locals|
      ensures locals[t] == next.Local(t) && CoordsFit(locals[t], LocalDims(next.g.BlockOf(t)))
    {
      assert next.Owned(t) == job.Owned(t);
      assert next.Local(t) == job.Local(t);
    }
  }

  /** The rows that the ranks hold after the update are those of the new factor. */
  lemma FactorsAfter(problem: AlsProblem, job: Job, next: Job, n: nat, factors: seq<seq<Mat>>, scaled: seq<Mat>,
      sp: Split)
    requires OnGrid(problem, job) && n < |job.g.dims| && FactorsSpread(job, factors)
    requires sp == GridSplit(job.g, n) && sp.Valid() && sp.Pieces(scaled, job.nc)
    requires next == job.(u := job.u[n := sp.Whole(scaled, job.nc)])
    ensures OnGrid(problem, next) && FactorsSpread(next, factors[n := scaled])
  {
    hide Split.Whole, GridSplit, Split.Valid, OwnedRows;
    var after := factors[n := scaled];
    forall m: nat | m < |after| ensures ModeSpread(next, m, after[m]) {
      assert ModeSpread(job, m, factors[m]);
      if m == n {
        forall t: nat | t < |scaled| ensures scaled[t] == OwnedRows(job.g, n, next.u[n], t) {
          PieceIsOwned(job.g, n, scaled, job.nc, t);
        }
      }
    }
  }

  /** What the last mode update of a sweep leaves: by rank the rows of its MTTKRP, and on every rank the
      product of the other Gram matrices. */
  ghost predicate SweepEnded(problem: AlsProblem, job: Job, st: GridState, full: bool)
    requires problem.Valid() && OnGrid(problem, job)
  {
    var last := |problem.dims| - 1;
    && |st.un| == job.g.Size()
    && (forall t: nat :: t < |st.un| ==> st.un[t] == RankRhs(problem, job, last, t))
    && KeptEqual(st.upsilon, PartialProduct(job.u, last, |job.u|), job.nc, full)
  }

  /** Replacing the last factor changes neither. */
  lemma EndedAfter(problem: AlsProblem, job: Job, next: Job, st: GridState, full: bool, a: Mat)
    requires problem.Valid() && OnGrid(problem, job) && OnGrid(problem, next) && next.g == job.g
    requires next.u == job.u[|job.u| - 1 := a] && SweepEnded(problem, job, st, full)
    ensures SweepEnded(problem, next, st, full)
  {
    var last := |problem.dims| - 1;
    SameOtherGrams(job.u, a, last, st.upsilon, job.nc, full);
    SameOtherMttkrp(problem.x, job.u, a, Ones(job.nc), last, problem.dims[last], job.nc);
    hide MttkrpMat, OwnedRows, KeptEqual;
  }

  /** One mode update on the grid: import, local products and export, a solve on every rank for its own
      rows, reduced column norms, and a reduced Gram matrix. Together it is a mode update of the serial
      loop, and every rank ends with its rows of the new factor and the same weights. It fails exactly
      when the solver does on some rank or when a reduced column norm is zero. */
  method UpdateModeOnGrid(problem: AlsProblem, job: Job, st: GridState, n: nat, first: bool, full: bool,
      locals: seq<seq<Entry>>, path: MapPath) returns (s: Status, after: GridState, next: Job)
    requires problem.Valid() && OnGrid(problem, job) && n < |job.g.dims| && NonzerosSpread(job, locals)
    requires GridHolds(problem, job, st, n, full)
    ensures s == GridEnds(problem, job, n, first)
    ensures s.Success? ==> OnGrid(problem, next) && next.g == job.g && NonzerosSpread(next, locals)
    ensures s.Success? ==> GridHolds(problem, next, after, |job.g.dims|, full)
    ensures s.Success? && n == |problem.dims| - 1 ==> SweepEnded(problem, next, after, full)
    ensures s.Success? ==>
              problem.ModeUpdate(Iterate(job.u, st.lambda), Iterate(next.u, after.lambda), n, first)
    ensures s.ZeroColumn? ==> first
  {
    after, next := st, job;
    var nc, sp := job.nc, GridSplit(job.g, n);
    var rhs := MttkrpOnAll(job, n, st.factors, locals, path);
    var y := ProductOfOthers(st.gamma, job.u, n, nc, full);
    Prepared(problem, job, n, rhs, y, full, sp);
    var solved := SolveOnAll(problem, job, n, MirroredMat(DiagonalShift(y, nc, problem.penalty), nc, full), rhs);
    if solved.Error? {
      return SolveFailed, st, job;
    }
    var parts := solved.value;
    SolvedOnGrid(problem, job, n, y, parts, full, sp);
    hide *;
    s, after, next := FinishUpdate(problem, job, st, n, first, full, sp, parts, y, rhs);
    GridEndsWith(problem, job, n, first, parts);
    if s.Success? {
      SameNonzeros(problem, job, next, locals);
    }
  }

  lemma Prepared(problem: AlsProblem, job: Job, n: nat, rhs: seq<Mat>, y: Mat, full: bool, sp: Split)
    requires problem.Valid() && OnGrid(problem, job) && n < |job.g.dims| && |rhs| == job.g.Size()
    requires forall t: nat :: t < |rhs| ==> HoldsItsRows(job, n, t, rhs[t])
    requires KeptEqual(y, PartialProduct(job.u, n, |job.u|), job.nc, full) && sp == GridSplit(job.g, n)
    ensures sp.Valid() && |rhs| > 0 && forall t: nat :: t < |rhs| ==> rhs[t] == RankRhs(problem, job, n, t)
    ensures MirroredMat(DiagonalShift(y, job.nc, problem.penalty), job.nc, full)
         == SystemMat(job.u, n, job.nc, problem.penalty)
  {
    GridSplitValid(job.g, n);
    SizePositive(job.g.procs);
    SystemIsDetermined(y, job.u, n, job.nc, problem.penalty, full);
    hide HoldsItsRows, RankRhs, GridSplit;
    forall t: nat | t < |rhs| ensures rhs[t] == RankRhs(problem, job, n, t) {
      RhsIsOwned(problem, job, n, t, rhs[t]);
    }
  }

  lemma GridEndsWith(problem: AlsProblem, job: Job, n: nat, first: bool, parts: seq<Mat>)
    requires OnGrid(problem, job) && n < |job.g.dims| && !SomeSolveFails(problem, job, n)
    requires parts == RankSolutions(problem, job, n)
    ensures GridEnds(problem, job, n, first)
         == NormsEnd(ReducedNorms(GridSplit(job.g, n), parts, job.nc, first, problem.numerics.sqrt))
  {
  }

  /** Norms, scaling and Gram matrix, once every rank has solved for its rows. */
  method FinishUpdate(problem: AlsProblem, job: Job, st: GridState, n: nat, first: bool, full: bool, sp: Split,
      parts: seq<Mat>, y: Mat, rhs: seq<Mat>) returns (s: Status, after: GridState, next: Job)
    requires problem.Valid() && OnGrid(problem, job) && n < |job.g.dims| && GridHolds(problem, job, st, n, full)
    requires sp == GridSplit(job.g, n) && sp.Valid() && sp.Pieces(parts, job.nc) && |parts| > 0
    requires Solves(sp.Whole(parts, job.nc), problem.x, job.u, n, problem.dims, job.nc, problem.penalty)
    requires |rhs| == job.g.Size() && forall t: nat :: t < |rhs| ==> rhs[t] == RankRhs(problem, job, n, t)
    requires KeptEqual(y, PartialProduct(job.u, n, |job.u|), job.nc, full)
    ensures s == NormsEnd(ReducedNorms(sp, parts, job.nc, first, problem.numerics.sqrt))
    ensures s.Success? ==> OnGrid(problem, next) && next.g == job.g
    ensures s.Success? ==> GridHolds(problem, next, after, |job.g.dims|, full)
    ensures s.Success? && n == |problem.dims| - 1 ==> SweepEnded(problem, next, after, full)
    ensures s.Success? ==>
              problem.ModeUpdate(Iterate(job.u, st.lambda), Iterate(next.u, after.lambda), n, first)
    ensures s.ZeroColumn? ==> first
  {
    after, next := st, job;
    var nc := job.nc;
    assert n < |st.gamma|;
    hide GridSplit, Split.Valid, Split.Whole, Solves, ColNorms, ColScaled, Inverse;
    hide GramsKept, AlsProblem.ModeUpdate, FactorsSpread, ReducedNorms, RankRhs, KeptEqual;
    var norms := ReducedNorms(sp, parts, nc, first, problem.numerics.sqrt);
    ReducedNormsAreNorms(sp, parts, nc, first, problem.numerics.sqrt);
    ghost var a := sp.Whole(parts, nc);
    ClampedNormsNotZero(a, nc, problem.numerics.sqrt);
    var divided := ScaleOnAll(parts, norms);
    if divided.Error? {
      return ZeroColumn, st, job;
    }
    var scaled := divided.value;
    WholeScaled(sp, parts, scaled, nc, Inverse(norms));
    StepFromSolution(problem, job, st.lambda, n, first, a, norms, sp.Whole(scaled, nc));
    var gram := GramOnGrid(sp, scaled, nc, st.gamma[n], full);
    after := GridState(st.factors[n := scaled], st.gamma[n := gram], norms, y,
                       if n == |problem.dims| - 1 then rhs else st.un);
    next := job.(u := job.u[n := sp.Whole(scaled, nc)]);
    FactorsAfter(problem, job, next, n, st.factors, scaled, sp);
    GramsReplaced(st.gamma, job.u, n, gram, sp.Whole(scaled, nc), nc, full);
    if n == |problem.dims| - 1 {
      EndedAfter(problem, job, next, after, full, sp.Whole(scaled, nc));
    }
    s := Success;
  }

  lemma GramsReplaced(gamma: seq<Mat>, u: seq<Mat>, n: nat, gram: Mat, a: Mat, nc: nat, full: bool)
    requires n < |u| && GramsKept(gamma, u, n, nc, full) && KeptEqual(gram, GramOf(a), nc, full)
    ensures GramsKept(gamma[n := gram], u[n := a], |u|, nc, full)
  {
  }
}
