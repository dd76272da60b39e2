/** The one-sided update as a protocol. Every rank of a layer runs the same list of imports and
    exports; each one prepares the rank's window, opens it with a fence, issues gets or accumulates,
    and closes it with a fence. An opening fence is no barrier: a rank may be a whole operation ahead
    of another, and an access waits only for the opening fence of its own target. */
module OneSidedUpdate {
  import opened Sequences
  import opened Vectors
  import opened UniformBlocking
  import opened KtensorUpdate
  import opened RowLists
  import opened TwoSidedUpdate

  /** One import or export: the rows each rank accesses, in its own order. */
  datatype Epoch =
    | Import(u: Mat, accessed: seq<seq<nat>>)
    | Export(uo: Pieces, accessed: seq<seq<nat>>)

  datatype Layer = Layer(np: nat, rows: nat, nc: nat, cuts: seq<nat>, epochs: seq<Epoch>) {

    ghost predicate Valid()
    {
      && np > 0 && IsBlocking(cuts, rows, np)
      && forall e :: 0 <= e < |epochs| ==> ValidEpoch(epochs[e])
    }

    ghost predicate ValidEpoch(ep: Epoch)
    {
      && |ep.accessed| == np
      && (forall p, i :: 0 <= p < np && 0 <= i < |ep.accessed[p]| ==> ep.accessed[p][i] < rows)
      && (ep.Import? ==> IsMat(ep.u, rows, nc))
      && (ep.Export? ==> IsOverlap(ep.uo, np, rows, nc))
    }

    function Owner(row: nat): nat
    {
      PartOf(cuts, row)
    }

    lemma OwnerSpec(row: nat)
      requires Valid() && row < rows
      ensures InPart(cuts, Owner(row), row) && Owner(row) < np
    {
      PartOfSpec(cuts, rows, np, row);
    }
  }

  datatype Phase = Idle | Ready | Open | Closing | Closed

  /** Where a rank is. */
  datatype Pc = Pc(epoch: nat, phase: Phase, issued: nat) {

    predicate Opened(e: nat)
    {
      epoch > e || (epoch == e && (phase.Open? || phase.Closing? || phase.Closed?))
    }

    predicate AtClose(e: nat)
    {
      epoch > e || (epoch == e && (phase.Closing? || phase.Closed?))
    }

    predicate Exited(e: nat)
    {
      epoch > e || (epoch == e && phase.Closed?)
    }

    predicate Issued(e: nat, i: nat)
    {
      epoch > e || (epoch == e && (phase.Open? || phase.Closing? || phase.Closed?) && i < issued)
    }
  }

  /** The i-th access of a rank in an epoch. */
  datatype Op = Op(epoch: nat, origin: nat, index: nat)

  datatype State = State(pc: seq<Pc>, window: seq<Mat>, landed: set<Op>, got: map<Op, Vec>,
                         out: map<(nat, nat), Mat>)

  datatype Step =
    | Prepare(rank: nat)
    | OpenFence(rank: nat)
    | Issue(rank: nat)
    | EnterClose(rank: nat)
    | Land(op: Op)
    | ExitClose(rank: nat)
    | CopyOut(rank: nat)

  ghost predicate IsOp(l: Layer, op: Op)
    requires l.Valid()
  {
    op.epoch < |l.epochs| && op.origin < l.np && op.index < |l.epochs[op.epoch].accessed[op.origin]|
  }

  function RowOf(l: Layer, op: Op): (row: nat)
    requires l.Valid() && IsOp(l, op)
    ensures row < l.rows
  {
    l.epochs[op.epoch].accessed[op.origin][op.index]
  }

  function Target(l: Layer, op: Op): (t: nat)
    requires l.Valid() && IsOp(l, op)
    ensures t < l.np && l.cuts[t] <= RowOf(l, op) < l.cuts[t + 1]
  {
    l.OwnerSpec(RowOf(l, op));
    l.Owner(RowOf(l, op))
  }

  function Size(l: Layer, q: nat): nat
    requires l.Valid() && q < l.np
  {
    l.cuts[q + 1] - l.cuts[q]
  }

  /** What a rank writes into its window before its opening fence. */
  function Prepared(l: Layer, e: nat, q: nat): (m: Mat)
    requires l.Valid() && e < |l.epochs| && q < l.np
    ensures IsMat(m, Size(l, q), l.nc)
  {
    if l.epochs[e].Import? then l.epochs[e].u[l.cuts[q]..l.cuts[q + 1]]
    else seq(Size(l, q), _ => Zeros(l.nc))
  }

  ghost predicate Sized(l: Layer, s: State)
  {
    |s.pc| == l.np && |s.window| == l.np
  }

  ghost predicate Enabled(l: Layer, s: State, step: Step)
    requires l.Valid() && Sized(l, s)
  {
    match step
    case Prepare(q) => q < l.np && s.pc[q].phase.Idle? && s.pc[q].epoch < |l.epochs|
    case OpenFence(q) => q < l.np && s.pc[q].phase.Ready?
    case Issue(q) =>
      && q < l.np && s.pc[q].phase.Open? && s.pc[q].epoch < |l.epochs|
      && s.pc[q].issued < |l.epochs[s.pc[q].epoch].accessed[q]|
    case EnterClose(q) =>
      && q < l.np && s.pc[q].phase.Open? && s.pc[q].epoch < |l.epochs|
      && s.pc[q].issued == |l.epochs[s.pc[q].epoch].accessed[q]|
    case Land(op) =>
      && IsOp(l, op) && op !in s.landed
      && s.pc[op.origin].Issued(op.epoch, op.index)
      && s.pc[Target(l, op)].Opened(op.epoch)
    case ExitClose(q) =>
      && q < l.np && s.pc[q].phase.Closing?
      && (forall p :: 0 <= p < l.np ==> s.pc[p].AtClose(s.pc[q].epoch))
      && AllLanded(l, s.landed, s.pc[q].epoch, q)
    case CopyOut(q) => q < l.np && s.pc[q].phase.Closed?
  }

  /** Every access of an epoch that rank q issued or that is aimed at it has landed. */
  ghost predicate AllLanded(l: Layer, landed: set<Op>, e: nat, q: nat)
    requires l.Valid()
  {
    forall op :: IsOp(l, op) && op.epoch == e && (op.origin == q || Target(l, op) == q) ==> op in landed
  }

  ghost function Next(l: Layer, s: State, step: Step): (s': State)
    requires l.Valid() && Sized(l, s) && Enabled(l, s, step)
    ensures Sized(l, s')
  {
    match step
    case Prepare(q) =>
      s.(pc := s.pc[q := s.pc[q].(phase := Ready)],
         window := s.window[q := Prepared(l, s.pc[q].epoch, q)])
    case OpenFence(q) => s.(pc := s.pc[q := s.pc[q].(phase := Open, issued := 0)])
    case Issue(q) => s.(pc := s.pc[q := s.pc[q].(issued := s.pc[q].issued + 1)])
    case EnterClose(q) => s.(pc := s.pc[q := s.pc[q].(phase := Closing)])
    case Land(op) => LandOp(l, s, op)
    case ExitClose(q) => s.(pc := s.pc[q := s.pc[q].(phase := Closed)])
    case CopyOut(q) =>
      s.(pc := s.pc[q := Pc(s.pc[q].epoch + 1, Idle, 0)],
         out := s.out[(s.pc[q].epoch, q) := s.window[q]])
  }

  /** A get reads, and an accumulate adds to, whatever the target's window holds at that moment. */
  ghost function LandOp(l: Layer, s: State, op: Op): (s': State)
    requires l.Valid() && Sized(l, s) && IsOp(l, op)
    ensures Sized(l, s') && s'.pc == s.pc && s'.landed == s.landed + {op}
  {
    var t := Target(l, op);
    var k := RowOf(l, op) - l.cuts[t];
    var here := if k < |s.window[t]| then s.window[t][k] else [];
    var after := s.(landed := s.landed + {op});
    if l.epochs[op.epoch].Import? then after.(got := s.got[op := here])
    else
      var value := l.epochs[op.epoch].uo[op.origin][RowOf(l, op)];
      if k < |s.window[t]| && |here| == |value| then
        after.(window := s.window[t := s.window[t][k := Add(here, value)]])
      else after
  }

  // ----- what has been added so far

  /** Contributions to a row by the first i accesses of rank p that have landed. */
  ghost function LandedPart(l: Layer, landed: set<Op>, e: nat, p: nat, row: nat, i: nat): (v: Vec)
    requires l.Valid() && e < |l.epochs| && l.epochs[e].Export? && p < l.np
    requires i <= |l.epochs[e].accessed[p]| && row < l.rows
    ensures |v| == l.nc
  {
    if i == 0 then Zeros(l.nc)
    else
      var before := LandedPart(l, landed, e, p, row, i - 1);
      if Op(e, p, i - 1) in landed && l.epochs[e].accessed[p][i - 1] == row
      then Add(before, l.epochs[e].uo[p][row]) else before
  }

  ghost function LandedSum(l: Layer, landed: set<Op>, e: nat, row: nat, q: nat): (v: Vec)
    requires l.Valid() && e < |l.epochs| && l.epochs[e].Export? && row < l.rows && q <= l.np
    ensures |v| == l.nc
  {
    if q == 0 then Zeros(l.nc)
    else Add(LandedSum(l, landed, e, row, q - 1),
             LandedPart(l, landed, e, q - 1, row, |l.epochs[e].accessed[q - 1]|))
  }

  lemma {:induction false} LandedPartAfter(l: Layer, landed: set<Op>, op: Op, e: nat, p: nat, row: nat, i: nat)
    requires l.Valid() && e < |l.epochs| && l.epochs[e].Export? && p < l.np
    requires i <= |l.epochs[e].accessed[p]| && row < l.rows
    requires IsOp(l, op) && op !in landed
    ensures LandedPart(l, landed + {op}, e, p, row, i)
         == if op.epoch == e && op.origin == p && op.index < i && RowOf(l, op) == row
            then Add(LandedPart(l, landed, e, p, row, i), l.epochs[e].uo[p][row])
            else LandedPart(l, landed, e, p, row, i)
  {
    if i > 0 {
      LandedPartAfter(l, landed, op, e, p, row, i - 1);
      var a, v := LandedPart(l, landed, e, p, row, i - 1), l.epochs[e].uo[p][row];
      assert Op(e, p, i - 1) == op <==> op.epoch == e && op.origin == p && op.index == i - 1;
    }
  }

  lemma {:induction false} LandedSumAfter(l: Layer, landed: set<Op>, op: Op, e: nat, row: nat, q: nat)
    requires l.Valid() && e < |l.epochs| && l.epochs[e].Export? && row < l.rows && q <= l.np
    requires IsOp(l, op) && op !in landed
    ensures LandedSum(l, landed + {op}, e, row, q)
         == if op.epoch == e && op.origin < q && RowOf(l, op) == row
            then Add(LandedSum(l, landed, e, row, q), l.epochs[e].uo[op.origin][row])
            else LandedSum(l, landed, e, row, q)
  {
    hide LandedPart, Add, IsBlocking;
    if q > 0 {
      LandedSumAfter(l, landed, op, e, row, q - 1);
      LandedPartAfter(l, landed, op, e, q - 1, row, |l.epochs[e].accessed[q - 1]|);
      var a := LandedSum(l, landed, e, row, q - 1);
      var b := LandedPart(l, landed, e, q - 1, row, |l.epochs[e].accessed[q - 1]|);
      if op.epoch == e && op.origin < q && RowOf(l, op) == row {
        var v := l.epochs[e].uo[op.origin][row];
        AddSwap(a, v, b);
        AddAssoc(a, b, v);
      }
    }
  }

  lemma {:induction false} LandedPartNone(l: Layer, landed: set<Op>, e: nat, p: nat, row: nat, i: nat)
    requires l.Valid() && e < |l.epochs| && l.epochs[e].Export? && p < l.np
    requires i <= |l.epochs[e].accessed[p]| && row < l.rows
    requires forall op :: op in landed && IsOp(l, op) && op.epoch == e ==> RowOf(l, op) != row
    ensures LandedPart(l, landed, e, p, row, i) == Zeros(l.nc)
  {
    if i > 0 {
      LandedPartNone(l, landed, e, p, row, i - 1);
      var op := Op(e, p, i - 1);
      assert IsOp(l, op) && RowOf(l, op) == l.epochs[e].accessed[p][i - 1];
    }
  }

  lemma {:induction false} LandedSumNone(l: Layer, landed: set<Op>, e: nat, row: nat, q: nat)
    requires l.Valid() && e < |l.epochs| && l.epochs[e].Export? && row < l.rows && q <= l.np
    requires forall op :: op in landed && IsOp(l, op) && op.epoch == e ==> RowOf(l, op) != row
    ensures LandedSum(l, landed, e, row, q) == Zeros(l.nc)
  {
    if q > 0 {
      LandedSumNone(l, landed, e, row, q - 1);
      LandedPartNone(l, landed, e, q - 1, row, |l.epochs[e].accessed[q - 1]|);
      AddZero(Zeros(l.nc));
    }
  }

  /** All contributions to a row. */
  ghost function Total(l: Layer, e: nat, row: nat): (v: Vec)
    requires l.Valid() && e < |l.epochs| && l.epochs[e].Export? && row < l.rows
    ensures |v| == l.nc
  {
    TotalUpTo(l, e, row, l.np)
  }

  ghost function TotalUpTo(l: Layer, e: nat, row: nat, q: nat): (v: Vec)
    requires l.Valid() && e < |l.epochs| && l.epochs[e].Export? && row < l.rows && q <= l.np
    ensures |v| == l.nc
  {
    if q == 0 then Zeros(l.nc)
    else Add(TotalUpTo(l, e, row, q - 1), TotalPart(l, e, q - 1, row, |l.epochs[e].accessed[q - 1]|))
  }

  ghost function TotalPart(l: Layer, e: nat, p: nat, row: nat, i: nat): (v: Vec)
    requires l.Valid() && e < |l.epochs| && l.epochs[e].Export? && p < l.np
    requires i <= |l.epochs[e].accessed[p]| && row < l.rows
    ensures |v| == l.nc
  {
    if i == 0 then Zeros(l.nc)
    else
      var before := TotalPart(l, e, p, row, i - 1);
      if l.epochs[e].accessed[p][i - 1] == row then Add(before, l.epochs[e].uo[p][row]) else before
  }

  lemma {:induction false} LandedPartAll(l: Layer, landed: set<Op>, e: nat, p: nat, row: nat, i: nat)
    requires l.Valid() && e < |l.epochs| && l.epochs[e].Export? && p < l.np
    requires i <= |l.epochs[e].accessed[p]| && row < l.rows
    requires forall op :: IsOp(l, op) && op.epoch == e && RowOf(l, op) == row ==> op in landed
    ensures LandedPart(l, landed, e, p, row, i) == TotalPart(l, e, p, row, i)
  {
    if i > 0 {
      LandedPartAll(l, landed, e, p, row, i - 1);
      var op := Op(e, p, i - 1);
      assert IsOp(l, op) && RowOf(l, op) == l.epochs[e].accessed[p][i - 1];
    }
  }

  lemma {:induction false} LandedSumAll(l: Layer, landed: set<Op>, e: nat, row: nat, q: nat)
    requires l.Valid() && e < |l.epochs| && l.epochs[e].Export? && row < l.rows && q <= l.np
    requires forall op :: IsOp(l, op) && op.epoch == e && RowOf(l, op) == row ==> op in landed
    ensures LandedSum(l, landed, e, row, q) == TotalUpTo(l, e, row, q)
  {
    if q > 0 {
      LandedSumAll(l, landed, e, row, q - 1);
      LandedPartAll(l, landed, e, q - 1, row, |l.epochs[e].accessed[q - 1]|);
    }
  }

  // ----- what every run keeps

  /** An access has landed only if it was issued and its target had opened its window: so never
      before the target zeroed or filled that window. */
  ghost predicate LandedInTime(l: Layer, s: State)
    requires l.Valid() && Sized(l, s)
  {
    forall op :: op in s.landed ==>
      IsOp(l, op) && s.pc[op.origin].Issued(op.epoch, op.index) && s.pc[Target(l, op)].Opened(op.epoch)
  }

  /** A rank leaves the closing fence only when nothing of the epoch that concerns it is in flight. */
  ghost predicate NothingInFlight(l: Layer, s: State)
    requires l.Valid() && Sized(l, s)
  {
    forall q, e: nat :: 0 <= q < l.np && s.pc[q].Exited(e) ==> AllLanded(l, s.landed, e, q)
  }

  ghost predicate ClosedTogether(l: Layer, s: State)
    requires l.Valid() && Sized(l, s)
  {
    forall q, p, e: nat :: 0 <= q < l.np && 0 <= p < l.np && s.pc[q].Exited(e) ==> s.pc[p].AtClose(e)
  }

  ghost predicate Progress(l: Layer, s: State)
    requires l.Valid() && Sized(l, s)
  {
    forall q :: 0 <= q < l.np ==>
      && s.pc[q].epoch <= |l.epochs|
      && (!s.pc[q].phase.Idle? ==> s.pc[q].epoch < |l.epochs|)
      && (s.pc[q].phase.Open? ==> s.pc[q].issued <= |l.epochs[s.pc[q].epoch].accessed[q]|)
      && (s.pc[q].phase.Closing? || s.pc[q].phase.Closed? ==>
            s.pc[q].issued == |l.epochs[s.pc[q].epoch].accessed[q]|)
  }

  /** The window of a rank in an epoch: the copied-in rows, or the sum of what has landed. */
  ghost predicate WindowAt(l: Layer, landed: set<Op>, w: Mat, e: nat, q: nat)
    requires l.Valid() && e < |l.epochs| && q < l.np
  {
    && IsMat(w, Size(l, q), l.nc)
    && if l.epochs[e].Import? then w == Prepared(l, e, q)
       else forall k: nat :: k < Size(l, q) ==> w[k] == LandedSum(l, landed, e, l.cuts[q] + k, l.np)
  }

  ghost predicate Windows(l: Layer, s: State)
    requires l.Valid() && Sized(l, s)
  {
    forall q :: 0 <= q < l.np && !s.pc[q].phase.Idle? && s.pc[q].epoch < |l.epochs| ==>
      WindowAt(l, s.landed, s.window[q], s.pc[q].epoch, q)
  }

  /** Every get has read the row as its owner copied it in. */
  ghost predicate GetsAreRight(l: Layer, s: State)
    requires l.Valid()
  {
    forall op :: op in s.landed && IsOp(l, op) && l.epochs[op.epoch].Import? ==>
      op in s.got && s.got[op] == l.epochs[op.epoch].u[RowOf(l, op)]
  }

  /** What a rank copied out of an export is the sum of all contributions to its rows. */
  ghost predicate OutsAreRight(l: Layer, s: State)
    requires l.Valid() && Sized(l, s)
  {
    forall q: nat, e: nat :: q < l.np && e < s.pc[q].epoch && e < |l.epochs| && l.epochs[e].Export? ==>
      OutIsRight(l, s.out, e, q)
  }

  ghost predicate Inv(l: Layer, s: State)
    requires l.Valid()
  {
    && Sized(l, s) && Progress(l, s) && LandedInTime(l, s) && NothingInFlight(l, s) && ClosedTogether(l, s)
    && Windows(l, s) && GetsAreRight(l, s) && OutsAreRight(l, s)
  }

  ghost predicate Init(l: Layer, s: State)
    requires l.Valid()
  {
    && Sized(l, s) && s.landed == {}
    && forall q :: 0 <= q < l.np ==> s.pc[q] == Pc(0, Idle, 0)
  }

  lemma InitInv(l: Layer, s: State)
    requires l.Valid() && Init(l, s)
    ensures Inv(l, s)
  {
  }

  /** A rank only moves forward. */
  ghost predicate Later(a: Pc, b: Pc)
  {
    && (forall e: nat :: a.Opened(e) ==> b.Opened(e))
    && (forall e: nat :: a.AtClose(e) ==> b.AtClose(e))
    && (forall e: nat, i: nat :: a.Issued(e, i) ==> b.Issued(e, i))
  }

  /** The rank that takes a step; landing is nobody's own step. */
  function Mover(step: Step): int
  {
    match step
    case Prepare(q) => q
    case OpenFence(q) => q
    case Issue(q) => q
    case EnterClose(q) => q
    case Land(op) => -1
    case ExitClose(q) => q
    case CopyOut(q) => q
  }

  /** The moves of one rank: prepare, open, issue, start closing, finish closing, on to the next. */
  ghost predicate Advances(a: Pc, b: Pc)
  {
    || (a.phase.Idle? && b == a.(phase := Ready))
    || (a.phase.Ready? && b == a.(phase := Open, issued := 0))
    || (a.phase.Open? && b == a.(issued := a.issued + 1))
    || (a.phase.Open? && b == a.(phase := Closing))
    || (a.phase.Closing? && b == a.(phase := Closed))
    || (a.phase.Closed? && b == Pc(a.epoch + 1, Idle, 0))
  }

  lemma AdvanceIsLater(a: Pc, b: Pc)
    requires Advances(a, b)
    ensures Later(a, b)
  {
  }

  lemma MoverPc(l: Layer, s: State, step: Step)
    requires l.Valid() && Sized(l, s) && Enabled(l, s, step) && !step.Land?
    ensures 0 <= Mover(step) < l.np && Advances(s.pc[Mover(step)], Next(l, s, step).pc[Mover(step)])
    ensures forall p :: 0 <= p < l.np && p != Mover(step) ==> Next(l, s, step).pc[p] == s.pc[p]
  {
  }

  lemma StepPc(l: Layer, s: State, step: Step)
    requires l.Valid() && Sized(l, s) && Enabled(l, s, step)
    ensures forall p :: 0 <= p < l.np ==> Later(s.pc[p], Next(l, s, step).pc[p])
    ensures forall q, e: nat :: 0 <= q < l.np && Next(l, s, step).pc[q].Exited(e) ==>
              s.pc[q].Exited(e) || (step == ExitClose(q) && e == s.pc[q].epoch)
  {
    if !step.Land? {
      MoverPc(l, s, step);
      AdvanceIsLater(s.pc[Mover(step)], Next(l, s, step).pc[Mover(step)]);
    }
  }

  lemma StepProgress(l: Layer, s: State, step: Step)
    requires l.Valid() && Sized(l, s) && Progress(l, s) && Enabled(l, s, step)
    ensures Progress(l, Next(l, s, step))
  {
  }

  lemma StepLandedInTime(l: Layer, s: State, step: Step)
    requires l.Valid() && Sized(l, s) && LandedInTime(l, s) && Enabled(l, s, step)
    ensures LandedInTime(l, Next(l, s, step))
  {
    StepPc(l, s, step);
    var s' := Next(l, s, step);
    forall op | op in s'.landed
      ensures IsOp(l, op) && s'.pc[op.origin].Issued(op.epoch, op.index) && s'.pc[Target(l, op)].Opened(op.epoch)
    {
      if op in s.landed {
        assert Later(s.pc[op.origin], s'.pc[op.origin]);
        assert Later(s.pc[Target(l, op)], s'.pc[Target(l, op)]);
      }
    }
  }

  lemma StepNothingInFlight(l: Layer, s: State, step: Step)
    requires l.Valid() && Sized(l, s) && NothingInFlight(l, s) && Enabled(l, s, step)
    ensures NothingInFlight(l, Next(l, s, step))
  {
    StepPc(l, s, step);
    var s' := Next(l, s, step);
    forall q: nat, e: nat | q < l.np && s'.pc[q].Exited(e) ensures AllLanded(l, s'.landed, e, q) {
      assert AllLanded(l, s.landed, e, q);
    }
  }

  lemma StepClosedTogether(l: Layer, s: State, step: Step)
    requires l.Valid() && Sized(l, s) && ClosedTogether(l, s) && Enabled(l, s, step)
    ensures ClosedTogether(l, Next(l, s, step))
  {
    StepPc(l, s, step);
    var s' := Next(l, s, step);
    forall q: nat, p: nat, e: nat | q < l.np && p < l.np && s'.pc[q].Exited(e) ensures s'.pc[p].AtClose(e) {
      assert Later(s.pc[p], s'.pc[p]);
    }
  }

  lemma PrepareWindow(l: Layer, s: State, q: nat)
    requires l.Valid() && Sized(l, s) && LandedInTime(l, s) && Enabled(l, s, Prepare(q))
    ensures WindowAt(l, s.landed, Prepared(l, s.pc[q].epoch, q), s.pc[q].epoch, q)
  {
    var e := s.pc[q].epoch;
    if l.epochs[e].Export? {
      var w := Prepared(l, e, q);
      forall k: nat | k < Size(l, q) ensures w[k] == LandedSum(l, s.landed, e, l.cuts[q] + k, l.np) {
        var row := l.cuts[q] + k;
        forall op | op in s.landed && IsOp(l, op) && op.epoch == e ensures RowOf(l, op) != row {
          assert Target(l, op) != q;
        }
        LandedSumNone(l, s.landed, e, row, l.np);
      }
    }
  }

  lemma StepWindows(l: Layer, s: State, step: Step)
    requires l.Valid() && Inv(l, s) && Enabled(l, s, step)
    ensures Windows(l, Next(l, s, step))
  {
    match step
    case Prepare(q) => PrepareWindow(l, s, q);
    case Land(op) => {
      forall q | 0 <= q < l.np && !s.pc[q].phase.Idle? && s.pc[q].epoch < |l.epochs|
        ensures WindowAt(l, s.landed + {op}, LandOp(l, s, op).window[q], s.pc[q].epoch, q)
      {
        LandWindow(l, s, op, q);
      }
    }
    case _ =>
  }

  lemma LandGets(l: Layer, s: State, op: Op)
    requires l.Valid() && Inv(l, s) && Enabled(l, s, Land(op))
    ensures GetsAreRight(l, LandOp(l, s, op))
  {
    LandsInItsEpoch(l, s, op);
    var t := Target(l, op);
    assert WindowAt(l, s.landed, s.window[t], op.epoch, t);
    assert l.epochs[op.epoch].Import? ==>
        RowOf(l, op) - l.cuts[t] < |s.window[t]|
        && s.window[t][RowOf(l, op) - l.cuts[t]] == l.epochs[op.epoch].u[RowOf(l, op)];
    hide LandedSum, LandedInTime, NothingInFlight, ClosedTogether, OutsAreRight, Windows, Progress, Target, IsMat;
  }

  lemma StepGets(l: Layer, s: State, step: Step)
    requires l.Valid() && Inv(l, s) && Enabled(l, s, step)
    ensures GetsAreRight(l, Next(l, s, step))
  {
    if step.Land? {
      LandGets(l, s, step.op);
    }
  }

  ghost predicate OutIsRight(l: Layer, out: map<(nat, nat), Mat>, e: nat, q: nat)
    requires l.Valid() && q < l.np && e < |l.epochs| && l.epochs[e].Export?
  {
    && (e, q) in out
    && IsMat(out[(e, q)], Size(l, q), l.nc)
    && forall k: nat :: k < Size(l, q) ==> out[(e, q)][k] == Total(l, e, l.cuts[q] + k)
  }

  /** A window that everything has landed in holds the complete sums. */
  lemma ClosedWindow(l: Layer, landed: set<Op>, w: Mat, e: nat, q: nat)
    requires l.Valid() && q < l.np && e < |l.epochs| && l.epochs[e].Export?
    requires WindowAt(l, landed, w, e, q) && AllLanded(l, landed, e, q)
    ensures IsMat(w, Size(l, q), l.nc)
    ensures forall k: nat :: k < Size(l, q) ==> w[k] == Total(l, e, l.cuts[q] + k)
  {
    forall k: nat | k < Size(l, q) ensures w[k] == Total(l, e, l.cuts[q] + k) {
      hide LandedSum, Total, AllLanded;
      var row := l.cuts[q] + k;
      RowComplete(l, landed, e, q, row);
      LandedSumAll(l, landed, e, row, l.np);
    }
  }

  lemma CopyOutIsRight(l: Layer, s: State, q: nat)
    requires l.Valid() && Inv(l, s) && Enabled(l, s, CopyOut(q)) && l.epochs[s.pc[q].epoch].Export?
    ensures OutIsRight(l, Next(l, s, CopyOut(q)).out, s.pc[q].epoch, q)
  {
    var e := s.pc[q].epoch;
    assert s.pc[q].Exited(e);
    hide Total, WindowAt, AllLanded, IsMat, Size;
    ClosedWindow(l, s.landed, s.window[q], e, q);
  }

  lemma StepOuts(l: Layer, s: State, step: Step)
    requires l.Valid() && Inv(l, s) && Enabled(l, s, step)
    ensures OutsAreRight(l, Next(l, s, step))
  {
    var s' := Next(l, s, step);
    if step.CopyOut? && l.epochs[s.pc[step.rank].epoch].Export? {
      CopyOutIsRight(l, s, step.rank);
    }
    forall q: nat, e: nat | q < l.np && e < s'.pc[q].epoch && e < |l.epochs| && l.epochs[e].Export?
      ensures OutIsRight(l, s'.out, e, q)
    {
      if e < s.pc[q].epoch {
        assert OutIsRight(l, s.out, e, q);
        if step.CopyOut? {
          OutKept(l, s, step.rank, e, q);
        }
      }
    }
  }

  lemma OutKept(l: Layer, s: State, rank: nat, e: nat, q: nat)
    requires l.Valid() && Sized(l, s) && Enabled(l, s, CopyOut(rank))
    requires q < l.np && e < |l.epochs| && l.epochs[e].Export? && e < s.pc[q].epoch
    requires OutIsRight(l, s.out, e, q)
    ensures OutIsRight(l, Next(l, s, CopyOut(rank)).out, e, q)
  {
    assert (e, q) != (s.pc[rank].epoch, rank);
  }

  lemma RowComplete(l: Layer, landed: set<Op>, e: nat, q: nat, row: nat)
    requires l.Valid() && q < l.np && AllLanded(l, landed, e, q) && InPart(l.cuts, q, row)
    ensures forall op :: IsOp(l, op) && op.epoch == e && RowOf(l, op) == row ==> op in landed
  {
    forall op | IsOp(l, op) && op.epoch == e && RowOf(l, op) == row ensures op in landed {
      PartUnique(l.cuts, l.rows, l.np, Target(l, op), q, row);
    }
  }

  /** When an access lands, its target is still in that very epoch: it has prepared its window and
      cannot have closed it. */
  lemma LandsInItsEpoch(l: Layer, s: State, op: Op)
    requires l.Valid() && Inv(l, s) && Enabled(l, s, Land(op))
    ensures var t := Target(l, op);
            s.pc[t].epoch == op.epoch && (s.pc[t].phase.Open? || s.pc[t].phase.Closing?)
  {
    var t := Target(l, op);
    assert s.pc[t].Exited(op.epoch) ==> AllLanded(l, s.landed, op.epoch, t);
  }

  lemma LandWindow(l: Layer, s: State, op: Op, q: nat)
    requires l.Valid() && Inv(l, s) && Enabled(l, s, Land(op))
    requires q < l.np && !s.pc[q].phase.Idle? && s.pc[q].epoch < |l.epochs|
    ensures WindowAt(l, s.landed + {op}, LandOp(l, s, op).window[q], s.pc[q].epoch, q)
  {
    LandsInItsEpoch(l, s, op);
    var e := s.pc[q].epoch;
    assert WindowAt(l, s.landed, s.window[q], e, q);
    if l.epochs[e].Export? {
      forall k: nat | k < Size(l, q)
        ensures LandOp(l, s, op).window[q][k] == LandedSum(l, s.landed + {op}, e, l.cuts[q] + k, l.np)
      {
        LandCell(l, s, op, q, k);
      }
    }
  }

  lemma LandCell(l: Layer, s: State, op: Op, q: nat, k: nat)
    requires l.Valid() && Sized(l, s) && IsOp(l, op) && op !in s.landed
    requires var t := Target(l, op); s.pc[t].epoch == op.epoch && !s.pc[t].phase.Idle?
    requires q < l.np && s.pc[q].epoch < |l.epochs| && l.epochs[s.pc[q].epoch].Export?
    requires WindowAt(l, s.landed, s.window[q], s.pc[q].epoch, q) && k < Size(l, q)
    ensures IsMat(LandOp(l, s, op).window[q], Size(l, q), l.nc)
    ensures LandOp(l, s, op).window[q][k] == LandedSum(l, s.landed + {op}, s.pc[q].epoch, l.cuts[q] + k, l.np)
  {
    hide LandedSum, Add;
    LandedSumAfter(l, s.landed, op, s.pc[q].epoch, l.cuts[q] + k, l.np);
    if RowOf(l, op) == l.cuts[q] + k {
      PartUnique(l.cuts, l.rows, l.np, Target(l, op), q, l.cuts[q] + k);
    }
  }

  lemma StepInv(l: Layer, s: State, step: Step)
    requires l.Valid() && Inv(l, s) && Enabled(l, s, step)
    ensures Inv(l, Next(l, s, step))
  {
    StepProgress(l, s, step);
    StepLandedInTime(l, s, step);
    StepNothingInFlight(l, s, step);
    StepClosedTogether(l, s, step);
    StepWindows(l, s, step);
    StepGets(l, s, step);
    StepOuts(l, s, step);
  }

  // ----- whole runs

  /** The states of a run. */
  ghost predicate IsRun(l: Layer, run: seq<State>, steps: seq<Step>)
    requires l.Valid()
  {
    && |run| == |steps| + 1 && Init(l, run[0])
    && forall i :: 0 <= i < |steps| ==>
         Sized(l, run[i]) && Enabled(l, run[i], steps[i]) && run[i + 1] == Next(l, run[i], steps[i])
  }

  /** In every interleaving: no access lands before its target prepared or after it closed its window,
      every get has read the copied-in row, and every copied-out window is the sum of all
      contributions. */
  lemma {:induction false} EveryRunIsSafe(l: Layer, run: seq<State>, steps: seq<Step>)
    requires l.Valid() && IsRun(l, run, steps)
    ensures Inv(l, run[|run| - 1])
    decreases |steps|
  {
    if |steps| == 0 {
      InitInv(l, run[0]);
    } else {
      var n := |steps| - 1;
      assert run[..n + 1][n] == run[n];
      EveryRunIsSafe(l, run[..n + 1], steps[..n]);
      StepInv(l, run[n], steps[n]);
    }
  }

  /** No run gets stuck before every rank has finished every epoch. */
  lemma NoDeadlock(l: Layer, s: State) returns (step: Step)
    requires l.Valid() && Inv(l, s)
    requires exists q :: 0 <= q < l.np && s.pc[q].epoch < |l.epochs|
    ensures Enabled(l, s, step)
  {
    hide LandedSum, GetsAreRight, OutsAreRight, Windows;
    var q := Slowest(s.pc);
    var e := s.pc[q].epoch;
    var busy: nat := 0;
    while busy < l.np && (s.pc[busy].phase.Closing? || (s.pc[busy].phase.Idle? && s.pc[busy].epoch >= |l.epochs|))
      invariant 0 <= busy <= l.np
      invariant forall p :: 0 <= p < busy ==>
                  s.pc[p].phase.Closing? || (s.pc[p].phase.Idle? && s.pc[p].epoch >= |l.epochs|)
    {
      busy := busy + 1;
    }
    if busy < l.np {
      step := OwnStep(l, s, busy);
      return;
    }
    if op :| IsOp(l, op) && op.epoch == e && op !in s.landed {
      step := Land(op);
    } else {
      step := ExitClose(q);
    }
  }

  function Slowest(pc: seq<Pc>): (q: nat)
    requires |pc| > 0
    ensures q < |pc| && forall p :: 0 <= p < |pc| ==> pc[q].epoch <= pc[p].epoch
  {
    if |pc| == 1 then 0
    else
      var q := Slowest(pc[..|pc| - 1]);
      assert forall p :: 0 <= p < |pc| - 1 ==> pc[..|pc| - 1][p] == pc[p];
      if pc[|pc| - 1].epoch < pc[q].epoch then |pc| - 1 else q
  }

  lemma OwnStep(l: Layer, s: State, q: nat) returns (step: Step)
    requires l.Valid() && Inv(l, s) && q < l.np
    requires !s.pc[q].phase.Closing? && !(s.pc[q].phase.Idle? && s.pc[q].epoch >= |l.epochs|)
    ensures Enabled(l, s, step)
  {
    match s.pc[q].phase
    case Idle => step := Prepare(q);
    case Ready => step := OpenFence(q);
    case Open =>
      if s.pc[q].issued < |l.epochs[s.pc[q].epoch].accessed[q]| {
        step := Issue(q);
      } else {
        step := EnterClose(q);
      }
    case Closed => step := CopyOut(q);
  }

  // ----- agreement with the two-sided form

  /** The rows each rank accesses in an epoch. */
  ghost function NeededIn(l: Layer, e: nat): (r: seq<set<nat>>)
    requires l.Valid() && e < |l.epochs|
    ensures |r| == l.np
  {
    NeededRows(l.epochs[e].accessed)
  }

  lemma {:induction false} TotalPartOnce(l: Layer, e: nat, p: nat, row: nat, i: nat)
    requires l.Valid() && e < |l.epochs| && l.epochs[e].Export? && p < l.np
    requires i <= |l.epochs[e].accessed[p]| && row < l.rows && NoDuplicates(l.epochs[e].accessed[p])
    ensures TotalPart(l, e, p, row, i)
         == if row in l.epochs[e].accessed[p][..i] then l.epochs[e].uo[p][row] else Zeros(l.nc)
  {
    if i > 0 {
      TotalPartOnce(l, e, p, row, i - 1);
      var rows := l.epochs[e].accessed[p];
      assert rows[..i] == rows[..i - 1] + [rows[i - 1]];
      AddZero(l.epochs[e].uo[p][row]);
    }
  }

  ghost predicate AccessedOnce(l: Layer, e: nat)
    requires l.Valid() && e < |l.epochs|
  {
    forall p :: 0 <= p < l.np ==> NoDuplicates(l.epochs[e].accessed[p])
  }

  /** The overlaps of an export with every row zeroed that its rank does not access. */
  ghost function MaskedExport(l: Layer, e: nat): (m: Pieces)
    requires l.Valid() && e < |l.epochs| && l.epochs[e].Export?
    ensures m == Masked(l.epochs[e].uo, NeededIn(l, e), l.nc)
    ensures IsOverlap(m, l.np, l.rows, l.nc)
  {
    MaskedIsOverlap(l.epochs[e].uo, NeededIn(l, e), l.rows, l.nc);
    Masked(l.epochs[e].uo, NeededIn(l, e), l.nc)
  }

  lemma MaskedRow(l: Layer, e: nat, p: nat, row: nat)
    requires l.Valid() && e < |l.epochs| && l.epochs[e].Export? && row < l.rows && p < l.np
    ensures MaskedExport(l, e)[p][row]
         == if row in l.epochs[e].accessed[p] then l.epochs[e].uo[p][row] else Zeros(l.nc)
  {
  }

  lemma TotalRow(l: Layer, e: nat, p: nat, row: nat)
    requires l.Valid() && e < |l.epochs| && l.epochs[e].Export? && row < l.rows && p < l.np
    requires AccessedOnce(l, e) && |l.epochs[e].accessed| == l.np
    ensures TotalPart(l, e, p, row, |l.epochs[e].accessed[p]|) == MaskedExport(l, e)[p][row]
  {
    hide TotalPart, MaskedExport;
    var rows := l.epochs[e].accessed[p];
    TotalPartOnce(l, e, p, row, |rows|);
    assert rows[..|rows|] == rows;
    MaskedRow(l, e, p, row);
  }

  lemma {:induction false} TotalIsMaskedSum(l: Layer, e: nat, row: nat, q: nat)
    requires l.Valid() && e < |l.epochs| && l.epochs[e].Export? && row < l.rows && q <= l.np
    requires AccessedOnce(l, e)
    ensures TotalUpTo(l, e, row, q) == RowSum(MaskedExport(l, e), l.rows, l.nc, row, q)
  {
    hide TotalPart, MaskedExport, Layer.Valid, Add, AccessedOnce;
    if q > 0 {
      TotalIsMaskedSum(l, e, row, q - 1);
      TotalRow(l, e, q - 1, row);
    }
  }

  lemma CopiedOutRow(l: Layer, out: map<(nat, nat), Mat>, e: nat, q: nat, row: nat, k: nat)
    requires l.Valid() && q < l.np && e < |l.epochs| && l.epochs[e].Export? && AccessedOnce(l, e)
    requires OutIsRight(l, out, e, q) && k < Size(l, q) && row == l.cuts[q] + k
    ensures out[(e, q)][k] == RowSum(MaskedExport(l, e), l.rows, l.nc, row, l.np)
  {
    hide RowSum, MaskedExport, AccessedOnce;
    TotalIsMaskedSum(l, e, row, l.np);
  }

  lemma CopiedOutIsExported(l: Layer, out: map<(nat, nat), Mat>, e: nat, q: nat)
    requires l.Valid() && q < l.np && e < |l.epochs| && l.epochs[e].Export? && AccessedOnce(l, e)
    requires OutIsRight(l, out, e, q)
    ensures ExportedRows(out[(e, q)], l.epochs[e].uo, NeededIn(l, e), l.rows, l.nc, l.cuts[q], Size(l, q))
  {
    hide RowSum, AccessedOnce, NeededIn, Total, Masked;
    var m, masked := out[(e, q)], MaskedExport(l, e);
    forall k: nat | k < Size(l, q) ensures m[k] == RowSum(masked, l.rows, l.nc, l.cuts[q] + k, l.np) {
      CopiedOutRow(l, out, e, q, l.cuts[q] + k, k);
    }
    assert m == ReduceTo(masked, l.rows, l.nc, l.cuts[q], Size(l, q));
  }

  /** Once a rank has copied out an export, it holds exactly what the two-sided export gives it. */
  lemma ExportAgrees(l: Layer, s: State, e: nat, q: nat)
    requires l.Valid() && Inv(l, s) && q < l.np && e < |l.epochs| && l.epochs[e].Export?
    requires s.pc[q].epoch > e && AccessedOnce(l, e)
    ensures (e, q) in s.out
    ensures ExportedRows(s.out[(e, q)], l.epochs[e].uo, NeededIn(l, e), l.rows, l.nc, l.cuts[q], Size(l, q))
  {
    assert OutIsRight(l, s.out, e, q);
    hide *;
    CopiedOutIsExported(l, s.out, e, q);
  }

  /** A rank's overlap after the first i gets of an import. */
  ghost function Filled(l: Layer, s: State, before: Mat, e: nat, p: nat, i: nat): (m: Mat)
    requires l.Valid() && e < |l.epochs| && p < l.np && i <= |l.epochs[e].accessed[p]| && |before| == l.rows
    requires forall k: nat :: k < |l.epochs[e].accessed[p]| ==> Op(e, p, k) in s.got
    ensures |m| == l.rows
  {
    if i == 0 then before
    else Filled(l, s, before, e, p, i - 1)[l.epochs[e].accessed[p][i - 1] := s.got[Op(e, p, i - 1)]]
  }

  lemma GotRow(l: Layer, s: State, e: nat, p: nat, k: nat)
    requires l.Valid() && Inv(l, s) && p < l.np && e < |l.epochs| && l.epochs[e].Import?
    requires s.pc[p].Exited(e) && k < |l.epochs[e].accessed[p]|
    ensures Op(e, p, k) in s.got && s.got[Op(e, p, k)] == l.epochs[e].u[l.epochs[e].accessed[p][k]]
  {
    assert AllLanded(l, s.landed, e, p);
    assert IsOp(l, Op(e, p, k)) && RowOf(l, Op(e, p, k)) == l.epochs[e].accessed[p][k];
  }

  /** Once a rank has closed an import, its overlap is what the two-sided import gives it. */
  lemma {:induction false} ImportAgrees(l: Layer, s: State, before: Mat, e: nat, p: nat, i: nat)
    requires l.Valid() && Inv(l, s) && p < l.np && e < |l.epochs| && l.epochs[e].Import?
    requires s.pc[p].Exited(e) && |before| == l.rows && i <= |l.epochs[e].accessed[p]|
    ensures forall k: nat :: k < |l.epochs[e].accessed[p]| ==> Op(e, p, k) in s.got
    ensures ImportedRows(Filled(l, s, before, e, p, i), before, l.epochs[e].u, SetOf(l.epochs[e].accessed[p][..i]))
  {
    hide Inv;
    forall k: nat | k < |l.epochs[e].accessed[p]| ensures Op(e, p, k) in s.got {
      GotRow(l, s, e, p, k);
    }
    if i > 0 {
      ImportAgrees(l, s, before, e, p, i - 1);
      GotRow(l, s, e, p, i - 1);
      var rows := l.epochs[e].accessed[p];
      assert rows[..i] == rows[..i - 1] + [rows[i - 1]];
    }
  }
}
