/** How long the one-sided update runs: every run of a layer's protocol is bounded, and one that cannot go
    on has finished every epoch on every rank, with every access landed. */
module OneSidedTermination {
  import opened OneSidedUpdate

  function SumOf(counts: seq<nat>): nat
  {
    if counts == [] then 0 else SumOf(counts[..|counts| - 1]) + counts[|counts| - 1]
  }

  lemma SumOfStep(counts: seq<nat>, e: nat)
    requires e < |counts|
    ensures SumOf(counts[..e + 1]) == SumOf(counts[..e]) + counts[e]
  {
    assert counts[..e + 1][..e] == counts[..e];
  }

  lemma {:induction false} SumOfPrefix(counts: seq<nat>, a: nat, b: nat)
    requires a <= b <= |counts|
    ensures SumOf(counts[..a]) <= SumOf(counts[..b])
    decreases b
  {
    if a < b {
      SumOfPrefix(counts, a, b - 1);
      SumOfStep(counts, b - 1);
    }
  }

  /** The number of accesses of rank q, by epoch. */
  ghost function Counts(l: Layer, q: nat): (counts: seq<nat>)
    requires l.Valid() && q < l.np
    ensures |counts| == |l.epochs|
    ensures forall e: nat :: e < |counts| ==> counts[e] == |l.epochs[e].accessed[q]|
  {
    seq(|l.epochs|, e requires 0 <= e < |l.epochs| => |l.epochs[e].accessed[q]|)
  }

  ghost function AllCounts(l: Layer): (all: seq<seq<nat>>)
    requires l.Valid()
    ensures |all| == l.np && forall q: nat :: q < l.np ==> all[q] == Counts(l, q)
  {
    seq(l.np, q requires 0 <= q < l.np => Counts(l, q))
  }

  // ----- steps that a rank has taken itself

  function PhaseSteps(pc: Pc): nat
  {
    match pc.phase
    case Idle => 0
    case Ready => 1
    case Open => 2 + pc.issued
    case Closing => 3 + pc.issued
    case Closed => 4 + pc.issued
  }

  /** An epoch takes a rank one step to prepare, one for its opening fence, one for every access, two for
      the closing fence, and one to copy out. */
  function OwnSteps(counts: seq<nat>, pc: Pc): nat
    requires pc.epoch <= |counts|
  {
    5 * pc.epoch + SumOf(counts[..pc.epoch]) + PhaseSteps(pc)
  }

  ghost predicate WithinEpochs(all: seq<seq<nat>>, pcs: seq<Pc>)
  {
    |pcs| == |all| && forall q :: 0 <= q < |pcs| ==> pcs[q].epoch <= |all[q]|
  }

  /** The own steps of the first n ranks. */
  ghost function AllOwnSteps(all: seq<seq<nat>>, pcs: seq<Pc>, n: nat): nat
    requires WithinEpochs(all, pcs) && n <= |all|
  {
    if n == 0 then 0 else AllOwnSteps(all, pcs, n - 1) + OwnSteps(all[n - 1], pcs[n - 1])
  }

  lemma {:induction false} OwnStepsUpdate(all: seq<seq<nat>>, pcs: seq<Pc>, n: nat, q: nat, pc: Pc)
    requires WithinEpochs(all, pcs) && n <= |all| && q < |all| && pc.epoch <= |all[q]|
    ensures AllOwnSteps(all, pcs[q := pc], n)
         == AllOwnSteps(all, pcs, n) + if q < n then OwnSteps(all[q], pc) - OwnSteps(all[q], pcs[q]) else 0
  {
    if n > 0 {
      OwnStepsUpdate(all, pcs, n - 1, q, pc);
    }
  }

  lemma {:induction false} NothingYet(all: seq<seq<nat>>, pcs: seq<Pc>, n: nat)
    requires WithinEpochs(all, pcs) && n <= |all| && forall q :: 0 <= q < |pcs| ==> pcs[q] == Pc(0, Idle, 0)
    ensures AllOwnSteps(all, pcs, n) == 0
  {
    if n > 0 {
      NothingYet(all, pcs, n - 1);
    }
  }

  ghost predicate Within(l: Layer, s: State)
    requires l.Valid()
  {
    WithinEpochs(AllCounts(l), s.pc)
  }

  lemma InvWithin(l: Layer, s: State)
    requires l.Valid() && Inv(l, s)
    ensures Sized(l, s) && Within(l, s)
  {
    hide Windows, GetsAreRight, OutsAreRight, LandedInTime, NothingInFlight, ClosedTogether, Layer.ValidEpoch;
  }

  lemma OneMorePc(l: Layer, s: State, step: Step)
    requires l.Valid() && Inv(l, s) && Enabled(l, s, step) && !step.Land?
    ensures var q, s' := step.rank, Next(l, s, step);
            && q < l.np && Within(l, s) && s'.landed == s.landed && s'.pc[q].epoch <= |Counts(l, q)|
            && s'.pc == s.pc[q := s'.pc[q]]
            && OwnSteps(Counts(l, q), s'.pc[q]) == OwnSteps(Counts(l, q), s.pc[q]) + 1
  {
    hide Windows, GetsAreRight, OutsAreRight, LandedInTime, NothingInFlight, ClosedTogether, AllLanded, Prepared;
    hide SumOf, Layer.ValidEpoch, LandOp, IsOp, Target, RowOf, AllCounts, WithinEpochs;
    InvWithin(l, s);
    if step.CopyOut? {
      SumOfStep(Counts(l, step.rank), s.pc[step.rank].epoch);
    }
  }

  /** Steps of ranks, and accesses that have landed. */
  ghost function StepsDone(l: Layer, s: State): nat
    requires l.Valid() && Within(l, s)
  {
    AllOwnSteps(AllCounts(l), s.pc, l.np) + |s.landed|
  }

  lemma OneMoreLanded(l: Layer, s: State, op: Op)
    requires l.Valid() && Sized(l, s) && Enabled(l, s, Land(op))
    ensures var s' := Next(l, s, Land(op)); s'.pc == s.pc && |s'.landed| == |s.landed| + 1
  {
    hide LandOp, Layer.Valid;
  }

  /** Every step of the protocol counts once. */
  lemma StepCounted(l: Layer, s: State, step: Step)
    requires l.Valid() && Inv(l, s) && Enabled(l, s, step)
    ensures Within(l, s) && Within(l, Next(l, s, step)) && StepsDone(l, Next(l, s, step)) == StepsDone(l, s) + 1
  {
    hide Inv, Next, Enabled, OwnSteps, AllOwnSteps, Layer.Valid;
    InvWithin(l, s);
    var s' := Next(l, s, step);
    if step.Land? {
      OneMoreLanded(l, s, step.op);
    } else {
      OneMorePc(l, s, step);
      OwnStepsUpdate(AllCounts(l), s.pc, l.np, step.rank, s'.pc[step.rank]);
    }
  }

  /** A run has as many steps as its last state counts. */
  lemma {:induction false} RunCounted(l: Layer, run: seq<State>, steps: seq<Step>)
    requires l.Valid() && IsRun(l, run, steps)
    ensures Inv(l, run[|steps|]) && Within(l, run[|steps|]) && StepsDone(l, run[|steps|]) == |steps|
    decreases |steps|
  {
    EveryRunIsSafe(l, run, steps);
    InvWithin(l, run[|steps|]);
    var n := |steps| - 1;
    if |steps| == 0 {
      NothingYet(AllCounts(l), run[0].pc, l.np);
    } else {
      assert run[..n + 1][n] == run[n];
      hide Inv, Next, Enabled, StepsDone, Within;
      RunCounted(l, run[..n + 1], steps[..n]);
      StepCounted(l, run[n], steps[n]);
    }
  }

  // ----- accesses

  /** The first i accesses of rank q in an epoch. */
  ghost function OpsOfEpoch(e: nat, q: nat, i: nat): (ops: set<Op>)
    ensures forall op :: op in ops <==> op.epoch == e && op.origin == q && op.index < i
    ensures |ops| == i
  {
    if i == 0 then {} else OpsOfEpoch(e, q, i - 1) + {Op(e, q, i - 1)}
  }

  /** The accesses of rank q, from the numbers of its accesses by epoch. */
  ghost function OpsOfRank(counts: seq<nat>, q: nat): (ops: set<Op>)
    ensures forall op :: op in ops <==> op.origin == q && op.epoch < |counts| && op.index < counts[op.epoch]
    ensures |ops| == SumOf(counts)
  {
    if counts == [] then {}
    else
      var e := |counts| - 1;
      var before, here := OpsOfRank(counts[..e], q), OpsOfEpoch(e, q, counts[e]);
      assert before * here == {};
      before + here
  }

  /** The accesses of the first n ranks. */
  ghost function OpsOf(all: seq<seq<nat>>): (ops: set<Op>)
    ensures forall op :: op in ops <==>
              op.origin < |all| && op.epoch < |all[op.origin]| && op.index < all[op.origin][op.epoch]
    ensures |ops| == Accesses(all)
  {
    if all == [] then {}
    else
      var q := |all| - 1;
      var before, here := OpsOf(all[..q]), OpsOfRank(all[q], q);
      assert before * here == {};
      before + here
  }

  /** The number of all accesses. */
  ghost function Accesses(all: seq<seq<nat>>): nat
  {
    if all == [] then 0 else Accesses(all[..|all| - 1]) + SumOf(all[|all| - 1])
  }

  lemma OpsAreOps(l: Layer, op: Op)
    requires l.Valid()
    ensures op in OpsOf(AllCounts(l)) <==> IsOp(l, op)
  {
    hide OpsOf, AllCounts, Counts;
    var all := AllCounts(l);
    if op.origin < l.np && op.epoch < |l.epochs| {
      assert all[op.origin][op.epoch] == |l.epochs[op.epoch].accessed[op.origin]|;
    }
  }

  // ----- the bound

  /** Five steps of every rank in every epoch, and an issue and a landing for every access. */
  ghost function StepBound(l: Layer): nat
    requires l.Valid()
  {
    l.np * (5 * |l.epochs|) + 2 * Accesses(AllCounts(l))
  }

  /** Every rank is through with every epoch. */
  ghost predicate Finished(l: Layer, s: State)
  {
    |s.pc| == l.np && forall q :: 0 <= q < l.np ==> s.pc[q].epoch == |l.epochs|
  }

  /** A rank has taken all its steps exactly when it is through with every epoch. */
  lemma OwnStepsBound(l: Layer, s: State, q: nat)
    requires l.Valid() && Inv(l, s) && q < l.np
    ensures s.pc[q].epoch <= |l.epochs|
    ensures OwnSteps(Counts(l, q), s.pc[q]) <= 5 * |l.epochs| + SumOf(Counts(l, q))
    ensures OwnSteps(Counts(l, q), s.pc[q]) == 5 * |l.epochs| + SumOf(Counts(l, q)) <==> s.pc[q].epoch == |l.epochs|
  {
    hide Windows, GetsAreRight, OutsAreRight, LandedInTime, NothingInFlight, ClosedTogether, Layer.ValidEpoch, SumOf;
    var e, counts := s.pc[q].epoch, Counts(l, q);
    assert counts[..|counts|] == counts;
    if e < |l.epochs| {
      SumOfStep(counts, e);
      SumOfPrefix(counts, e + 1, |counts|);
    }
  }

  lemma {:induction false} AllStepsBound(all: seq<seq<nat>>, pcs: seq<Pc>, each: nat, done: seq<bool>, n: nat)
    requires WithinEpochs(all, pcs) && n <= |all| == |done|
    requires forall q :: 0 <= q < n ==>
               && OwnSteps(all[q], pcs[q]) <= each + SumOf(all[q])
               && (OwnSteps(all[q], pcs[q]) == each + SumOf(all[q]) <==> done[q])
    ensures AllOwnSteps(all, pcs, n) <= n * each + Accesses(all[..n])
    ensures AllOwnSteps(all, pcs, n) == n * each + Accesses(all[..n]) <==> forall q :: 0 <= q < n ==> done[q]
  {
    hide OwnSteps, SumOf, WithinEpochs;
    if n > 0 {
      AllStepsBound(all, pcs, each, done, n - 1);
      assert all[..n][..n - 1] == all[..n - 1];
      assert n * each == (n - 1) * each + each;
    }
  }

  lemma OwnStepsOfAll(l: Layer, s: State)
    requires l.Valid() && Inv(l, s)
    ensures Sized(l, s) && Within(l, s)
    ensures var most := l.np * (5 * |l.epochs|) + Accesses(AllCounts(l));
            && AllOwnSteps(AllCounts(l), s.pc, l.np) <= most
            && (AllOwnSteps(AllCounts(l), s.pc, l.np) == most <==> Finished(l, s))
  {
    InvWithin(l, s);
    var all := AllCounts(l);
    assert Sized(l, s);
    hide Inv, OwnSteps, SumOf, Accesses, Layer.Valid;
    var done := seq(l.np, q requires 0 <= q < l.np => s.pc[q].epoch == |l.epochs|);
    forall q | 0 <= q < l.np
      ensures OwnSteps(all[q], s.pc[q]) <= 5 * |l.epochs| + SumOf(all[q])
      ensures OwnSteps(all[q], s.pc[q]) == 5 * |l.epochs| + SumOf(all[q]) <==> done[q]
    {
      OwnStepsBound(l, s, q);
    }
    AllStepsBound(all, s.pc, 5 * |l.epochs|, done, l.np);
    assert all[..l.np] == all;
  }

  /** Once every rank is through, every access has landed. */
  lemma FinishedLanded(l: Layer, s: State, op: Op)
    requires l.Valid() && Inv(l, s) && Finished(l, s) && IsOp(l, op)
    ensures op in s.landed
  {
    hide Windows, GetsAreRight, OutsAreRight, LandedInTime, ClosedTogether, Progress, Layer.ValidEpoch;
    assert s.pc[op.origin].Exited(op.epoch);
    assert AllLanded(l, s.landed, op.epoch, op.origin);
  }

  lemma LandedBound(l: Layer, s: State)
    requires l.Valid() && Inv(l, s)
    ensures |s.landed| <= Accesses(AllCounts(l))
    ensures Finished(l, s) ==> s.landed == OpsOf(AllCounts(l))
  {
    var ops := OpsOf(AllCounts(l));
    hide Windows, GetsAreRight, OutsAreRight, ClosedTogether, Progress, NothingInFlight, Layer.ValidEpoch, IsOp;
    forall op | op in s.landed ensures op in ops {
      OpsAreOps(l, op);
    }
    assert |ops| == |s.landed| + |ops - s.landed|;
    if Finished(l, s) {
      forall op | op in ops ensures op in s.landed {
        OpsAreOps(l, op);
        FinishedLanded(l, s, op);
      }
    }
  }

  /** In every interleaving a run has at most StepBound steps. It has that many exactly when every rank has
      finished every epoch, and exactly when no step is enabled; then every access has landed. */
  lemma RunsAreBounded(l: Layer, run: seq<State>, steps: seq<Step>)
    requires l.Valid() && IsRun(l, run, steps)
    ensures |steps| <= StepBound(l)
    ensures |steps| == StepBound(l) <==> Finished(l, run[|steps|])
    ensures Sized(l, run[|steps|])
    ensures Finished(l, run[|steps|]) <==> forall step :: !Enabled(l, run[|steps|], step)
    ensures Finished(l, run[|steps|]) ==> forall op :: IsOp(l, op) <==> op in run[|steps|].landed
  {
    var s := run[|steps|];
    RunCounted(l, run, steps);
    OwnStepsOfAll(l, s);
    LandedBound(l, s);
    FinishedIsStuck(l, s);
    forall op ensures op in OpsOf(AllCounts(l)) <==> IsOp(l, op) {
      OpsAreOps(l, op);
    }
    hide *;
    assert Finished(l, s) ==> |s.landed| == Accesses(AllCounts(l));
  }

  /** A state is stuck exactly when every rank is through. */
  lemma FinishedIsStuck(l: Layer, s: State)
    requires l.Valid() && Inv(l, s)
    ensures Sized(l, s) && (Finished(l, s) <==> forall step :: !Enabled(l, s, step))
  {
    hide LandedInTime, NothingInFlight, ClosedTogether, Windows, GetsAreRight, OutsAreRight, Layer.ValidEpoch;
    if Finished(l, s) {
      forall step ensures !Enabled(l, s, step) {
        NothingEnabled(l, s, step);
      }
    } else {
      assert exists q :: 0 <= q < l.np && s.pc[q].epoch < |l.epochs|;
      hide *;
      var step := NoDeadlock(l, s);
    }
  }

  lemma NothingEnabled(l: Layer, s: State, step: Step)
    requires l.Valid() && Inv(l, s) && Finished(l, s)
    ensures !Enabled(l, s, step)
  {
    hide Windows, GetsAreRight, OutsAreRight, LandedInTime, NothingInFlight, ClosedTogether, Layer.ValidEpoch;
    if step.Land? && IsOp(l, step.op) {
      FinishedLanded(l, s, step.op);
    }
  }
}
