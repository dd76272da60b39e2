/** The largest absolute entry of a column: one value per block of rows, combined without locks by
    teams that retry a compare-exchange on one cell. */
module ColumnMax {
  import opened Arithmetic
  import opened Vectors
  import opened Mttkrp

  function Abs(v: real): real
  {
    if v < 0.0 then -v else v
  }

  /** Largest absolute entry of a column over the first k rows; zero for no rows. */
  function ColMax(a: Mat, r: nat, k: nat): real
  {
    if k == 0 then 0.0
    else if ColMax(a, r, k - 1) < Abs(At(a, k - 1, r)) then Abs(At(a, k - 1, r)) else ColMax(a, r, k - 1)
  }

  ghost predicate Attained(v: real, a: Mat, r: nat, lo: nat, hi: nat)
  {
    exists i: nat :: lo <= i < hi && v == Abs(At(a, i, r))
  }

  /** v is the largest absolute entry of the rows [lo, hi), or zero if there is none. */
  ghost predicate IsMax(v: real, a: Mat, r: nat, lo: nat, hi: nat)
  {
    && (forall i: nat :: lo <= i < hi ==> Abs(At(a, i, r)) <= v)
    && v >= 0.0 && (v == 0.0 || Attained(v, a, r, lo, hi))
  }

  /** Written out: no entry is farther from zero than v, and v is zero or an entry up to its sign. */
  lemma MaxIsPlain(v: real, a: Mat, r: nat, lo: nat, hi: nat)
    requires IsMax(v, a, r, lo, hi)
    ensures forall i: nat :: lo <= i < hi ==> -v <= At(a, i, r) <= v
    ensures v == 0.0 || exists i: nat :: lo <= i < hi && (At(a, i, r) == v || At(a, i, r) == -v)
  {
    forall i: nat | lo <= i < hi ensures -v <= At(a, i, r) <= v {
      assert Abs(At(a, i, r)) <= v;
    }
  }

  lemma IsMaxUnique(v: real, w: real, a: Mat, r: nat, lo: nat, hi: nat)
    requires IsMax(v, a, r, lo, hi) && IsMax(w, a, r, lo, hi)
    ensures v == w
  {
  }

  lemma {:induction false} ColMaxSpec(a: Mat, r: nat, k: nat)
    ensures IsMax(ColMax(a, r, k), a, r, 0, k)
  {
    if k > 0 {
      ColMaxSpec(a, r, k - 1);
      var before := ColMax(a, r, k - 1);
      if before < Abs(At(a, k - 1, r)) {
        assert Attained(ColMax(a, r, k), a, r, 0, k);
      } else if before != 0.0 {
        assert Attained(before, a, r, 0, k - 1);
      }
    }
  }

  // ----- one block of rows

  const ROW_BLOCK := 128

  /** One past the last row of a block. */
  function BlockEnd(block: nat, rows: nat): nat
  {
    if block + ROW_BLOCK < rows then block + ROW_BLOCK else rows
  }

  /** The k-th row that a thread of a team looks at. */
  function Visit(block: nat, thread: nat, teamSize: nat, k: nat): nat
  {
    block + (thread + k * teamSize)
  }

  /** v covers the rows of the block that the thread has looked at in its first k visits. */
  ghost predicate IsThreadMax(v: real, a: Mat, r: nat, block: nat, thread: nat, teamSize: nat, k: nat)
  {
    && v >= 0.0 && (v == 0.0 || Attained(v, a, r, block, block + ROW_BLOCK))
    && forall j: nat :: j < k ==> Covered(v, a, r, block, Visit(block, thread, teamSize, j))
  }

  ghost predicate Covered(v: real, a: Mat, r: nat, block: nat, i: nat)
  {
    i < block + ROW_BLOCK && i < |a| ==> Abs(At(a, i, r)) <= v
  }

  method ThreadMax(a: Mat, r: nat, block: nat, thread: nat, teamSize: nat) returns (v: real)
    requires thread < teamSize
    ensures forall k: nat :: IsThreadMax(v, a, r, block, thread, teamSize, k)
    ensures forall i: nat :: block <= i < block + 128 && i < |a| && (i - block) % teamSize == thread ==>
              -v <= At(a, i, r) <= v
    ensures v == 0.0
            || exists i: nat :: block <= i < block + 128 && (At(a, i, r) == v || At(a, i, r) == -v)
  {
    v := 0.0;
    var ii := thread;
    ghost var k := 0;
    while ii < ROW_BLOCK
      invariant block + ii == Visit(block, thread, teamSize, k)
      invariant IsThreadMax(v, a, r, block, thread, teamSize, k)
      decreases ROW_BLOCK - ii
    {
      if block + ii < |a| {
        var d := Abs(At(a, block + ii, r));
        if d > v {
          assert Attained(d, a, r, block, block + ROW_BLOCK);
          v := d;
        }
      }
      assert Covered(v, a, r, block, Visit(block, thread, teamSize, k));
      Distribute(k, 1, teamSize);
      ii := ii + teamSize;
      k := k + 1;
    }
    forall j: nat | k <= j ensures Covered(v, a, r, block, Visit(block, thread, teamSize, j)) {
      MulMono(k, j, teamSize);
    }
    ThreadIsPlain(v, a, r, block, thread, teamSize);
  }

  lemma ThreadIsPlain(v: real, a: Mat, r: nat, block: nat, thread: nat, teamSize: nat)
    requires thread < teamSize && forall k: nat :: IsThreadMax(v, a, r, block, thread, teamSize, k)
    ensures forall i: nat :: block <= i < block + 128 && i < |a| && (i - block) % teamSize == thread ==>
              -v <= At(a, i, r) <= v
    ensures v == 0.0
            || exists i: nat :: block <= i < block + 128 && (At(a, i, r) == v || At(a, i, r) == -v)
  {
    assert IsThreadMax(v, a, r, block, thread, teamSize, 0);
    forall i: nat | block <= i < block + 128 && i < |a| && (i - block) % teamSize == thread
      ensures -v <= At(a, i, r) <= v
    {
      var q := (i - block) / teamSize;
      SubtractMultiple(i - block, teamSize);
      assert IsThreadMax(v, a, r, block, thread, teamSize, q + 1);
      assert Covered(v, a, r, block, Visit(block, thread, teamSize, q));
    }
  }

  /** All threads of a team, then the first thread takes the largest of their values. */
  method BlockMax(a: Mat, r: nat, block: nat, teamSize: nat) returns (v: real)
    requires teamSize > 0 && block <= |a|
    ensures IsMax(v, a, r, block, BlockEnd(block, |a|))
    ensures forall i: nat :: block <= i < block + 128 && i < |a| ==> -v <= At(a, i, r) <= v
    ensures v == 0.0
            || exists i: nat :: block <= i < block + 128 && i < |a| && (At(a, i, r) == v || At(a, i, r) == -v)
  {
    var tmp := new real[teamSize];
    var t := 0;
    while t < teamSize
      invariant 0 <= t <= teamSize
      invariant forall s :: 0 <= s < t ==> (forall k: nat :: IsThreadMax(tmp[s], a, r, block, s, teamSize, k))
    {
      var m := ThreadMax(a, r, block, t, teamSize);
      tmp[t] := m;
      t := t + 1;
    }
    v := tmp[0];
    assert IsThreadMax(tmp[0], a, r, block, 0, teamSize, 0);
    t := 1;
    while t < teamSize
      invariant 1 <= t <= teamSize
      invariant v >= 0.0 && (v == 0.0 || Attained(v, a, r, block, block + ROW_BLOCK))
      invariant forall s :: 0 <= s < t ==> tmp[s] <= v
    {
      assert IsThreadMax(tmp[t], a, r, block, t, teamSize, 0);
      if tmp[t] > v {
        v := tmp[t];
      }
      t := t + 1;
    }
    CombineThreads(v, a, r, block, teamSize, tmp[..]);
    MaxIsPlain(v, a, r, block, BlockEnd(block, |a|));
  }

  lemma CombineThreads(v: real, a: Mat, r: nat, block: nat, teamSize: nat, tmp: seq<real>)
    requires teamSize > 0 && |tmp| == teamSize && block <= |a|
    requires forall s :: 0 <= s < teamSize ==>
               (forall k: nat :: IsThreadMax(tmp[s], a, r, block, s, teamSize, k)) && tmp[s] <= v
    requires v >= 0.0 && (v == 0.0 || Attained(v, a, r, block, block + ROW_BLOCK))
    ensures IsMax(v, a, r, block, BlockEnd(block, |a|))
  {
    var hi := BlockEnd(block, |a|);
    forall i: nat | block <= i < hi ensures Abs(At(a, i, r)) <= v {
      var s, q := (i - block) % teamSize, (i - block) / teamSize;
      SubtractMultiple(i - block, teamSize);
      assert IsThreadMax(tmp[s], a, r, block, s, teamSize, q + 1);
      assert Covered(tmp[s], a, r, block, Visit(block, s, teamSize, q));
    }
    if v != 0.0 {
      var i: nat :| block <= i < block + ROW_BLOCK && v == Abs(At(a, i, r));
      assert i < |a|;
    }
  }

  // ----- the retry loop as a state machine

  /** Before the first read; in the loop with the value last seen; finished. */
  datatype Phase = Start | Trying(prev: real) | Done

  /** Phase, failed exchanges, steps taken, exchanges of the cell counted at the last read, and whether
      its own exchange went through. */
  datatype Team = Team(phase: Phase, fails: nat, steps: nat, seen: nat, won: bool)

  datatype State = State(cell: real, teams: seq<Team>)

  /** Exchanges that went through. */
  function Wins(teams: seq<Team>): nat
  {
    if |teams| == 0 then 0 else Wins(teams[..|teams| - 1]) + if teams[|teams| - 1].won then 1 else 0
  }

  /** The loop condition: go on while the value seen is below the team's own. */
  function LoopOn(prev: real, val: real): Phase
  {
    if prev < val then Trying(prev) else Done
  }

  ghost predicate Init(vals: seq<real>, s: State)
  {
    && s.cell == 0.0 && |s.teams| == |vals|
    && forall t :: 0 <= t < |vals| ==> s.teams[t] == Team(Start, 0, 0, 0, false)
  }

  /** One atomic access of team t: the first read, or one compare-exchange. */
  ghost predicate Step(vals: seq<real>, s: State, s': State, t: nat)
    requires |s.teams| == |vals|
  {
    t < |vals| &&
    var me := s.teams[t];
    match me.phase
    case Start =>
      s' == State(s.cell, s.teams[t := Team(LoopOn(s.cell, vals[t]), me.fails, me.steps + 1, Wins(s.teams), me.won)])
    case Trying(prev) =>
      if s.cell == prev then
        s' == State(vals[t], s.teams[t := Team(Done, me.fails, me.steps + 1, me.seen, true)])
      else
        var again := Team(LoopOn(s.cell, vals[t]), me.fails + 1, me.steps + 1, Wins(s.teams), me.won);
        s' == State(s.cell, s.teams[t := again])
    case Done =>
      false
  }

  ghost predicate TeamInv(vals: seq<real>, cell: real, wins: nat, team: Team, t: nat)
    requires t < |vals|
  {
    && team.fails < |vals|
    && team.steps == (if team.phase.Start? then 0 else 1 + team.fails + if team.won then 1 else 0)
    && (team.phase.Done? ==> cell >= vals[t])
    && (team.phase.Start? ==> !team.won && team.fails == 0)
    && (team.phase.Trying? ==>
          && team.phase.prev < vals[t] && team.phase.prev <= cell && !team.won
          && team.fails <= team.seen <= wins && (team.seen == wins ==> team.phase.prev == cell))
  }

  ghost predicate Inv(vals: seq<real>, s: State)
  {
    && |s.teams| == |vals|
    && s.cell >= 0.0 && (s.cell == 0.0 || s.cell in vals)
    && forall t: nat :: t < |vals| ==> TeamInv(vals, s.cell, Wins(s.teams), s.teams[t], t)
  }

  lemma {:induction false} WinsUpdate(teams: seq<Team>, t: nat, team: Team)
    requires t < |teams|
    ensures Wins(teams[t := team]) == Wins(teams) - (if teams[t].won then 1 else 0) + if team.won then 1 else 0
  {
    var n := |teams| - 1;
    if t < n {
      WinsUpdate(teams[..n], t, team);
      assert teams[t := team][..n] == teams[..n][t := team];
    } else {
      assert teams[t := team][..n] == teams[..n];
    }
  }

  lemma {:induction false} WinsBound(teams: seq<Team>)
    ensures Wins(teams) <= |teams|
  {
    if |teams| > 0 {
      WinsBound(teams[..|teams| - 1]);
    }
  }

  /** While some team has not won, fewer exchanges went through than there are teams. */
  lemma WinsBelow(teams: seq<Team>, t: nat)
    requires t < |teams| && !teams[t].won
    ensures Wins(teams) < |teams|
  {
    WinsUpdate(teams, t, Team(Done, 0, 0, 0, true));
    WinsBound(teams[t := Team(Done, 0, 0, 0, true)]);
  }

  /** Every step keeps the invariant, and the cell never goes down. */
  lemma StepInv(vals: seq<real>, s: State, s': State, t: nat)
    requires (forall v :: v in vals ==> v >= 0.0) && Inv(vals, s) && Step(vals, s, s', t)
    ensures Inv(vals, s') && s'.cell >= s.cell
    ensures s'.teams[t].steps == s.teams[t].steps + 1
  {
    var me := s.teams[t];
    assert TeamInv(vals, s.cell, Wins(s.teams), me, t);
    WinsBelow(s.teams, t);
    WinsUpdate(s.teams, t, s'.teams[t]);
    forall k: nat | k < |vals| ensures TeamInv(vals, s'.cell, Wins(s'.teams), s'.teams[k], k) {
      assert TeamInv(vals, s.cell, Wins(s.teams), s.teams[k], k);
    }
  }

  // ----- whole runs

  ghost predicate IsRun(vals: seq<real>, run: seq<State>, who: seq<nat>)
  {
    && |run| == |who| + 1 && Init(vals, run[0])
    && forall i :: 0 <= i < |who| ==> |run[i].teams| == |vals| && Step(vals, run[i], run[i + 1], who[i])
  }

  function StepsTaken(teams: seq<Team>): nat
  {
    if |teams| == 0 then 0 else StepsTaken(teams[..|teams| - 1]) + teams[|teams| - 1].steps
  }

  lemma {:induction false} StepsUpdate(teams: seq<Team>, t: nat, team: Team)
    requires t < |teams|
    ensures StepsTaken(teams[t := team]) == StepsTaken(teams) - teams[t].steps + team.steps
  {
    var n := |teams| - 1;
    if t < n {
      StepsUpdate(teams[..n], t, team);
      assert teams[t := team][..n] == teams[..n][t := team];
    } else {
      assert teams[t := team][..n] == teams[..n];
    }
  }

  lemma {:induction false} StepsBound(teams: seq<Team>, each: nat)
    requires forall t :: 0 <= t < |teams| ==> teams[t].steps <= each
    ensures StepsTaken(teams) <= |teams| * each
  {
    if |teams| > 0 {
      StepsBound(teams[..|teams| - 1], each);
      assert |teams| * each == (|teams| - 1) * each + each;
    }
  }

  lemma {:induction false} StepsStart(vals: seq<real>, teams: seq<Team>)
    requires forall t :: 0 <= t < |teams| ==> teams[t].steps == 0
    ensures StepsTaken(teams) == 0
  {
    if |teams| > 0 {
      StepsStart(vals, teams[..|teams| - 1]);
    }
  }

  lemma {:induction false} InitInv(vals: seq<real>, s: State)
    requires Init(vals, s)
    ensures Inv(vals, s) && Wins(s.teams) == 0
  {
    NoWins(s.teams);
  }

  lemma {:induction false} NoWins(teams: seq<Team>)
    requires forall t :: 0 <= t < |teams| ==> !teams[t].won
    ensures Wins(teams) == 0
  {
    if |teams| > 0 {
      NoWins(teams[..|teams| - 1]);
    }
  }

  lemma {:induction false} RunInv(vals: seq<real>, run: seq<State>, who: seq<nat>)
    requires (forall v :: v in vals ==> v >= 0.0) && IsRun(vals, run, who)
    ensures Inv(vals, run[|who|]) && StepsTaken(run[|who|].teams) == |who|
    ensures forall i :: 0 <= i <= |who| ==> run[i].cell <= run[|who|].cell
  {
    var n := |who|;
    if n == 0 {
      InitInv(vals, run[0]);
      StepsStart(vals, run[0].teams);
    } else {
      RunInv(vals, run[..n], who[..n - 1]);
      StepInv(vals, run[n - 1], run[n], who[n - 1]);
      StepsUpdate(run[n - 1].teams, who[n - 1], run[n].teams[who[n - 1]]);
    }
  }

  /** For any number of teams and any interleaving: no exchange fails more often than there are other
      teams, and every run is over after at most teams * (teams + 1) steps. */
  lemma RunsAreBounded(vals: seq<real>, run: seq<State>, who: seq<nat>)
    requires (forall v :: v in vals ==> v >= 0.0) && IsRun(vals, run, who)
    ensures forall t :: 0 <= t < |run[|who|].teams| ==> run[|who|].teams[t].fails < |vals|
    ensures |who| <= |vals| * (|vals| + 1)
  {
    RunInv(vals, run, who);
    var last := run[|who|];
    forall t: nat | t < |vals| ensures last.teams[t].fails < |vals| && last.teams[t].steps <= |vals| + 1 {
      assert TeamInv(vals, last.cell, Wins(last.teams), last.teams[t], t);
    }
    StepsBound(last.teams, |vals| + 1);
  }

  /** The next atomic access of a team: one that is not done can always move. */
  function Advance(vals: seq<real>, s: State, t: nat): (s': State)
    requires |s.teams| == |vals| && t < |vals| && !s.teams[t].phase.Done?
    ensures Step(vals, s, s', t)
  {
    var me := s.teams[t];
    match me.phase
    case Start =>
      State(s.cell, s.teams[t := Team(LoopOn(s.cell, vals[t]), me.fails, me.steps + 1, Wins(s.teams), me.won)])
    case Trying(prev) =>
      if s.cell == prev then State(vals[t], s.teams[t := Team(Done, me.fails, me.steps + 1, me.seen, true)])
      else
        var again := Team(LoopOn(s.cell, vals[t]), me.fails + 1, me.steps + 1, Wins(s.teams), me.won);
        State(s.cell, s.teams[t := again])
  }

  /** Team b holds the largest absolute entry of rows [128 b, 128 (b + 1)) of the column. */
  ghost predicate BlockValues(vals: seq<real>, a: Mat, r: nat)
  {
    && |a| <= |vals| * ROW_BLOCK
    && forall b: nat :: b < |vals| ==>
         b * ROW_BLOCK <= |a| && IsMax(vals[b], a, r, b * ROW_BLOCK, BlockEnd(b * ROW_BLOCK, |a|))
  }

  /** When all teams are done the cell holds the largest absolute entry of the whole column. */
  lemma FinalIsColumnMax(vals: seq<real>, run: seq<State>, who: seq<nat>, a: Mat, r: nat)
    requires BlockValues(vals, a, r) && IsRun(vals, run, who)
    requires forall t :: 0 <= t < |run[|who|].teams| ==> run[|who|].teams[t].phase.Done?
    ensures run[|who|].cell == ColMax(a, r, |a|)
    ensures forall i: nat :: i < |a| ==> -run[|who|].cell <= At(a, i, r) <= run[|who|].cell
    ensures run[|who|].cell == 0.0
            || exists i: nat :: i < |a| && (At(a, i, r) == run[|who|].cell || At(a, i, r) == -run[|who|].cell)
  {
    forall v | v in vals ensures v >= 0.0 {
      var b: nat :| b < |vals| && vals[b] == v;
    }
    RunInv(vals, run, who);
    var s := run[|who|];
    hide IsMax, Attained, BlockValues, TeamInv, Abs, At;
    forall i: nat | i < |a| ensures Abs(At(a, i, r)) <= s.cell {
      CellCovers(vals, s, a, r, i);
    }
    if s.cell != 0.0 {
      CellAttained(vals, s, a, r);
    }
    CellIsMax(s.cell, a, r);
  }

  lemma CellCovers(vals: seq<real>, s: State, a: Mat, r: nat, i: nat)
    requires BlockValues(vals, a, r) && Inv(vals, s) && i < |a|
    requires forall t :: 0 <= t < |s.teams| ==> s.teams[t].phase.Done?
    ensures Abs(At(a, i, r)) <= s.cell
  {
    var b := i / ROW_BLOCK;
    assert b * ROW_BLOCK <= i < b * ROW_BLOCK + ROW_BLOCK;
    assert TeamInv(vals, s.cell, Wins(s.teams), s.teams[b], b);
    hide At, Abs, Attained;
    assert IsMax(vals[b], a, r, b * ROW_BLOCK, BlockEnd(b * ROW_BLOCK, |a|));
  }

  lemma CellAttained(vals: seq<real>, s: State, a: Mat, r: nat)
    requires BlockValues(vals, a, r) && Inv(vals, s) && s.cell != 0.0
    ensures Attained(s.cell, a, r, 0, |a|)
  {
    var b: nat :| b < |vals| && vals[b] == s.cell;
    var lo := b * ROW_BLOCK;
    var hi := BlockEnd(lo, |a|);
    assert IsMax(s.cell, a, r, lo, hi);
    var i: nat :| lo <= i < hi && s.cell == Abs(At(a, i, r));
    hide At, Abs;
    assert Attained(s.cell, a, r, 0, |a|);
  }

  /** A cell that is at least every entry and zero or one of them is the largest entry. */
  lemma CellIsMax(cell: real, a: Mat, r: nat)
    requires (forall i: nat :: i < |a| ==> Abs(At(a, i, r)) <= cell) && cell >= 0.0
    requires cell == 0.0 || Attained(cell, a, r, 0, |a|)
    ensures cell == ColMax(a, r, |a|)
    ensures forall i: nat :: i < |a| ==> -cell <= At(a, i, r) <= cell
    ensures cell == 0.0 || exists i: nat :: i < |a| && (At(a, i, r) == cell || At(a, i, r) == -cell)
  {
    assert IsMax(cell, a, r, 0, |a|);
    ColMaxSpec(a, r, |a|);
    hide IsMax, ColMax, Attained, Abs, At;
    IsMaxUnique(cell, ColMax(a, r, |a|), a, r, 0, |a|);
    MaxIsPlain(cell, a, r, 0, |a|);
  }

  /** The values that the teams bring to the cell. */
  method AllBlocks(a: Mat, r: nat, teamSize: nat) returns (vals: seq<real>)
    requires teamSize > 0
    ensures |vals| == (|a| + ROW_BLOCK - 1) / ROW_BLOCK && BlockValues(vals, a, r)
  {
    var n := (|a| + ROW_BLOCK - 1) / ROW_BLOCK;
    vals := [];
    while |vals| < n
      invariant |vals| <= n
      invariant forall b: nat :: b < |vals| ==>
                  b * ROW_BLOCK <= |a| && IsMax(vals[b], a, r, b * ROW_BLOCK, BlockEnd(b * ROW_BLOCK, |a|))
    {
      var v := BlockMax(a, r, |vals| * ROW_BLOCK, teamSize);
      vals := vals + [v];
    }
  }

  /** The whole kernel for one column: every team computes its block's value, then the teams update the
      cell, always some team that is not done yet. */
  method ColNormInf(a: Mat, r: nat, teamSize: nat) returns (norm: real)
    requires teamSize > 0
    ensures norm == ColMax(a, r, |a|)
    ensures forall i: nat :: i < |a| ==> -norm <= At(a, i, r) <= norm
    ensures norm == 0.0 || exists i: nat :: i < |a| && (At(a, i, r) == norm || At(a, i, r) == -norm)
  {
    var vals := AllBlocks(a, r, teamSize);
    forall v | v in vals ensures v >= 0.0 {
      var b: nat :| b < |vals| && vals[b] == v;
    }
    var s := State(0.0, seq(|vals|, _ => Team(Start, 0, 0, 0, false)));
    ghost var run, who := [s], [];
    hide Step, BlockValues, Wins;
    while exists t: nat :: t < |vals| && !s.teams[t].phase.Done?
      invariant IsRun(vals, run, who) && s == run[|who|] && |s.teams| == |vals|
      decreases |vals| * (|vals| + 1) - |who|
    {
      var t: nat :| t < |vals| && !s.teams[t].phase.Done?;
      s := Advance(vals, s, t);
      RunPush(vals, run, who, s, t);
      run, who := run + [s], who + [t];
      RunsAreBounded(vals, run, who);
    }
    FinalIsColumnMax(vals, run, who, a, r);
    norm := s.cell;
  }

  lemma RunPush(vals: seq<real>, run: seq<State>, who: seq<nat>, s: State, t: nat)
    requires IsRun(vals, run, who) && |run[|who|].teams| == |vals| && Step(vals, run[|who|], s, t)
    ensures IsRun(vals, run + [s], who + [t]) && |s.teams| == |vals|
  {
  }
}
