/**
 * What a call of the test lock goes through, and that it can always get there.
 *
 * The other lock modules bound the holders from above.  Here every action of a call is
 * shown to have the one before it as its cause, so that no call settles without having
 * run its work or failed for a reason; and a waiting call that finds the path free can run
 * by itself, so that all calls can take their turns.
 */
module MachineTestLockProgress {
  import opened Collections
  import opened MachineTestLock
  import opened MachineTestLockOverlap

  // ----- causes ------------------------------------------------------------------

  /** Call `c` cannot record itself: a write fails, or its directory has been taken away. */
  predicate LosesMetadata(s: State, a: Action, c: Call) {
    || a == OpenMetadata(c, false)
    || (a == OpenMetadata(c, true) && s.dir.Absent?)
    || a == WriteMetadata(c, false)
  }

  /** Call `c` cannot record itself at some point of the run. */
  predicate GivesUp(callers: Callers, s: State, run: seq<Action>, c: Call)
    decreases run
  {
    run != [] && Step(callers, s, run[0]).Some?
    && (LosesMetadata(s, run[0], c) || GivesUp(callers, Step(callers, s, run[0]).value, run[1..], c))
  }

  lemma {:induction false} ExecLast(callers: Callers, s: State, run: seq<Action>, a: Action)
    requires Exec(callers, s, run + [a]).Some?
    ensures Exec(callers, s, run).Some?
    ensures Step(callers, Exec(callers, s, run).value, a) == Exec(callers, s, run + [a])
    decreases run
  {
    if run == [] {
      assert run + [a] == [a] && [a][1..] == [];
      assert Exec(callers, Step(callers, s, a).value, []).Some?;
    } else {
      assert (run + [a])[1..] == run[1..] + [a];
      ExecLast(callers, Step(callers, s, run[0]).value, run[1..], a);
    }
  }

  lemma {:induction false} GivesUpLast(callers: Callers, s: State, run: seq<Action>, a: Action, c: Call)
    requires Exec(callers, s, run + [a]).Some? && Exec(callers, s, run).Some?
    ensures GivesUp(callers, s, run, c) || LosesMetadata(Exec(callers, s, run).value, a, c) ==>
              GivesUp(callers, s, run + [a], c)
    decreases run
  {
    if run == [] {
      assert run + [a] == [a];
    } else {
      assert (run + [a])[1..] == run[1..] + [a];
      GivesUpLast(callers, Step(callers, s, run[0]).value, run[1..], a, c);
    }
  }

  /** How call `c` got to `pc`. */
  ghost predicate Explains(callers: Callers, s: State, run: seq<Action>, c: Call, pc: Pc) {
    match pc
    case Created => Mkdir(c) in run
    case Stamped(_) => Stamp(c) in run
    case Opened(_, _) => OpenMetadata(c, true) in run
    case Running => WriteMetadata(c, true) in run
    case Releasing => FinishRun(c) in run || GivesUp(callers, s, run, c)
    case Settled => Release(c) in run || MkdirFails(c) in run
    case _ => true
  }

  /** `a` is the action that leads call `c` to `pc`. */
  predicate LeadsTo(s: State, a: Action, c: Call, pc: Pc) {
    match pc
    case Created => a == Mkdir(c)
    case Stamped(_) => a == Stamp(c)
    case Opened(_, _) => a == OpenMetadata(c, true)
    case Running => a == WriteMetadata(c, true)
    case Releasing => a == FinishRun(c) || LosesMetadata(s, a, c)
    case Settled => a == Release(c) || a == MkdirFails(c)
    case _ => true
  }

  lemma {:induction false} OwnStepHasCause(callers: Callers, s: State, a: Action)
    requires !a.Tick? && !a.Crash? && !a.Respawn? && Step(callers, s, a).Some?
    ensures a.call in Step(callers, s, a).value.pcs && LeadsTo(s, a, a.call, Step(callers, s, a).value.pcs[a.call])
  {
  }

  lemma {:induction false} StepHasCause(callers: Callers, s: State, a: Action, c: Call)
    requires Step(callers, s, a).Some? && c in s.pcs && c in Step(callers, s, a).value.pcs
    ensures Step(callers, s, a).value.pcs[c] != s.pcs[c] ==> LeadsTo(s, a, c, Step(callers, s, a).value.pcs[c])
  {
    if !a.Tick? && !a.Crash? && !a.Respawn? {
      CallStepFrame(callers, s, a);
      OwnStepHasCause(callers, s, a);
    }
  }

  lemma {:induction false} StepExplains(callers: Callers, s: State, run: seq<Action>, a: Action, c: Call, mid: State, end: State)
    requires Exec(callers, s, run) == Some(mid) && Exec(callers, s, run + [a]) == Some(end)
    requires Step(callers, mid, a) == Some(end) && c in mid.pcs && c in end.pcs
    requires Explains(callers, s, run, c, mid.pcs[c])
    ensures Explains(callers, s, run + [a], c, end.pcs[c])
  {
    GivesUpLast(callers, s, run, a, c);
    StepHasCause(callers, mid, a, c);
    assert a in run + [a];
  }

  /** In every run each call has got where it is by the action that leads there. */
  lemma {:induction false} RunExplains(callers: Callers, s: State, run: seq<Action>, c: Call)
    requires Initial(callers, s) && c in callers && Exec(callers, s, run).Some?
    ensures c in Exec(callers, s, run).value.pcs
    ensures Explains(callers, s, run, c, Exec(callers, s, run).value.pcs[c])
    decreases |run|
  {
    CallsStay(callers, s, run);
    if run != [] {
      var front, a := run[..|run| - 1], run[|run| - 1];
      assert run == front + [a];
      ExecLast(callers, s, front, a);
      RunExplains(callers, s, front, c);
      StepExplains(callers, s, front, a, c, Exec(callers, s, front).value, Exec(callers, s, run).value);
    }
  }

  /** A call settles only by releasing the lock or because `mkdir` failed. */
  lemma {:induction false} SettledHasCause(callers: Callers, s: State, run: seq<Action>, c: Call)
    requires Initial(callers, s) && c in callers && Exec(callers, s, run).Some?
    requires c in Exec(callers, s, run).value.pcs && Exec(callers, s, run).value.pcs[c] == Settled
    ensures Release(c) in run || MkdirFails(c) in run
  {
    RunExplains(callers, s, run, c);
  }

  /**
   * The actions of a call come in their order: it is created, stamped, opened, written,
   * run and released, and the work is left out only when the metadata could not be written.
   */
  lemma {:induction false} ActionsAreOrdered(callers: Callers, s: State, run: seq<Action>, a: Action, c: Call)
    requires Initial(callers, s) && c in callers && Exec(callers, s, run + [a]).Some?
    ensures a == Stamp(c) ==> Mkdir(c) in run
    ensures a.OpenMetadata? && a.call == c ==> Stamp(c) in run
    ensures a.WriteMetadata? && a.call == c ==> OpenMetadata(c, true) in run
    ensures a == FinishRun(c) ==> WriteMetadata(c, true) in run
    ensures a == Release(c) ==> FinishRun(c) in run || GivesUp(callers, s, run, c)
  {
    ExecLast(callers, s, run, a);
    RunExplains(callers, s, run, c);
  }

  /** A settled call does nothing more. */
  lemma {:induction false} SettledIsFinal(callers: Callers, s: State, run: seq<Action>, c: Call)
    requires c in s.pcs && s.pcs[c] == Settled && Exec(callers, s, run).Some?
    ensures c in Exec(callers, s, run).value.pcs && Exec(callers, s, run).value.pcs[c] == Settled
    ensures forall a | a in run && !a.Tick? && !a.Crash? && !a.Respawn? :: a.call != c
    decreases run
  {
    if run != [] {
      SettledIsFinal(callers, Step(callers, s, run[0]).value, run[1..], c);
    }
  }

  // ----- progress ----------------------------------------------------------------

  /** Before its `mkdir` has succeeded. */
  predicate IsWaiting(pc: Pc) {
    !Holding(pc) && pc != Settled
  }

  lemma {:induction false} AtItself(s: State, c: Call)
    requires c in s.pcs
    ensures At(s, c, s.pcs[c]) == s
  {
    assert s.pcs[c := s.pcs[c]] == s.pcs;
  }

  lemma {:induction false} AloneMore(run: seq<Action>, more: seq<Action>, c: Call)
    requires IsAlone(run, c) && IsAlone(more, c)
    ensures IsAlone(run + more, c)
  {
  }

  /** One move of the waiting call when the path is free. */
  lemma {:induction false} WaiterMoves(callers: Callers, s: State, c: Call, a: Action, pc: Pc)
    requires CanMove(callers, s, c) && s.dir.Absent? && !a.Tick? && !a.Crash? && !a.Respawn? && a.call == c
    requires Step(callers, s, a) == Some(At(s, c, pc))
    ensures Leads(callers, s, [a], At(s, c, pc), 0) && IsAlone([a], c)
  {
    Once(callers, s, a, At(s, c, pc));
  }

  lemma {:induction false} FromSleep(callers: Callers, s: State, c: Call)
    requires CanMove(callers, s, c) && s.dir.Absent? && s.pcs[c] == Sleeping
    ensures Leads(callers, s, [Wake(c)], At(s, c, TryMkdir), 0) && IsAlone([Wake(c)], c)
  {
    WaiterMoves(callers, s, c, Wake(c), TryMkdir);
  }

  /** One move, and then whatever the call does from there. */
  lemma {:induction false} MoveThen(callers: Callers, s: State, c: Call, a: Action, pc: Pc, more: seq<Action>)
    requires CanMove(callers, s, c) && s.dir.Absent? && !a.Tick? && !a.Crash? && !a.Respawn? && a.call == c
    requires Step(callers, s, a) == Some(At(s, c, pc))
    requires Leads(callers, At(s, c, pc), more, At(At(s, c, pc), c, TryMkdir), 0) && IsAlone(more, c)
    ensures Leads(callers, s, [a] + more, At(s, c, TryMkdir), 0) && IsAlone([a] + more, c)
  {
    WaiterMoves(callers, s, c, a, pc);
    AtAgain(s, c, pc, TryMkdir);
    Then(callers, s, [a], At(s, c, pc), 0, more, At(s, c, TryMkdir), 0);
    AloneMore([a], more, c);
  }

  /** After its judgement the call steals or sleeps, and tries again. */
  lemma {:induction false} AfterJudgement(callers: Callers, s: State, c: Call, stale: bool) returns (run: seq<Action>)
    requires CanMove(callers, s, c) && s.dir.Absent? && s.pcs[c] == AfterJudge(stale)
    ensures Leads(callers, s, run, At(s, c, TryMkdir), 0) && IsAlone(run, c)
  {
    if stale {
      WaiterMoves(callers, s, c, Steal(c), TryMkdir);
      run := [Steal(c)];
    } else {
      FromSleep(callers, s, c);
      run := [Wake(c)];
    }
  }

  lemma {:induction false} FromStat(callers: Callers, s: State, c: Call) returns (run: seq<Action>)
    requires CanMove(callers, s, c) && s.dir.Absent? && s.pcs[c] == StatDirectory
    ensures Leads(callers, s, run, At(s, c, TryMkdir), 0) && IsAlone(run, c)
  {
    FromSleep(callers, At(s, c, Sleeping), c);
    MoveThen(callers, s, c, Stat(c), Sleeping, [Wake(c)]);
    run := [Stat(c)] + [Wake(c)];
  }

  lemma {:induction false} FromJudge(callers: Callers, s: State, c: Call) returns (run: seq<Action>)
    requires CanMove(callers, s, c) && s.dir.Absent? && (s.pcs[c].JudgeOwner? || s.pcs[c].JudgeAge?)
    ensures Leads(callers, s, run, At(s, c, TryMkdir), 0) && IsAlone(run, c)
  {
    var stale := if s.pcs[c].JudgeAge? then s.now - s.pcs[c].mtime > callers[c].staleAfterMs
                 else s.pcs[c].pid !in s.alive || s.now - s.pcs[c].acquiredAt > callers[c].staleAfterMs;
    var more := AfterJudgement(callers, At(s, c, AfterJudge(stale)), c, stale);
    MoveThen(callers, s, c, Judge(c), AfterJudge(stale), more);
    run := [Judge(c)] + more;
  }

  /** On a free path a waiting call comes back to `mkdir` by itself, wherever it is. */
  lemma {:induction false} TriesAgain(callers: Callers, s: State, c: Call) returns (run: seq<Action>)
    requires CanMove(callers, s, c) && s.dir.Absent? && IsWaiting(s.pcs[c])
    ensures Leads(callers, s, run, At(s, c, TryMkdir), 0) && IsAlone(run, c)
  {
    match s.pcs[c]
    case TryMkdir =>
      AtItself(s, c);
      run := [];
    case ReadOwner =>
      run := FromStat(callers, At(s, c, StatDirectory), c);
      MoveThen(callers, s, c, ReadMetadata(c), StatDirectory, run);
      run := [ReadMetadata(c)] + run;
    case StatDirectory => run := FromStat(callers, s, c);
    case Sleeping =>
      FromSleep(callers, s, c);
      run := [Wake(c)];
    case Stealing => run := AfterJudgement(callers, s, c, true);
    case _ => run := FromJudge(callers, s, c);
  }

  /** On a free path a waiting call gets to run its work, by its own actions alone. */
  lemma {:induction false} WaiterRuns(callers: Callers, s: State, c: Call) returns (run: seq<Action>, end: State)
    requires CanMove(callers, s, c) && s.dir.Absent? && IsWaiting(s.pcs[c])
    ensures Leads(callers, s, run, end, 0) && IsAlone(run, c)
    ensures end == Filled(s, c, Running, Recorded(callers[c].pid, s.now))
  {
    var before := TriesAgain(callers, s, c);
    var ready := At(s, c, TryMkdir);
    var more := Records(callers, ready, c);
    end := Filled(ready, c, Running, Recorded(callers[c].pid, s.now));
    AtAgain(s, c, TryMkdir, Running);
    Then(callers, s, before, ready, 0, more, end, 0);
    AloneMore(before, more, c);
    run := before + more;
  }

  /** And then it finishes, releases the lock and settles. */
  lemma {:induction false} WaiterCompletes(callers: Callers, s: State, c: Call) returns (run: seq<Action>, end: State)
    requires CanMove(callers, s, c) && s.dir.Absent? && IsWaiting(s.pcs[c])
    ensures Leads(callers, s, run, end, 0) && IsAlone(run, c) && FinishRun(c) in run
    ensures end == At(s, c, Settled).(nextInstance := s.nextInstance + 1)
  {
    var before, mid := WaiterRuns(callers, s, c);
    var releasing := mid.(pcs := s.pcs[c := Releasing]);
    end := At(s, c, Settled).(nextInstance := s.nextInstance + 1);
    RunningSettles(callers, s, c);
    AndThen(callers, s, before, mid, 0, FinishRun(c), releasing);
    AndThen(callers, s, before + [FinishRun(c)], releasing, 0, Release(c), end);
    run := before + [FinishRun(c)] + [Release(c)];
  }

  lemma {:induction false} RunningSettles(callers: Callers, s: State, c: Call)
    requires CanMove(callers, s, c)
    ensures var running := Filled(s, c, Running, Recorded(callers[c].pid, s.now));
            var releasing := running.(pcs := s.pcs[c := Releasing]);
            && Step(callers, running, FinishRun(c)) == Some(releasing)
            && Step(callers, releasing, Release(c)) == Some(At(s, c, Settled).(nextInstance := s.nextInstance + 1, dir := Absent))
  {
    assert s.pcs[c := Running][c := Releasing] == s.pcs[c := Releasing];
    assert s.pcs[c := Releasing][c := Settled] == s.pcs[c := Settled];
  }

  /** From a free path, calls that wait can all take their turns: each runs its work and settles. */
  lemma {:induction false} AllTakeTurns(callers: Callers, s: State, calls: set<Call>) returns (run: seq<Action>, end: State)
    requires s.dir.Absent? && forall c | c in calls :: CanMove(callers, s, c) && IsWaiting(s.pcs[c])
    ensures Leads(callers, s, run, end, 0) && IsCalm(run)
    ensures end.dir.Absent? && end.pcs == Moved(s, calls, Settled).pcs
    ensures forall c | c in calls :: FinishRun(c) in run
    decreases |calls|
  {
    if calls == {} {
      run, end := [], s;
      assert Moved(s, calls, Settled).pcs == s.pcs;
    } else {
      var c :| c in calls;
      var first, mid := WaiterCompletes(callers, s, c);
      OthersStillWait(callers, s, calls, c);
      var rest;
      rest, end := AllTakeTurns(callers, mid, calls - {c});
      MovedOneByOne(s, calls, c, Settled);
      Then(callers, s, first, mid, 0, rest, end, 0);
      run := first + rest;
      assert forall d | d in calls :: d == c || d in calls - {c};
    }
  }

  lemma {:induction false} OthersStillWait(callers: Callers, s: State, calls: set<Call>, c: Call)
    requires c in calls && forall d | d in calls :: CanMove(callers, s, d) && IsWaiting(s.pcs[d])
    ensures var mid := At(s, c, Settled).(nextInstance := s.nextInstance + 1);
            && (forall d | d in calls - {c} :: CanMove(callers, mid, d) && IsWaiting(mid.pcs[d]))
            && Moved(mid, calls - {c}, Settled).pcs == Moved(At(s, c, Settled), calls - {c}, Settled).pcs
  {
  }

  // ----- failures ----------------------------------------------------------------

  /** A failing `mkdir` ends the call and leaves everything else as it was. */
  lemma {:induction false} MkdirErrorSettles(callers: Callers, s: State, c: Call)
    requires CanMove(callers, s, c) && s.pcs[c] == TryMkdir
    ensures Step(callers, s, MkdirFails(c)) == Some(At(s, c, Settled))
  {
  }

  /**
   * Every path after a successful `mkdir` releases the directory: wherever the holder is,
   * and even if its next write fails, it can settle by itself with the path free.
   */
  lemma {:induction false} HolderReleases(callers: Callers, s: State, c: Call, ok: bool) returns (run: seq<Action>, end: State)
    requires CanMove(callers, s, c) && Holding(s.pcs[c])
    ensures Leads(callers, s, run, end, 0) && IsAlone(run, c)
    ensures end.dir.Absent? && end.pcs == s.pcs[c := Settled] && Release(c) in run
    ensures !ok && s.pcs[c] != Running ==> FinishRun(c) !in run
    decreases HoldingRank(s.pcs[c])
  {
    if s.pcs[c] == Releasing {
      end := At(s, c, Settled).(dir := Absent);
      Once(callers, s, Release(c), end);
      run := [Release(c)];
    } else {
      var a, mid := HolderMoves(callers, s, c, ok);
      Once(callers, s, a, mid);
      var more;
      more, end := HolderReleases(callers, mid, c, ok);
      Then(callers, s, [a], mid, 0, more, end, 0);
      AloneMore([a], more, c);
      assert mid.pcs[c := Settled] == s.pcs[c := Settled];
      run := [a] + more;
    }
  }

  /** The next action of a holder that is not yet releasing. */
  lemma {:induction false} HolderMoves(callers: Callers, s: State, c: Call, ok: bool) returns (a: Action, mid: State)
    requires CanMove(callers, s, c) && Holding(s.pcs[c]) && s.pcs[c] != Releasing
    ensures Step(callers, s, a) == Some(mid) && IsAlone([a], c) && !a.Steal?
    ensures CanMove(callers, mid, c) && Holding(mid.pcs[c]) && HoldingRank(mid.pcs[c]) < HoldingRank(s.pcs[c])
    ensures mid.pcs == s.pcs[c := mid.pcs[c]]
    ensures !ok && s.pcs[c] != Running ==> mid.pcs[c] != Running && a != FinishRun(c)
  {
    a := match s.pcs[c]
      case Created => Stamp(c)
      case Stamped(_) => OpenMetadata(c, ok)
      case Opened(_, _) => WriteMetadata(c, ok)
      case _ => FinishRun(c);
    mid := Step(callers, s, a).value;
  }

  function HoldingRank(pc: Pc): nat {
    match pc
    case Created => 5
    case Stamped(_) => 4
    case Opened(_, _) => 3
    case Running => 2
    case Releasing => 1
    case _ => 0
  }
}
