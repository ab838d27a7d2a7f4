/** Runs shorter than the stale age in which no taker dies: there the test lock is exclusive. */
module MachineTestLockQuiet {
  import opened Collections
  import opened MachineTestLock

  function TakerPids(callers: Callers): set<Pid> {
    set c | c in callers :: callers[c].pid
  }

  /** No taker's process dies, and the run does not outlast any call's stale age. */
  ghost predicate Quiet(callers: Callers, start: State, run: seq<Action>, end: State) {
    && TakerPids(callers) <= start.alive
    && (forall a | a in run && a.Crash? :: a.pid !in TakerPids(callers))
    && (forall c | c in callers :: end.now - start.now <= callers[c].staleAfterMs)
  }

  ghost predicate CallIsFresh(callers: Callers, s: State, start: int, c: Call)
    requires c in s.pcs
  {
    match s.pcs[c]
    case JudgeOwner(pid, acquiredAt) => pid in TakerPids(callers) && start <= acquiredAt
    case JudgeAge(mtime) => start <= mtime
    case Stealing => false
    case Stamped(at) => start <= at
    case Opened(at, instance) => start <= at && s.dir.Present? && s.dir.instance == instance
    case _ => true
  }

  /** The directory belongs to a holder, and its metadata was written by that holder. */
  ghost predicate DirectoryIsFresh(callers: Callers, s: State, start: int)
    requires s.dir.Present?
  {
    && s.dir.creator.By?
    && s.dir.creator.call in callers
    && start <= s.dir.mtime
    && (s.dir.owner.Recorded? ==>
          start <= s.dir.owner.acquiredAt && s.dir.owner.pid == callers[s.dir.creator.call].pid)
  }

  /** What every quiet run keeps. */
  ghost predicate Fresh(callers: Callers, s: State, start: int) {
    && s.pcs.Keys == callers.Keys
    && s.crashed == {}
    && start <= s.now
    && TakerPids(callers) <= s.alive
    && (forall c | c in s.pcs :: CallIsFresh(callers, s, start, c))
    && (s.dir.Present? ==> DirectoryIsFresh(callers, s, start))
    && LiveHolders(s) == DirectoryCreator(s.dir)
  }

  lemma {:induction false} FreshEnvironmentStep(callers: Callers, s: State, start: int, a: Action)
    requires Fresh(callers, s, start)
    requires a.Tick? || a.Crash? || a.Respawn?
    requires a.Crash? ==> a.pid !in TakerPids(callers)
    ensures Fresh(callers, Step(callers, s, a).value, start)
  {
    var s' := Step(callers, s, a).value;
    assert forall c | c in callers :: callers[c].pid in TakerPids(callers);
    assert s'.crashed == {};
    assert LiveHolders(s') == LiveHolders(s);
    assert forall c | c in s'.pcs :: CallIsFresh(callers, s, start, c);
  }

  /** What the moving call needs of the state before. */
  ghost predicate MoverIsFresh(callers: Callers, s: State, start: int, c: Call) {
    && c in callers && c in s.pcs && start <= s.now
    && s.now - start <= callers[c].staleAfterMs
    && TakerPids(callers) <= s.alive
    && CallIsFresh(callers, s, start, c)
    && (s.dir.Present? ==> DirectoryIsFresh(callers, s, start))
    && (Holding(s.pcs[c]) ==> DirectoryCreator(s.dir) == {c})
  }

  ghost predicate MoveIsFresh(callers: Callers, s': State, start: int, c: Call) {
    && c in s'.pcs && CallIsFresh(callers, s', start, c)
    && (s'.dir.Present? ==> DirectoryIsFresh(callers, s', start))
  }

  predicate IsHolderAction(a: Action) {
    a.Stamp? || a.OpenMetadata? || a.WriteMetadata? || a.FinishRun? || a.Release?
  }

  lemma {:induction false} FreshWaiterStep(callers: Callers, s: State, start: int, a: Action)
    requires !a.Tick? && !a.Crash? && !a.Respawn? && !IsHolderAction(a)
    requires Step(callers, s, a).Some? && MoverIsFresh(callers, s, start, a.call)
    ensures !a.Steal? && MoveIsFresh(callers, Step(callers, s, a).value, start, a.call)
  {
    assert forall c | c in callers :: callers[c].pid in TakerPids(callers);
  }

  lemma {:induction false} FreshHolderStep(callers: Callers, s: State, start: int, a: Action)
    requires IsHolderAction(a)
    requires Step(callers, s, a).Some? && MoverIsFresh(callers, s, start, a.call)
    ensures MoveIsFresh(callers, Step(callers, s, a).value, start, a.call)
  {
    assert callers[a.call].pid in TakerPids(callers);
  }

  lemma {:induction false} FreshMover(callers: Callers, s: State, start: int, a: Action)
    requires Fresh(callers, s, start)
    requires !a.Tick? && !a.Crash? && !a.Respawn?
    requires Step(callers, s, a).Some?
    requires forall c | c in callers :: s.now - start <= callers[c].staleAfterMs
    ensures !a.Steal?
    ensures MoveIsFresh(callers, Step(callers, s, a).value, start, a.call)
  {
    MoverOfFresh(callers, s, start, a.call);
    if IsHolderAction(a) {
      FreshHolderStep(callers, s, start, a);
    } else {
      FreshWaiterStep(callers, s, start, a);
    }
  }

  lemma {:induction false} MoverOfFresh(callers: Callers, s: State, start: int, c: Call)
    requires Fresh(callers, s, start) && CanMove(callers, s, c)
    requires s.now - start <= callers[c].staleAfterMs
    ensures MoverIsFresh(callers, s, start, c)
  {
    assert CallIsFresh(callers, s, start, c);
    assert c in LiveHolders(s) <==> Holding(s.pcs[c]);
  }

  lemma {:induction false} FreshBystander(callers: Callers, s: State, s': State, start: int, a: Action, c: Call)
    requires Fresh(callers, s, start)
    requires c in s.pcs && c in s'.pcs && s'.pcs[c] == s.pcs[c]
    requires a.Release? ==> c != a.call && a.call in LiveHolders(s)
    requires s.dir.Present? && !a.Release? ==> s'.dir.Present? && s'.dir.instance == s.dir.instance
    ensures CallIsFresh(callers, s', start, c)
  {
    assert CallIsFresh(callers, s, start, c);
    if s.pcs[c].Opened? {
      assert c in LiveHolders(s);
    }
  }

  lemma {:induction false} FreshCallStep(callers: Callers, s: State, start: int, a: Action)
    requires Fresh(callers, s, start)
    requires !a.Tick? && !a.Crash? && !a.Respawn?
    requires Step(callers, s, a).Some?
    requires forall c | c in callers :: s.now - start <= callers[c].staleAfterMs
    ensures !a.Steal?
    ensures Fresh(callers, Step(callers, s, a).value, start)
  {
    var s' := Step(callers, s, a).value;
    FreshMover(callers, s, start, a);
    CallStepHolders(callers, s, a);
    CallStepFrame(callers, s, a);
    if a.Release? {
      assert CallStep(callers, s, a).Some? ==> s.pcs[a.call] == Releasing;
    }
    forall c | c in s'.pcs
      ensures CallIsFresh(callers, s', start, c)
    {
      if c != a.call {
        FreshBystander(callers, s, s', start, a, c);
      }
    }
  }

  lemma {:induction false} ClockOnlyAdvances(callers: Callers, s: State, run: seq<Action>)
    requires Exec(callers, s, run).Some?
    ensures s.now <= Exec(callers, s, run).value.now
    decreases run
  {
    if run != [] {
      ClockOnlyAdvances(callers, Step(callers, s, run[0]).value, run[1..]);
    }
  }

  lemma {:induction false} FreshRun(callers: Callers, s: State, start: int, run: seq<Action>)
    requires Fresh(callers, s, start)
    requires Exec(callers, s, run).Some?
    requires forall a | a in run && a.Crash? :: a.pid !in TakerPids(callers)
    requires forall c | c in callers :: Exec(callers, s, run).value.now - start <= callers[c].staleAfterMs
    ensures Fresh(callers, Exec(callers, s, run).value, start)
    ensures forall a | a in run :: !a.Steal?
    decreases run
  {
    if run != [] {
      var a := run[0];
      ClockOnlyAdvances(callers, s, run);
      if a.Tick? || a.Crash? || a.Respawn? {
        FreshEnvironmentStep(callers, s, start, a);
      } else {
        FreshCallStep(callers, s, start, a);
      }
      FreshRun(callers, Step(callers, s, a).value, start, run[1..]);
    }
  }

  /**
   * A run that starts without a lock directory, in which no taker dies and which is
   * no longer than the stale age: nobody ever steals, two calls never hold at once,
   * the directory exists exactly while a call holds it, readable metadata names the
   * holder, and nothing is left behind once every call has returned or thrown.
   */
  lemma {:induction false} QuietRunIsExclusive(callers: Callers, s: State, run: seq<Action>)
    requires Initial(callers, s) && s.dir.Absent?
    requires Exec(callers, s, run).Some?
    requires Quiet(callers, s, run, Exec(callers, s, run).value)
    ensures forall a | a in run :: !a.Steal?
    ensures var end := Exec(callers, s, run).value;
            && (forall c, d | c in LiveHolders(end) && d in LiveHolders(end) :: c == d)
            && (end.dir.Present? <==> LiveHolders(end) != {})
            && (end.dir.Present? && end.dir.owner.Recorded? ==>
                  forall c | c in LiveHolders(end) :: c in callers && end.dir.owner.pid == callers[c].pid)
            && end.pcs.Keys == callers.Keys
            && ((forall c | c in callers :: end.pcs[c] == Settled) ==> end.dir.Absent?)
  {
    FreshRun(callers, s, s.now, run);
  }
}
