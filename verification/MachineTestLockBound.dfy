/** How far a run of the test lock can stray from exclusion: one holder for every harmful steal. */
module MachineTestLockBound {
  import opened Collections
  import opened MachineTestLock

  lemma {:induction false} SubsetSize<T>(a: set<T>, b: set<T>)
    requires a <= b
    ensures |a| <= |b|
  {
    assert b == a + (b - a);
  }

  /** A displaced holder's release never raises the overlap, even when it removes a newer directory. */
  lemma {:induction false} ReleaseDisplaces(callers: Callers, s: State, a: Action)
    requires a.Release? && Step(callers, s, a).Some?
    ensures |LiveHolders(Step(callers, s, a).value)| == |LiveHolders(s)| - 1
    ensures |Displaced(Step(callers, s, a).value)| <= |Displaced(s)|
  {
    CallStepHolders(callers, s, a);
    var h := LiveHolders(s);
    if DirectoryCreator(s.dir) <= h {
      SubsetSize(DirectoryCreator(s.dir), h);
    } else {
      assert Displaced(s) == h;
    }
  }

  lemma {:induction false} StealDisplaces(callers: Callers, s: State, a: Action)
    requires a.Steal? && Step(callers, s, a).Some?
    ensures |Displaced(Step(callers, s, a).value)|
            <= |Displaced(s)| + if HarmfulSteal(callers, s, a) then 1 else 0
  {
    CallStepHolders(callers, s, a);
    var s' := Step(callers, s, a).value;
    var holders, creator := LiveHolders(s), DirectoryCreator(s.dir);
    assert Displaced(s') == holders;
    if creator * holders == {} {
      assert holders - creator == holders;
    } else {
      SubsetSize(holders, (holders - creator) + creator);
    }
  }

  lemma {:induction false} StepDisplaces(callers: Callers, s: State, a: Action)
    requires Step(callers, s, a).Some?
    ensures |Displaced(Step(callers, s, a).value)|
            <= |Displaced(s)| + if HarmfulSteal(callers, s, a) then 1 else 0
  {
    var s' := Step(callers, s, a).value;
    if a.Release? {
      ReleaseDisplaces(callers, s, a);
    } else if a.Steal? {
      StealDisplaces(callers, s, a);
    } else {
      if !a.Crash? && !a.Tick? && !a.Respawn? {
        CallStepHolders(callers, s, a);
      }
      assert Displaced(s') <= Displaced(s);
      SubsetSize(Displaced(s'), Displaced(s));
    }
  }

  lemma {:induction false} RunDisplaces(callers: Callers, s: State, run: seq<Action>)
    requires Exec(callers, s, run).Some?
    ensures |Displaced(Exec(callers, s, run).value)| <= |Displaced(s)| + HarmfulSteals(callers, s, run)
    decreases run
  {
    if run != [] {
      StepDisplaces(callers, s, run[0]);
      RunDisplaces(callers, Step(callers, s, run[0]).value, run[1..]);
    }
  }

  /**
   * In every run, with any crashes and any number of stale steals, the number of
   * live calls between `mkdir` and release is at most one more than the number of
   * steals that took the directory of a live holder.
   */
  lemma {:induction false} OverlapBound(callers: Callers, s: State, run: seq<Action>)
    requires Initial(callers, s)
    requires Exec(callers, s, run).Some?
    ensures |LiveHolders(Exec(callers, s, run).value)| <= 1 + HarmfulSteals(callers, s, run)
  {
    var end := Exec(callers, s, run).value;
    assert LiveHolders(s) == {};
    RunDisplaces(callers, s, run);
    SubsetSize(LiveHolders(end), Displaced(end) + DirectoryCreator(end.dir));
  }
}
