/**
 * How far holders can overlap, for any callers.
 *
 * The lock's comment says that the window only opens after a holder crashed and that
 * its worst case is one overlapping batch.  Neither half holds.  Without any crash, a
 * holder that outlives the stale age can be joined by every other call; and within the
 * stale age, one crash lets in every call of every other process.  In both cases all
 * waiters judge the same lock stale before any of them removes what it finds.
 */
module MachineTestLockOverlap {
  import opened Collections
  import opened MachineTestLock
  import opened MachineTestLockBound

  // ----- runs in pieces ------------------------------------------------------

  /** The run leads from `s` to `end` with that many harmful steals. */
  ghost predicate Leads(callers: Callers, s: State, run: seq<Action>, end: State, harmful: nat) {
    Exec(callers, s, run) == Some(end) && HarmfulSteals(callers, s, run) == harmful
  }

  /** Only calls move. */
  ghost predicate IsCalm(run: seq<Action>) {
    forall a | a in run :: !a.Tick? && !a.Crash? && !a.Respawn?
  }

  /** Only call `c` moves. */
  ghost predicate IsAlone(run: seq<Action>, c: Call) {
    forall a | a in run :: !a.Tick? && !a.Crash? && !a.Respawn? && a.call == c
  }

  lemma {:induction false} Once(callers: Callers, s: State, a: Action, end: State)
    requires Step(callers, s, a) == Some(end)
    ensures Leads(callers, s, [a], end, if HarmfulSteal(callers, s, a) then 1 else 0)
  {
    assert [a][1..] == [];
    assert Exec(callers, end, []) == Some(end);
  }

  lemma {:induction false} Then(callers: Callers, s: State, a: seq<Action>, mid: State, h: nat, b: seq<Action>, end: State, k: nat)
    requires Leads(callers, s, a, mid, h) && Leads(callers, mid, b, end, k)
    ensures Leads(callers, s, a + b, end, h + k)
    decreases a
  {
    if a == [] {
      assert a + b == b;
    } else {
      var next := Step(callers, s, a[0]).value;
      assert (a + b)[1..] == a[1..] + b;
      Then(callers, next, a[1..], mid, h - if HarmfulSteal(callers, s, a[0]) then 1 else 0, b, end, k);
    }
  }

  /** One more harmless action. */
  lemma {:induction false} AndThen(callers: Callers, s: State, run: seq<Action>, mid: State, h: nat, a: Action, end: State)
    requires Leads(callers, s, run, mid, h) && Step(callers, mid, a) == Some(end) && !a.Steal?
    ensures Leads(callers, s, run + [a], end, h)
  {
    Once(callers, mid, a, end);
    Then(callers, s, run, mid, h, [a], end, 0);
  }

  // ----- waiters judge the lock stale -------------------------------------------

  /** What call `c` will find when it reads, stats and judges the directory as it is now. */
  predicate IsStaleFor(callers: Callers, s: State, c: Call)
    requires c in callers
  {
    && s.dir.Present?
    && match s.dir.owner
       case Recorded(pid, acquiredAt) => pid !in s.alive || s.now - acquiredAt > callers[c].staleAfterMs
       case _ => s.now - s.dir.mtime > callers[c].staleAfterMs
  }

  predicate MayJudge(callers: Callers, s: State, c: Call) {
    CanMove(callers, s, c) && s.pcs[c] == TryMkdir && IsStaleFor(callers, s, c)
  }

  lemma {:induction false} AtAgain(s: State, c: Call, pc: Pc, next: Pc)
    ensures At(At(s, c, pc), c, next) == At(s, c, next)
  {
    assert s.pcs[c := pc][c := next] == s.pcs[c := next];
  }

  lemma {:induction false} JudgeOwnerStale(callers: Callers, s: State, c: Call) returns (run: seq<Action>)
    requires MayJudge(callers, s, c) && s.dir.owner.Recorded?
    ensures Leads(callers, s, run, At(s, c, Stealing), 0) && IsCalm(run)
  {
    var owner := s.dir.owner;
    Once(callers, s, Mkdir(c), At(s, c, ReadOwner));
    run := [Mkdir(c)];
    AtAgain(s, c, ReadOwner, JudgeOwner(owner.pid, owner.acquiredAt));
    AndThen(callers, s, run, At(s, c, ReadOwner), 0, ReadMetadata(c), At(s, c, JudgeOwner(owner.pid, owner.acquiredAt)));
    run := run + [ReadMetadata(c)];
    AtAgain(s, c, JudgeOwner(owner.pid, owner.acquiredAt), Stealing);
    AndThen(callers, s, run, At(s, c, JudgeOwner(owner.pid, owner.acquiredAt)), 0, Judge(c), At(s, c, Stealing));
    run := run + [Judge(c)];
  }

  lemma {:induction false} ReadsNoOwner(callers: Callers, s: State, c: Call) returns (run: seq<Action>)
    requires MayJudge(callers, s, c) && !s.dir.owner.Recorded?
    ensures Leads(callers, s, run, At(s, c, StatDirectory), 0) && IsCalm(run)
  {
    Once(callers, s, Mkdir(c), At(s, c, ReadOwner));
    AtAgain(s, c, ReadOwner, StatDirectory);
    AndThen(callers, s, [Mkdir(c)], At(s, c, ReadOwner), 0, ReadMetadata(c), At(s, c, StatDirectory));
    run := [Mkdir(c)] + [ReadMetadata(c)];
  }

  lemma {:induction false} JudgeAgeStale(callers: Callers, s: State, c: Call) returns (run: seq<Action>)
    requires MayJudge(callers, s, c) && !s.dir.owner.Recorded?
    ensures Leads(callers, s, run, At(s, c, Stealing), 0) && IsCalm(run)
  {
    run := ReadsNoOwner(callers, s, c);
    AtAgain(s, c, StatDirectory, JudgeAge(s.dir.mtime));
    AndThen(callers, s, run, At(s, c, StatDirectory), 0, Stat(c), At(s, c, JudgeAge(s.dir.mtime)));
    run := run + [Stat(c)];
    AtAgain(s, c, JudgeAge(s.dir.mtime), Stealing);
    AndThen(callers, s, run, At(s, c, JudgeAge(s.dir.mtime)), 0, Judge(c), At(s, c, Stealing));
    run := run + [Judge(c)];
  }

  /** `s` with all of `calls` at `pc`. */
  function Moved(s: State, calls: set<Call>, pc: Pc): State {
    s.(pcs := map c | c in s.pcs :: if c in calls then pc else s.pcs[c])
  }

  lemma {:induction false} MovedOneByOne(s: State, calls: set<Call>, c: Call, pc: Pc)
    requires c in calls && c in s.pcs
    ensures Moved(At(s, c, pc), calls - {c}, pc).pcs == Moved(s, calls, pc).pcs
  {
  }

  lemma {:induction false} JudgeAll(callers: Callers, s: State, calls: set<Call>) returns (run: seq<Action>)
    requires forall c | c in calls :: MayJudge(callers, s, c)
    ensures Leads(callers, s, run, Moved(s, calls, Stealing), 0) && IsCalm(run)
    decreases |calls|
  {
    if calls == {} {
      run := [];
      assert Moved(s, calls, Stealing).pcs == s.pcs;
    } else {
      var c :| c in calls;
      if s.dir.owner.Recorded? {
        run := JudgeOwnerStale(callers, s, c);
      } else {
        run := JudgeAgeStale(callers, s, c);
      }
      var mid := At(s, c, Stealing);
      assert forall d | d in calls - {c} :: MayJudge(callers, mid, d);
      var rest := JudgeAll(callers, mid, calls - {c});
      MovedOneByOne(s, calls, c, Stealing);
      Then(callers, s, run, mid, 0, rest, Moved(s, calls, Stealing), 0);
      run := run + rest;
    }
  }

  // ----- and each removes what it finds ----------------------------------------

  predicate IsHeld(s: State) {
    DirectoryCreator(s.dir) * LiveHolders(s) != {}
  }

  /** Call `c` has created the directory, is at `pc` and has put `owner` into it, all at one moment. */
  function Filled(s: State, c: Call, pc: Pc, owner: Metadata): State {
    At(s, c, pc).(dir := Present(s.nextInstance, By(c), s.now, owner), nextInstance := s.nextInstance + 1)
  }

  /** Call `c` has created a directory on a free path. */
  function Owned(s: State, c: Call): State {
    Filled(s, c, Created, Missing)
  }

  lemma {:induction false} OwnedIsHeld(s: State, c: Call)
    requires c !in s.crashed
    ensures IsHeld(Owned(s, c))
  {
    assert c in DirectoryCreator(Owned(s, c).dir) * LiveHolders(Owned(s, c));
  }

  lemma {:induction false} TakeOne(callers: Callers, s: State, c: Call)
    requires CanMove(callers, s, c) && s.pcs[c] == Stealing
    ensures Leads(callers, s, [Steal(c)] + [Mkdir(c)], Owned(s, c), if IsHeld(s) then 1 else 0)
  {
    var mid := At(s, c, TryMkdir).(dir := Absent);
    Once(callers, s, Steal(c), mid);
    assert mid.pcs[c := Created] == s.pcs[c := Created];
    AndThen(callers, s, [Steal(c)], mid, if IsHeld(s) then 1 else 0, Mkdir(c), Owned(s, c));
  }

  lemma {:induction false} OthersStillSteal(callers: Callers, s: State, calls: set<Call>, c: Call)
    requires c in calls && forall d | d in calls :: CanMove(callers, s, d) && s.pcs[d] == Stealing
    ensures forall d | d in calls - {c} :: CanMove(callers, Owned(s, c), d) && Owned(s, c).pcs[d] == Stealing
    ensures |calls - {c}| == |calls| - 1
    ensures Moved(Owned(s, c), calls - {c}, Created).pcs == Moved(At(s, c, Created), calls - {c}, Created).pcs
  {
  }

  /** `calls` take the lock one after the other, each from the one before. */
  lemma {:induction false} TakeAll(callers: Callers, s: State, calls: set<Call>, harmful: nat) returns (run: seq<Action>, end: State)
    requires forall c | c in calls :: CanMove(callers, s, c) && s.pcs[c] == Stealing
    requires harmful == if calls == {} then 0 else |calls| - 1 + if IsHeld(s) then 1 else 0
    ensures Leads(callers, s, run, end, harmful) && IsCalm(run)
    ensures end.pcs == Moved(s, calls, Created).pcs && end.crashed == s.crashed
    decreases |calls|
  {
    if calls == {} {
      run, end := [], s;
      assert Moved(s, calls, Created).pcs == s.pcs;
    } else {
      var c :| c in calls;
      var h, mid := if IsHeld(s) then 1 else 0, Owned(s, c);
      TakeOne(callers, s, c);
      OwnedIsHeld(s, c);
      OthersStillSteal(callers, s, calls, c);
      var rest;
      rest, end := TakeAll(callers, mid, calls - {c}, harmful - h);
      MovedOneByOne(s, calls, c, Created);
      Then(callers, s, [Steal(c)] + [Mkdir(c)], mid, h, rest, end, harmful - h);
      run := [Steal(c)] + [Mkdir(c)] + rest;
    }
  }

  lemma {:induction false} CalmSum(a: seq<Action>, b: seq<Action>)
    requires IsCalm(a) && IsCalm(b)
    ensures IsCalm(a + b)
  {
  }

  /** From a lock that looks stale to all of `calls`, all of them get to hold. */
  lemma {:induction false} Rush(callers: Callers, s: State, calls: set<Call>) returns (run: seq<Action>, end: State)
    requires forall c | c in calls :: MayJudge(callers, s, c)
    ensures Leads(callers, s, run, end, if calls == {} then 0 else |calls| - 1 + if IsHeld(s) then 1 else 0)
    ensures IsCalm(run)
    ensures end.pcs == Moved(s, calls, Created).pcs && end.crashed == s.crashed
  {
    var harmful := if calls == {} then 0 else |calls| - 1 + if IsHeld(s) then 1 else 0;
    var mid := Moved(s, calls, Stealing);
    run := JudgeAll(callers, s, calls);
    assert LiveHolders(mid) == LiveHolders(s);
    var rest;
    rest, end := TakeAll(callers, mid, calls, harmful);
    assert Moved(mid, calls, Created).pcs == Moved(s, calls, Created).pcs;
    Then(callers, s, run, mid, 0, rest, end, harmful);
    CalmSum(run, rest);
    run := run + rest;
  }

  // ----- no crash: outliving the stale age -----------------------------------------

  /** A wait after which whatever happened at `since` is stale for every call. */
  lemma {:induction false} LongEnough(callers: Callers, calls: set<Call>, now: int, since: int) returns (ms: nat)
    requires calls <= callers.Keys
    ensures forall c | c in calls :: now + ms - since > callers[c].staleAfterMs
    decreases |calls|
  {
    if calls == {} {
      ms := 0;
    } else {
      var c :| c in calls;
      ms := LongEnough(callers, calls - {c}, now, since);
      var own := callers[c].staleAfterMs - now + since + 1;
      ms := if own > ms then own else ms;
      assert calls == (calls - {c}) + {c};
    }
  }

  /** Nobody crashes and no process id is reused. */
  ghost predicate IsCrashFree(run: seq<Action>) {
    forall a | a in run :: !a.Crash? && !a.Respawn?
  }

  /** From a directory that is there, all of `calls` get to hold after a long enough wait. */
  lemma {:induction false} WaitAndRush(callers: Callers, s: State, calls: set<Call>) returns (run: seq<Action>, end: State)
    requires s.dir.Present? && calls <= callers.Keys
    requires forall c | c in calls :: CanMove(callers, s, c) && s.pcs[c] == TryMkdir
    ensures Leads(callers, s, run, end, if calls == {} then 0 else |calls| - 1 + if IsHeld(s) then 1 else 0)
    ensures IsCrashFree(run)
    ensures end.pcs == Moved(s, calls, Created).pcs && end.crashed == s.crashed
  {
    var since := if s.dir.owner.Recorded? then s.dir.owner.acquiredAt else s.dir.mtime;
    var ms := LongEnough(callers, calls, s.now, since);
    var late := s.(now := s.now + ms);
    Once(callers, s, Tick(ms), late);
    var harmful := if calls == {} then 0 else |calls| - 1 + if IsHeld(late) then 1 else 0;
    assert LiveHolders(late) == LiveHolders(s);
    run, end := Rush(callers, late, calls);
    Then(callers, s, [Tick(ms)], late, 0, run, end, harmful);
    run := [Tick(ms)] + run;
  }

  /** The same on a free path, where the first call creates the directory. */
  lemma {:induction false} TakeWaitAndRush(callers: Callers, s: State, c: Call) returns (run: seq<Action>, end: State)
    requires Initial(callers, s) && s.dir.Absent? && c in callers
    ensures Leads(callers, s, run, end, |callers.Keys| - 1)
    ensures IsCrashFree(run)
    ensures end.pcs == Moved(Owned(s, c), callers.Keys - {c}, Created).pcs && end.crashed == s.crashed
  {
    var mid, others := Owned(s, c), callers.Keys - {c};
    Once(callers, s, Mkdir(c), mid);
    OwnedIsHeld(s, c);
    run, end := WaitAndRush(callers, mid, others);
    assert |others| == |callers.Keys| - 1;
    Then(callers, s, [Mkdir(c)], mid, 0, run, end, |callers.Keys| - 1);
    run := [Mkdir(c)] + run;
  }

  /** Every call holds at once, without any crash; the bound of `OverlapBound` is met exactly. */
  lemma {:induction false} AllHoldAtOnce(callers: Callers, s: State) returns (run: seq<Action>, end: State)
    requires Initial(callers, s) && |callers| > 0
    ensures Leads(callers, s, run, end, |callers| - 1)
    ensures IsCrashFree(run) && LiveHolders(end) == callers.Keys
  {
    assert |callers.Keys| == |callers|;
    if s.dir.Present? {
      run, end := WaitAndRush(callers, s, callers.Keys);
    } else {
      var c :| c in callers.Keys;
      run, end := TakeWaitAndRush(callers, s, c);
    }
    assert forall c | c in callers :: end.pcs[c] == Created;
  }

  lemma {:induction false} CallsStay(callers: Callers, s: State, run: seq<Action>)
    requires Exec(callers, s, run).Some?
    ensures Exec(callers, s, run).value.pcs.Keys == s.pcs.Keys
    decreases run
  {
    if run != [] {
      var next := Step(callers, s, run[0]).value;
      assert next.pcs.Keys == s.pcs.Keys;
      CallsStay(callers, next, run[1..]);
    }
  }

  /**
   * No more than `k` calls ever hold at once, if and only if there are no more than `k`
   * calls; "one overlapping batch" is `k == 2`.
   */
  lemma {:induction false} OverlapExtent(callers: Callers, s: State, k: nat)
    requires Initial(callers, s)
    ensures (forall run | Exec(callers, s, run).Some? :: |LiveHolders(Exec(callers, s, run).value)| <= k)
            <==> |callers| <= k
  {
    if |callers| > k {
      var run := TooManyHold(callers, s, k);
      assert !(|LiveHolders(Exec(callers, s, run).value)| <= k);
    } else {
      forall run | Exec(callers, s, run).Some?
        ensures |LiveHolders(Exec(callers, s, run).value)| <= k
      {
        HoldersAreCallers(callers, s, run);
      }
    }
  }

  lemma {:induction false} TooManyHold(callers: Callers, s: State, k: nat) returns (run: seq<Action>)
    requires Initial(callers, s) && |callers| > k
    ensures Exec(callers, s, run).Some? && |LiveHolders(Exec(callers, s, run).value)| > k
  {
    var end;
    run, end := AllHoldAtOnce(callers, s);
    assert |callers.Keys| == |callers|;
  }

  lemma {:induction false} HoldersAreCallers(callers: Callers, s: State, run: seq<Action>)
    requires Initial(callers, s) && Exec(callers, s, run).Some?
    ensures |LiveHolders(Exec(callers, s, run).value)| <= |callers|
  {
    CallsStay(callers, s, run);
    SubsetSize(LiveHolders(Exec(callers, s, run).value), callers.Keys);
    assert |callers.Keys| == |callers|;
  }

  // ----- within the stale age: one crash ---------------------------------------------

  /** The calls of other processes. */
  function Others(callers: Callers, pid: Pid): set<Call> {
    set c | c in callers && callers[c].pid != pid
  }

  /** The clock stands still and `pid` crashes, but no other process does. */
  ghost predicate IsCrashOf(run: seq<Action>, pid: Pid) {
    Crash(pid) in run && forall a | a in run :: !a.Tick? && !a.Respawn? && (a.Crash? ==> a.pid == pid)
  }

  lemma {:induction false} FilledAgain(s: State, c: Call, pc: Pc, owner: Metadata, next: Pc, more: Metadata)
    ensures At(Filled(s, c, pc, owner), c, next).(dir := Filled(s, c, next, more).dir) == Filled(s, c, next, more)
  {
    assert s.pcs[c := pc][c := next] == s.pcs[c := next];
  }

  lemma {:induction false} Opens(callers: Callers, s: State, c: Call) returns (run: seq<Action>)
    requires CanMove(callers, s, c) && s.pcs[c] == TryMkdir && s.dir.Absent?
    ensures Leads(callers, s, run, Filled(s, c, Stamped(s.now), Missing), 0) && IsAlone(run, c)
  {
    Once(callers, s, Mkdir(c), Filled(s, c, Created, Missing));
    FilledAgain(s, c, Created, Missing, Stamped(s.now), Missing);
    AndThen(callers, s, [Mkdir(c)], Filled(s, c, Created, Missing), 0, Stamp(c), Filled(s, c, Stamped(s.now), Missing));
    run := [Mkdir(c)] + [Stamp(c)];
  }

  lemma {:induction false} OpenStep(callers: Callers, s: State, c: Call)
    requires c in callers && c !in s.crashed
    ensures Step(callers, Filled(s, c, Stamped(s.now), Missing), OpenMetadata(c, true))
            == Some(Filled(s, c, Opened(s.now, s.nextInstance), Unreadable))
  {
    FilledAgain(s, c, Stamped(s.now), Missing, Opened(s.now, s.nextInstance), Unreadable);
  }

  lemma {:induction false} WriteStep(callers: Callers, s: State, c: Call)
    requires c in callers && c !in s.crashed
    ensures Step(callers, Filled(s, c, Opened(s.now, s.nextInstance), Unreadable), WriteMetadata(c, true))
            == Some(Filled(s, c, Running, Recorded(callers[c].pid, s.now)))
  {
    FilledAgain(s, c, Opened(s.now, s.nextInstance), Unreadable, Running, Recorded(callers[c].pid, s.now));
  }

  /** A call takes the free lock and records itself. */
  lemma {:induction false} Records(callers: Callers, s: State, c: Call) returns (run: seq<Action>)
    requires CanMove(callers, s, c) && s.pcs[c] == TryMkdir && s.dir.Absent?
    ensures Leads(callers, s, run, Filled(s, c, Running, Recorded(callers[c].pid, s.now)), 0) && IsAlone(run, c)
  {
    var half := Filled(s, c, Opened(s.now, s.nextInstance), Unreadable);
    run := Opens(callers, s, c);
    OpenStep(callers, s, c);
    AndThen(callers, s, run, Filled(s, c, Stamped(s.now), Missing), 0, OpenMetadata(c, true), half);
    run := run + [OpenMetadata(c, true)];
    WriteStep(callers, s, c);
    AndThen(callers, s, run, half, 0, WriteMetadata(c, true), Filled(s, c, Running, Recorded(callers[c].pid, s.now)));
    run := run + [WriteMetadata(c, true)];
  }

  /** After one crash of a holder every call of every other process holds at once. */
  lemma {:induction false} CrashLetsOthersIn(callers: Callers, s: State, c: Call) returns (run: seq<Action>, end: State)
    requires Initial(callers, s) && s.dir.Absent? && c in callers
    ensures Exec(callers, s, run) == Some(end) && IsCrashOf(run, callers[c].pid)
    ensures LiveHolders(end) == Others(callers, callers[c].pid)
  {
    var pid := callers[c].pid;
    var others, holding := Others(callers, pid), Filled(s, c, Running, Recorded(pid, s.now));
    var dead := holding.(alive := holding.alive - {pid}, crashed := set d | d in callers && callers[d].pid == pid);
    var before := Records(callers, s, c);
    assert holding.crashed + dead.crashed == dead.crashed;
    AndThen(callers, s, before, holding, 0, Crash(pid), dead);
    var rest;
    rest, end := Rush(callers, dead, others);
    Then(callers, s, before + [Crash(pid)], dead, 0, rest, end,
         if others == {} then 0 else |others| - 1 + if IsHeld(dead) then 1 else 0);
    run := before + [Crash(pid)] + rest;
  }

  lemma {:induction false} CrashedStay(callers: Callers, s: State, run: seq<Action>, pid: Pid)
    requires Exec(callers, s, run).Some?
    requires Crash(pid) in run || (forall c | c in callers && callers[c].pid == pid :: c in s.crashed)
    ensures forall c | c in callers && callers[c].pid == pid :: c in Exec(callers, s, run).value.crashed
    decreases run
  {
    if run != [] {
      CrashedStay(callers, Step(callers, s, run[0]).value, run[1..], pid);
    }
  }

  /**
   * When a holder's process crashes and no time passes, no more than `k` calls hold at
   * once afterwards, if and only if no more than `k` calls belong to other processes.
   */
  lemma {:induction false} OverlapAfterCrash(callers: Callers, s: State, c: Call, k: nat)
    requires Initial(callers, s) && s.dir.Absent? && c in callers
    ensures var pid := callers[c].pid;
            (forall run | Exec(callers, s, run).Some? && IsCrashOf(run, pid) ::
               |LiveHolders(Exec(callers, s, run).value)| <= k)
            <==> |Others(callers, pid)| <= k
  {
    var pid := callers[c].pid;
    if |Others(callers, pid)| > k {
      var run, end := CrashLetsOthersIn(callers, s, c);
      assert Exec(callers, s, run).Some? && IsCrashOf(run, pid) && |LiveHolders(Exec(callers, s, run).value)| > k;
    } else {
      forall run | Exec(callers, s, run).Some? && IsCrashOf(run, pid)
        ensures |LiveHolders(Exec(callers, s, run).value)| <= k
      {
        HoldersAreOthers(callers, s, run, pid);
      }
    }
  }

  lemma {:induction false} HoldersAreOthers(callers: Callers, s: State, run: seq<Action>, pid: Pid)
    requires Initial(callers, s) && Exec(callers, s, run).Some? && Crash(pid) in run
    ensures |LiveHolders(Exec(callers, s, run).value)| <= |Others(callers, pid)|
  {
    CallsStay(callers, s, run);
    CrashedStay(callers, s, run, pid);
    SubsetSize(LiveHolders(Exec(callers, s, run).value), Others(callers, pid));
  }
}
