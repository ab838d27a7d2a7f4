/**
 * The machine-wide test lock as a transition system.
 *
 * A *call* is one invocation of `withMachineTestLock`; several calls may share a
 * process id.  Every suspension point of the acquire loop and of the guarded
 * region is one atomic action, so any interleaving of any number of calls, with
 * crashes at any point, is a sequence of actions.  The directory remembers which
 * call created it, independently of what `owner.json` says: a displaced holder can
 * truncate and rewrite the metadata of a directory it does not own.
 */
module MachineTestLock {
  import opened Collections

  type Call = nat
  type Pid = nat

  /** Identity and tuning of one call. */
  datatype Caller = Caller(pid: Pid, staleAfterMs: int)

  type Callers = map<Call, Caller>

  /** What reading `owner.json` yields. */
  datatype Metadata = Missing | Unreadable | Recorded(pid: Pid, acquiredAt: int)

  /** Who made the current directory: a call of this run, or something before it. */
  datatype Creator = Leftover | By(call: Call)

  datatype Directory =
    | Absent
    | Present(instance: nat, creator: Creator, mtime: int, owner: Metadata)

  /** Where a call is suspended. */
  datatype Pc =
    | TryMkdir
    | ReadOwner
    | JudgeOwner(pid: Pid, acquiredAt: int)
    | StatDirectory
    | JudgeAge(mtime: int)
    | Sleeping
    | Stealing
    | Created
    | Stamped(at: int)
    | Opened(at: int, instance: nat)
    | Running
    | Releasing
    | Settled

  /** Between the successful `mkdir` and the release. */
  predicate Holding(pc: Pc) {
    pc.Created? || pc.Stamped? || pc.Opened? || pc.Running? || pc.Releasing?
  }

  datatype State = State(
    now: int,
    alive: set<Pid>,
    crashed: set<Call>,
    dir: Directory,
    nextInstance: nat,
    pcs: map<Call, Pc>)

  datatype Action =
    | Tick(ms: nat)
    | Crash(pid: Pid)
    | Respawn(pid: Pid)              // the operating system reuses a process id
    | Mkdir(call: Call)
    | MkdirFails(call: Call)         // any error other than EEXIST
    | ReadMetadata(call: Call)
    | Stat(call: Call)
    | Judge(call: Call)
    | Wake(call: Call)
    | Steal(call: Call)
    | Stamp(call: Call)
    | OpenMetadata(call: Call, ok: bool)
    | WriteMetadata(call: Call, ok: bool)
    | FinishRun(call: Call)          // the work returned or threw
    | Release(call: Call)

  predicate CanMove(callers: Callers, s: State, c: Call) {
    c in callers && c in s.pcs && c !in s.crashed
  }

  function At(s: State, c: Call, pc: Pc): State {
    s.(pcs := s.pcs[c := pc])
  }

  /** `readOwner` followed by the branch of `isLockStale` that it selects. */
  function AfterRead(dir: Directory): Pc {
    if dir.Present? && dir.owner.Recorded? then JudgeOwner(dir.owner.pid, dir.owner.acquiredAt)
    else StatDirectory
  }

  function AfterJudge(stale: bool): Pc {
    if stale then Stealing else Sleeping
  }

  /** Opening `owner.json` for writing truncates it; creating it touches the directory. */
  function Truncated(dir: Directory, now: int): Directory
    requires dir.Present?
  {
    dir.(owner := Unreadable, mtime := if dir.owner.Missing? then now else dir.mtime)
  }

  function CallStep(callers: Callers, s: State, a: Action): Option<State>
    requires !a.Tick? && !a.Crash? && !a.Respawn?
    requires CanMove(callers, s, a.call)
  {
    var c := a.call;
    match (a, s.pcs[c])
    case (Mkdir(_), TryMkdir) =>
      if s.dir.Present? then Some(At(s, c, ReadOwner))
      else Some(At(s, c, Created).(dir := Present(s.nextInstance, By(c), s.now, Missing),
                                  nextInstance := s.nextInstance + 1))
    case (MkdirFails(_), TryMkdir) => Some(At(s, c, Settled))
    case (ReadMetadata(_), ReadOwner) => Some(At(s, c, AfterRead(s.dir)))
    case (Stat(_), StatDirectory) =>
      Some(At(s, c, if s.dir.Present? then JudgeAge(s.dir.mtime) else Sleeping))
    case (Judge(_), JudgeOwner(pid, acquiredAt)) =>
      Some(At(s, c, AfterJudge(pid !in s.alive || s.now - acquiredAt > callers[c].staleAfterMs)))
    case (Judge(_), JudgeAge(mtime)) =>
      Some(At(s, c, AfterJudge(s.now - mtime > callers[c].staleAfterMs)))
    case (Wake(_), Sleeping) => Some(At(s, c, TryMkdir))
    case (Steal(_), Stealing) => Some(At(s, c, TryMkdir).(dir := Absent))
    case (Stamp(_), Created) => Some(At(s, c, Stamped(s.now)))
    case (OpenMetadata(_, ok), Stamped(at)) =>
      if s.dir.Absent? || !ok then Some(At(s, c, Releasing))
      else Some(At(s, c, Opened(at, s.dir.instance)).(dir := Truncated(s.dir, s.now)))
    case (WriteMetadata(_, ok), Opened(at, instance)) =>
      if !ok then Some(At(s, c, Releasing))
      else if s.dir.Present? && s.dir.instance == instance
      then Some(At(s, c, Running).(dir := s.dir.(owner := Recorded(callers[c].pid, at))))
      else Some(At(s, c, Running))
    case (FinishRun(_), Running) => Some(At(s, c, Releasing))
    case (Release(_), Releasing) => Some(At(s, c, Settled).(dir := Absent))
    case _ => None
  }

  /** One atomic action; `None` when it is not enabled. */
  function Step(callers: Callers, s: State, a: Action): Option<State> {
    match a
    case Tick(ms) => Some(s.(now := s.now + ms))
    case Crash(pid) =>
      Some(s.(alive := s.alive - {pid},
              crashed := s.crashed + set c | c in callers && callers[c].pid == pid))
    case Respawn(pid) => Some(s.(alive := s.alive + {pid}))
    case _ => if CanMove(callers, s, a.call) then CallStep(callers, s, a) else None
  }

  function Exec(callers: Callers, s: State, run: seq<Action>): Option<State>
    decreases run
  {
    if run == [] then Some(s)
    else match Step(callers, s, run[0])
         case None => None
         case Some(next) => Exec(callers, next, run[1..])
  }

  /** Every call is about to start; a directory may be left over from before. */
  ghost predicate Initial(callers: Callers, s: State) {
    && s.pcs == (map c | c in callers :: TryMkdir)
    && s.crashed == {}
    && (s.dir.Present? ==> s.dir.creator == Leftover)
  }

  // ----- overlap -------------------------------------------------------------

  /** Calls that are between `mkdir` and release in a process that still runs. */
  function LiveHolders(s: State): set<Call> {
    set c | c in s.pcs && Holding(s.pcs[c]) && c !in s.crashed
  }

  function DirectoryCreator(dir: Directory): set<Call> {
    if dir.Present? && dir.creator.By? then {dir.creator.call} else {}
  }

  /** Live holders whose own directory is no longer the one on disk. */
  function Displaced(s: State): set<Call> {
    LiveHolders(s) - DirectoryCreator(s.dir)
  }

  /** A steal that removes the directory of a call that is still holding it. */
  predicate HarmfulSteal(callers: Callers, s: State, a: Action) {
    a.Steal? && Step(callers, s, a).Some? && DirectoryCreator(s.dir) * LiveHolders(s) != {}
  }

  function HarmfulSteals(callers: Callers, s: State, run: seq<Action>): nat
    decreases run
  {
    if run == [] || Step(callers, s, run[0]).None? then 0
    else (if HarmfulSteal(callers, s, run[0]) then 1 else 0)
         + HarmfulSteals(callers, Step(callers, s, run[0]).value, run[1..])
  }

  lemma {:induction false} HoldersAt(s: State, c: Call, pc: Pc, dir: Directory, nextInstance: nat)
    requires c in s.pcs && c !in s.crashed
    ensures LiveHolders(At(s, c, pc).(dir := dir, nextInstance := nextInstance))
            == if Holding(pc) then LiveHolders(s) + {c} else LiveHolders(s) - {c}
  {
  }

  /** Only `mkdir` on a free path starts a holder and only release ends one. */
  lemma {:induction false} CallStepHolders(callers: Callers, s: State, a: Action)
    requires !a.Tick? && !a.Crash? && !a.Respawn?
    requires Step(callers, s, a).Some?
    ensures var s' := Step(callers, s, a).value;
            && LiveHolders(s') == (if a.Release? then LiveHolders(s) - {a.call}
                                   else if a.Mkdir? && s.dir.Absent? then LiveHolders(s) + {a.call}
                                   else LiveHolders(s))
            && DirectoryCreator(s'.dir) == (if a.Release? || a.Steal? then {}
                                            else if a.Mkdir? && s.dir.Absent? then {a.call}
                                            else DirectoryCreator(s.dir))
            && (a.call in LiveHolders(s) <==> Holding(s.pcs[a.call]))
  {
    var s' := Step(callers, s, a).value;
    HoldersAt(s, a.call, s'.pcs[a.call], s'.dir, s'.nextInstance);
    assert s' == At(s, a.call, s'.pcs[a.call]).(dir := s'.dir, nextInstance := s'.nextInstance);
  }

  /** A call changes only its own program counter and, through it, the directory. */
  lemma {:induction false} CallStepFrame(callers: Callers, s: State, a: Action)
    requires !a.Tick? && !a.Crash? && !a.Respawn?
    requires Step(callers, s, a).Some?
    ensures var s' := Step(callers, s, a).value;
            && s'.now == s.now && s'.alive == s.alive && s'.crashed == s.crashed
            && a.call in s.pcs && a.call in s'.pcs && s'.pcs == s.pcs[a.call := s'.pcs[a.call]]
            && (s.dir.Present? && !a.Release? && !a.Steal? ==>
                  s'.dir.Present? && s'.dir.instance == s.dir.instance)
            && (a.WriteMetadata? && s'.dir != s.dir ==>
                  s.dir.Present? && s.pcs[a.call] == Opened(s.pcs[a.call].at, s.dir.instance))
  {
  }
}
