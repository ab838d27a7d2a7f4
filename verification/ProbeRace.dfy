/**
 * Subscribe, then probe: waiting for an event that may already have fired.
 *
 * The client registers its listener before it asks for the current state; the server
 * sets the state no later than it emits the event.  Actions of both sides, of the
 * network and of the timer interleave freely.
 */
module ProbeRace {
  import opened Collections

  datatype Client = Idle | Subscribed | Probing | AwaitingEvent | FastPath | SlowPath | TimedOut

  datatype Listener = Unregistered | Listening | Received | Expired | Aborted

  datatype Probe = NotSent | InFlight | Answered(ready: bool) | Lost

  datatype State = State(client: Client, listener: Listener, probe: Probe, ready: bool, emitted: bool)

  const START := State(Idle, Unregistered, NotSent, false, false)

  datatype Action =
    | SetReady           // the server reaches the condition
    | Emit               // and tells whoever listens; it may do so again
    | Subscribe
    | SendProbe
    | Answer             // the server answers with its state at that moment
    | LoseProbe          // the request fails
    | ReceiveProbe
    | Expire             // the listener's timeout
    | Finish             // awaiting the listener's promise returns or throws

  function Step(s: State, a: Action): Option<State> {
    match a
    case SetReady => Some(s.(ready := true))
    case Emit =>
      if !s.ready then None
      else Some(s.(emitted := true, listener := if s.listener.Listening? then Received else s.listener))
    case Subscribe => if s.client.Idle? then Some(s.(client := Subscribed, listener := Listening)) else None
    case SendProbe => if s.client.Subscribed? then Some(s.(client := Probing, probe := InFlight)) else None
    case Answer => if s.probe.InFlight? then Some(s.(probe := Answered(s.ready))) else None
    case LoseProbe => if s.probe.InFlight? then Some(s.(probe := Lost)) else None
    case ReceiveProbe =>
      if !s.client.Probing? || s.probe.InFlight? then None
      else if s.probe == Answered(true) then
        Some(s.(client := FastPath, listener := if s.listener.Listening? then Aborted else s.listener))
      else Some(s.(client := AwaitingEvent))
    case Expire => if s.listener.Listening? then Some(s.(listener := Expired)) else None
    case Finish =>
      if !s.client.AwaitingEvent? then None
      else if s.listener.Received? then Some(s.(client := SlowPath))
      else if s.listener.Expired? then Some(s.(client := TimedOut))
      else None
  }

  function Exec(s: State, run: seq<Action>): Option<State>
    decreases run
  {
    if run == [] then Some(s)
    else match Step(s, run[0])
         case None => None
         case Some(next) => Exec(next, run[1..])
  }

  /** What every interleaving keeps. */
  ghost predicate Sound(s: State) {
    && (s.emitted ==> s.ready)
    && (s.listener.Unregistered? <==> s.client.Idle?)
    && (s.probe.NotSent? <==> s.client.Idle? || s.client.Subscribed?)
    && (s.listener.Received? ==> s.emitted)
    && (s.client.SlowPath? ==> s.listener.Received?)
    && (s.client.TimedOut? ==> s.listener.Expired?)
    && (s.client.FastPath? ==> s.ready && !s.listener.Listening?)
    && (s.client.AwaitingEvent? ==> s.probe == Answered(false) || s.probe == Lost)
    && (s.probe == Answered(true) ==> s.ready)
    // a negative answer was given before the event, and the listener was there already
    && (s.probe == Answered(false) && s.emitted ==> !s.listener.Listening?)
    && (s.listener.Aborted? ==> s.client.FastPath?)
  }

  lemma {:induction false} StepKeepsSound(s: State, a: Action)
    requires Sound(s) && Step(s, a).Some?
    ensures Sound(Step(s, a).value)
  {
  }

  lemma {:induction false} RunIsSound(s: State, run: seq<Action>)
    requires Sound(s) && Exec(s, run).Some?
    ensures Sound(Exec(s, run).value)
    decreases run
  {
    if run != [] {
      StepKeepsSound(s, run[0]);
      RunIsSound(Step(s, run[0]).value, run[1..]);
    }
  }

  /** The client waits on although the event has fired and nothing will wake it but the timeout. */
  predicate IsStranded(s: State) {
    s.client.AwaitingEvent? && s.emitted && s.listener.Listening?
  }

  /** An event before the subscription. */
  predicate FiresEarly(s: State, a: Action) {
    a == Emit && s.listener.Unregistered?
  }

  /** Whether some prefix of the run emitted while nobody listened yet. */
  predicate HasEarlyEvent(s: State, run: seq<Action>)
    decreases run
  {
    run != [] && Step(s, run[0]).Some? && (FiresEarly(s, run[0]) || HasEarlyEvent(Step(s, run[0]).value, run[1..]))
  }

  /** An event that has fired either fired early or reached a registered listener. */
  ghost predicate Remembers(s: State, early: bool) {
    && (early ==> s.emitted)
    && (s.emitted && !early ==> !s.listener.Unregistered? && !s.listener.Listening?)
    && (early && s.probe.Answered? ==> s.probe == Answered(true))
  }

  lemma {:induction false} RunRemembers(s: State, run: seq<Action>, early: bool)
    requires Sound(s) && Remembers(s, early) && Exec(s, run).Some?
    ensures Remembers(Exec(s, run).value, early || HasEarlyEvent(s, run))
    decreases run
  {
    if run != [] {
      StepKeepsSound(s, run[0]);
      RunRemembers(Step(s, run[0]).value, run[1..], early || FiresEarly(s, run[0]));
    }
  }

  /**
   * In every interleaving in which the probe was answered, no wake-up is lost.  If the
   * event fired before the client subscribed, the answer shows the condition; if it fired
   * later, the listener was registered and has received it, unless it had expired before.
   * A client that still waits after the event therefore has its listener settled, and
   * with the event received it finishes on the slow path.
   */
  lemma {:induction false} NoWakeUpIsLost(run: seq<Action>)
    requires Exec(START, run).Some?
    ensures var s := Exec(START, run).value;
            && (HasEarlyEvent(START, run) && s.probe.Answered? ==> s.probe == Answered(true))
            && (s.emitted && !HasEarlyEvent(START, run) ==>
                  s.listener.Received? || s.listener.Expired? || s.client.FastPath?)
            && (s.client.AwaitingEvent? && s.emitted && s.probe.Answered? ==> s.listener.Received? || s.listener.Expired?)
            && (s.client.AwaitingEvent? && s.listener.Received? ==> Step(s, Finish) == Some(s.(client := SlowPath)))
            && (s.client.FastPath? ==> s.ready && !s.listener.Listening?)
            && (s.client.SlowPath? ==> s.ready && s.emitted)
  {
    RunIsSound(START, run);
    RunRemembers(START, run, false);
  }

  /**
   * The client is stranded exactly when the event fired before it subscribed and it waits
   * with a listener that is still registered; its probe was then lost.
   */
  lemma {:induction false} StrandedExactly(run: seq<Action>)
    requires Exec(START, run).Some?
    ensures var s := Exec(START, run).value;
            && (IsStranded(s) <==> HasEarlyEvent(START, run) && s.client.AwaitingEvent? && s.listener.Listening?)
            && (IsStranded(s) ==> s.probe == Lost)
  {
    RunIsSound(START, run);
    RunRemembers(START, run, false);
  }

  /** A lost probe after an early event does strand the client. */
  lemma {:induction false} LostProbeStrands()
    ensures var run := [SetReady, Emit, Subscribe, SendProbe, LoseProbe, ReceiveProbe];
            Exec(START, run).Some? && IsStranded(Exec(START, run).value)
  {
    var s0 := START;
    var s1 := s0.(ready := true);
    var s2 := s1.(emitted := true);
    var s3 := s2.(client := Subscribed, listener := Listening);
    var s4 := s3.(client := Probing, probe := InFlight);
    var s5 := s4.(probe := Lost);
    var s6 := s5.(client := AwaitingEvent);
    var run := [SetReady, Emit, Subscribe, SendProbe, LoseProbe, ReceiveProbe];
    assert run[1..] == [Emit] + run[2..] && run[2..] == [Subscribe] + run[3..] && run[3..] == [SendProbe] + run[4..];
    assert run[4..] == [LoseProbe] + run[5..] && run[5..] == [ReceiveProbe] + run[6..];
    assert Exec(s5, run[5..]) == Some(s6);
    assert Exec(s4, run[4..]) == Some(s6);
    assert Exec(s3, run[3..]) == Some(s6);
    assert Exec(s2, run[2..]) == Some(s6);
    assert Exec(s1, run[1..]) == Some(s6);
  }

  // ----- the client gets there -------------------------------------------------------------

  /** The call has returned or thrown. */
  predicate IsDone(s: State) {
    s.client.FastPath? || s.client.SlowPath? || s.client.TimedOut?
  }

  lemma {:induction false} ExecStep(s: State, a: Action, next: State, more: seq<Action>, end: State)
    requires Step(s, a) == Some(next) && Exec(next, more) == Some(end)
    ensures Exec(s, [a] + more) == Some(end)
  {
    assert ([a] + more)[1..] == more;
  }

  /** If the condition holds when the client starts, an answered probe takes it through the fast path. */
  lemma {:induction false} ReadyTakesFastPath(s: State)
    requires Sound(s) && s.client.Idle? && s.ready
    ensures var end := s.(client := FastPath, listener := Aborted, probe := Answered(true));
            Exec(s, [Subscribe] + ([SendProbe] + ([Answer] + ([ReceiveProbe] + [])))) == Some(end)
  {
    var s1 := s.(client := Subscribed, listener := Listening);
    var s2 := s1.(client := Probing, probe := InFlight);
    var s3 := s2.(probe := Answered(true));
    var end := s3.(client := FastPath, listener := Aborted);
    ExecStep(s3, ReceiveProbe, end, [], end);
    ExecStep(s2, Answer, s3, [ReceiveProbe] + [], end);
    ExecStep(s1, SendProbe, s2, [Answer] + ([ReceiveProbe] + []), end);
    ExecStep(s, Subscribe, s1, [SendProbe] + ([Answer] + ([ReceiveProbe] + [])), end);
  }

  /** If it comes to hold only after the answer, the event takes the waiting client through the slow path. */
  lemma {:induction false} EventTakesSlowPath(s: State)
    requires Sound(s) && s.client.AwaitingEvent? && s.listener.Listening?
    ensures var end := s.(client := SlowPath, listener := Received, ready := true, emitted := true);
            Exec(s, [SetReady] + ([Emit] + ([Finish] + []))) == Some(end)
  {
    var s1 := s.(ready := true);
    var s2 := s1.(emitted := true, listener := Received);
    var end := s2.(client := SlowPath);
    ExecStep(s2, Finish, end, [], end);
    ExecStep(s1, Emit, s2, [Finish] + [], end);
    ExecStep(s, SetReady, s1, [Emit] + ([Finish] + []), end);
  }

  /** From every reachable state the call can end, answered or not, without any event. */
  lemma {:induction false} ClientCanFinish(s: State, answered: bool) returns (run: seq<Action>, end: State)
    requires Sound(s)
    ensures Exec(s, run) == Some(end) && IsDone(end)
    ensures forall a | a in run :: a != SetReady && a != Emit
    decreases match s.client case Idle => 5 case Subscribed => 4 case Probing => 3 case AwaitingEvent => 2 case _ => 0,
              (if s.probe.InFlight? then 1 else 0) + (if s.listener.Listening? then 1 else 0)
  {
    if IsDone(s) {
      run, end := [], s;
    } else {
      var a := match s.client
               case Idle => Subscribe
               case Subscribed => SendProbe
               case Probing => if !s.probe.InFlight? then ReceiveProbe else if answered then Answer else LoseProbe
               case _ => if s.listener.Listening? then Expire else Finish;
      var next := Step(s, a).value;
      StepKeepsSound(s, a);
      var more;
      more, end := ClientCanFinish(next, answered);
      ExecStep(s, a, next, more, end);
      run := [a] + more;
    }
  }
}
