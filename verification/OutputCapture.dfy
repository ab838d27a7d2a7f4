/**
 * The bounded output capture of a spawned process and its waiters.
 *
 * The value-level functions describe one event each; the class is the closure state that
 * the append, timer and exit callbacks update.
 */
module OutputCapture {
  import opened Collections
  import opened Characters

  const MAX_CAPTURED_OUTPUT_LENGTH := 128_000

  /** A substring, or a regular expression given by its test. */
  datatype Matcher = Text(part: string) | Pattern(test: string -> bool)

  /** `outputMatches`. */
  predicate Matches(output: string, m: Matcher) {
    match m
    case Text(part) => Contains(output, part)
    case Pattern(test) => test(output)
  }

  datatype Outcome = Resolved(output: string) | TimedOut(output: string) | Rejected(output: string)

  type Ticket = nat

  datatype Waiter = Waiter(ticket: Ticket, matcher: Matcher)

  datatype Event =
    | Append(text: string)
    | WaitFor(matcher: Matcher)
    | Timeout(ticket: Ticket)      // a timer fires; only armed timers can
    | Exit                         // rejectPending

  /**
   * `armed` holds the running timers, `outcomes` the settled promises; tickets number the
   * calls of `waitFor` in order.
   */
  datatype State = State(
    output: string,
    waiters: seq<Waiter>,
    armed: set<Ticket>,
    outcomes: map<Ticket, Outcome>,
    next: Ticket)

  const START := State("", [], {}, map[], 0)

  function Last(s: string, n: nat): (r: string)
    ensures |r| == if |s| <= n then |s| else n
  {
    if |s| <= n then s else s[|s| - n..]
  }

  /** The waiters that the output does not match, and the outcomes of those it does. */
  function Unmatched(output: string, waiters: seq<Waiter>): seq<Waiter> {
    if waiters == [] then []
    else (if Matches(output, waiters[0].matcher) then [] else [waiters[0]]) + Unmatched(output, waiters[1..])
  }

  function Tickets(waiters: seq<Waiter>): set<Ticket> {
    set i | 0 <= i < |waiters| :: waiters[i].ticket
  }

  /** Tickets of the waiters that the output matches. */
  function Matched(output: string, waiters: seq<Waiter>): set<Ticket> {
    set i | 0 <= i < |waiters| && Matches(output, waiters[i].matcher) :: waiters[i].ticket
  }

  function Without(waiters: seq<Waiter>, t: Ticket): seq<Waiter> {
    if waiters == [] then []
    else (if waiters[0].ticket == t then [] else [waiters[0]]) + Without(waiters[1..], t)
  }

  lemma {:induction false} FilterMembers(output: string, waiters: seq<Waiter>, t: Ticket)
    ensures forall w :: w in Unmatched(output, waiters) <==> w in waiters && !Matches(output, w.matcher)
    ensures forall w :: w in Without(waiters, t) <==> w in waiters && w.ticket != t
  {
    if waiters != [] {
      assert waiters == [waiters[0]] + waiters[1..];
      FilterMembers(output, waiters[1..], t);
    }
  }

  function Settle(outcomes: map<Ticket, Outcome>, tickets: set<Ticket>, outcome: Outcome): map<Ticket, Outcome> {
    outcomes + map t | t in tickets :: outcome
  }

  function Step(s: State, e: Event): State {
    match e
    case Append(text) =>
      var output := Last(s.output + text, MAX_CAPTURED_OUTPUT_LENGTH);
      var matched := Matched(output, s.waiters);
      State(output, Unmatched(output, s.waiters), s.armed - matched, Settle(s.outcomes, matched, Resolved(output)), s.next)
    case WaitFor(m) =>
      if Matches(s.output, m) then s.(outcomes := s.outcomes[s.next := Resolved(s.output)], next := s.next + 1)
      else s.(waiters := s.waiters + [Waiter(s.next, m)], armed := s.armed + {s.next}, next := s.next + 1)
    case Timeout(t) =>
      if t !in s.armed then s
      else s.(waiters := Without(s.waiters, t), armed := s.armed - {t}, outcomes := s.outcomes[t := TimedOut(s.output)])
    case Exit =>
      s.(waiters := [], armed := s.armed - Tickets(s.waiters),
         outcomes := Settle(s.outcomes, Tickets(s.waiters), Rejected(s.output)))
  }

  function Exec(s: State, events: seq<Event>): State
    decreases events
  {
    if events == [] then s else Exec(Step(s, events[0]), events[1..])
  }

  /** Everything appended so far. */
  function History(events: seq<Event>): string {
    if events == [] then ""
    else (if events[0].Append? then events[0].text else "") + History(events[1..])
  }

  /**
   * No pending waiter matches the buffer; a ticket is pending exactly while its timer is
   * armed; and every ticket handed out is either pending or settled, never both.
   */
  ghost predicate Consistent(s: State) {
    && (forall w | w in s.waiters :: !Matches(s.output, w.matcher))
    && (forall i, j | 0 <= i < j < |s.waiters| :: s.waiters[i].ticket != s.waiters[j].ticket)
    && s.armed == Tickets(s.waiters)
    && (forall t: Ticket :: t < s.next <==> t in s.armed || t in s.outcomes)
    && s.armed !! s.outcomes.Keys
  }

  lemma {:induction false} TicketsOf(waiters: seq<Waiter>, t: Ticket)
    ensures t in Tickets(waiters) <==> exists w :: w in waiters && w.ticket == t
  {
    if w :| w in waiters && w.ticket == t {
      var i :| 0 <= i < |waiters| && waiters[i] == w;
      assert waiters[i].ticket == t;
    }
  }

  ghost predicate DistinctTickets(waiters: seq<Waiter>) {
    forall i, j | 0 <= i < j < |waiters| :: waiters[i].ticket != waiters[j].ticket
  }

  lemma {:induction false} FilterKeepsDistinct(output: string, waiters: seq<Waiter>, t: Ticket)
    requires DistinctTickets(waiters)
    ensures DistinctTickets(Unmatched(output, waiters)) && DistinctTickets(Without(waiters, t))
  {
    if waiters != [] {
      FilterKeepsDistinct(output, waiters[1..], t);
      FilterMembers(output, waiters[1..], t);
      forall w | w in waiters[1..]
        ensures w.ticket != waiters[0].ticket
      {
        var i :| 0 <= i < |waiters[1..]| && waiters[1..][i] == w;
        assert waiters[i + 1].ticket != waiters[0].ticket;
      }
    }
  }

  lemma {:induction false} AppendKeepsConsistent(s: State, text: string)
    requires Consistent(s)
    ensures Consistent(Step(s, Append(text)))
  {
    var output := Last(s.output + text, MAX_CAPTURED_OUTPUT_LENGTH);
    var matched, rest := Matched(output, s.waiters), Unmatched(output, s.waiters);
    FilterKeepsDistinct(output, s.waiters, 0);
    FilterMembers(output, s.waiters, 0);
    forall t
      ensures t in Tickets(rest) <==> t in s.armed && t !in matched
    {
      TicketsOf(rest, t);
      TicketsOf(s.waiters, t);
      MatchedOf(output, s.waiters, t);
    }
    assert Tickets(rest) == s.armed - matched;
  }

  lemma {:induction false} MatchedOf(output: string, waiters: seq<Waiter>, t: Ticket)
    requires DistinctTickets(waiters)
    ensures t in Matched(output, waiters) <==> exists w :: w in waiters && w.ticket == t && Matches(output, w.matcher)
    ensures forall v, w | v in waiters && w in waiters && v.ticket == w.ticket :: v == w
  {
    if w :| w in waiters && w.ticket == t && Matches(output, w.matcher) {
      var i :| 0 <= i < |waiters| && waiters[i] == w;
      assert waiters[i].ticket == t;
    }
  }

  lemma {:induction false} TimeoutKeepsConsistent(s: State, t: Ticket)
    requires Consistent(s)
    ensures Consistent(Step(s, Timeout(t)))
  {
    FilterKeepsDistinct(s.output, s.waiters, t);
    FilterMembers(s.output, s.waiters, t);
    forall u
      ensures u in Tickets(Without(s.waiters, t)) <==> u in Tickets(s.waiters) && u != t
    {
      TicketsOf(s.waiters, u);
      TicketsOf(Without(s.waiters, t), u);
    }
    assert Tickets(Without(s.waiters, t)) == s.armed - {t};
  }

  lemma {:induction false} WaitForKeepsConsistent(s: State, m: Matcher)
    requires Consistent(s)
    ensures Consistent(Step(s, WaitFor(m)))
  {
    var more := s.waiters + [Waiter(s.next, m)];
    forall u
      ensures u in Tickets(more) <==> u in Tickets(s.waiters) || u == s.next
    {
      TicketsOf(s.waiters, u);
      TicketsOf(more, u);
      assert Waiter(s.next, m) in more;
    }
    assert Tickets(more) == s.armed + {s.next};
    forall i | 0 <= i < |s.waiters|
      ensures s.waiters[i].ticket < s.next
    {
      assert s.waiters[i].ticket in Tickets(s.waiters);
    }
  }

  lemma {:induction false} StepKeepsConsistent(s: State, e: Event)
    requires Consistent(s)
    ensures Consistent(Step(s, e))
  {
    match e
    case Append(text) => AppendKeepsConsistent(s, text);
    case WaitFor(m) => WaitForKeepsConsistent(s, m);
    case Timeout(t) => TimeoutKeepsConsistent(s, t);
    case Exit =>
  }

  /** A settled ticket keeps its outcome for good. */
  lemma {:induction false} OutcomesStay(s: State, e: Event, t: Ticket)
    requires Consistent(s) && t in s.outcomes
    ensures t in Step(s, e).outcomes && Step(s, e).outcomes[t] == s.outcomes[t]
  {
    if e.Append? {
      var output := Last(s.output + e.text, MAX_CAPTURED_OUTPUT_LENGTH);
      assert Matched(output, s.waiters) <= Tickets(s.waiters);
    }
  }

  lemma {:induction false} LastOfLast(a: string, b: string, n: nat)
    ensures Last(Last(a, n) + b, n) == Last(a + b, n)
  {
    var kept := Last(a, n);
    if |a| > n {
      assert kept + b == (a + b)[|a| - n..];
    }
  }

  lemma {:induction false} ExecBuffer(s: State, events: seq<Event>, before: string)
    requires s.output == Last(before, MAX_CAPTURED_OUTPUT_LENGTH)
    ensures Exec(s, events).output == Last(before + History(events), MAX_CAPTURED_OUTPUT_LENGTH)
    decreases events
  {
    if events == [] {
      assert before + "" == before;
    } else {
      var text := if events[0].Append? then events[0].text else "";
      LastOfLast(before, text, MAX_CAPTURED_OUTPUT_LENGTH);
      assert s.output + "" == s.output && before + "" == before;
      ExecBuffer(Step(s, events[0]), events[1..], before + text);
      assert before + text + History(events[1..]) == before + History(events);
    }
  }

  lemma {:induction false} ExecKeepsConsistent(s: State, events: seq<Event>)
    requires Consistent(s)
    ensures Consistent(Exec(s, events))
    ensures forall t | t in s.outcomes ::
              t in Exec(s, events).outcomes && Exec(s, events).outcomes[t] == s.outcomes[t]
    decreases events
  {
    if events != [] {
      StepKeepsConsistent(s, events[0]);
      ExecKeepsConsistent(Step(s, events[0]), events[1..]);
      forall t | t in s.outcomes
        ensures t in Exec(s, events).outcomes && Exec(s, events).outcomes[t] == s.outcomes[t]
      {
        OutcomesStay(s, events[0], t);
      }
    }
  }

  /**
   * After any events the buffer holds the last 128000 characters of what was appended, no
   * pending waiter matches it, and each ticket is pending with an armed timer or settled.
   */
  lemma {:induction false} RunIsConsistent(events: seq<Event>)
    ensures var all := History(events);
            Exec(START, events).output == if |all| <= 128_000 then all else all[|all| - 128_000..]
    ensures Consistent(Exec(START, events))
  {
    ExecBuffer(START, events, "");
    assert "" + History(events) == History(events);
    ExecKeepsConsistent(START, events);
  }

  // ----- the fate of a waiter --------------------------------------------------------------------------

  /** The event settles the pending waiter. */
  predicate Settles(s: State, e: Event, w: Waiter) {
    match e
    case Append(text) => Matches(Last(s.output + text, MAX_CAPTURED_OUTPUT_LENGTH), w.matcher)
    case WaitFor(_) => false
    case Timeout(t) => t == w.ticket
    case Exit => true
  }

  /** How the event settles it. */
  function Verdict(s: State, e: Event): Outcome {
    match e
    case Append(text) => Resolved(Last(s.output + text, MAX_CAPTURED_OUTPUT_LENGTH))
    case Timeout(_) => TimedOut(s.output)
    case _ => Rejected(s.output)
  }

  lemma {:induction false} StepDecides(s: State, e: Event, w: Waiter)
    requires Consistent(s) && w in s.waiters
    ensures if Settles(s, e, w) then
              w.ticket in Step(s, e).outcomes && Step(s, e).outcomes[w.ticket] == Verdict(s, e)
            else w in Step(s, e).waiters
  {
    TicketsOf(s.waiters, w.ticket);
    FilterMembers(s.output, s.waiters, if e.Timeout? then e.ticket else 0);
    if e.Append? {
      FilterMembers(Last(s.output + e.text, MAX_CAPTURED_OUTPUT_LENGTH), s.waiters, 0);
      MatchedOf(Last(s.output + e.text, MAX_CAPTURED_OUTPUT_LENGTH), s.waiters, w.ticket);
    }
  }

  lemma {:induction false} ExecShifts(s: State, events: seq<Event>, j: nat)
    requires 0 < j <= |events|
    ensures Exec(s, events[..j]) == Exec(Step(s, events[0]), events[1..][..j - 1])
  {
    assert events[..j][1..] == events[1..][..j - 1];
  }

  /** Event `j` concerns the waiter. */
  ghost predicate SettlesAt(s: State, events: seq<Event>, w: Waiter, j: nat)
    requires j < |events|
  {
    Settles(Exec(s, events[..j]), events[j], w)
  }

  lemma {:induction false} SettlesShifts(s: State, events: seq<Event>, w: Waiter, j: nat)
    requires j < |events|
    ensures j == 0 ==> (SettlesAt(s, events, w, j) <==> Settles(s, events[0], w))
    ensures j > 0 ==> (SettlesAt(s, events, w, j) <==> SettlesAt(Step(s, events[0]), events[1..], w, j - 1))
  {
    if j == 0 {
      assert events[..0] == [];
    } else {
      ExecShifts(s, events, j);
    }
  }

  lemma {:induction false} WaiterStays(s: State, events: seq<Event>, w: Waiter)
    requires Consistent(s) && w in s.waiters
    requires forall j: nat | j < |events| :: !SettlesAt(s, events, w, j)
    ensures w in Exec(s, events).waiters
    decreases events
  {
    if events != [] {
      StepKeepsConsistent(s, events[0]);
      SettlesShifts(s, events, w, 0);
      StepDecides(s, events[0], w);
      forall j: nat | j < |events[1..]|
        ensures !SettlesAt(Step(s, events[0]), events[1..], w, j)
      {
        SettlesShifts(s, events, w, j + 1);
      }
      WaiterStays(Step(s, events[0]), events[1..], w);
    }
  }

  /** Event `j` is the first that concerns the waiter. */
  ghost predicate SettlesFirst(s: State, events: seq<Event>, w: Waiter, j: nat)
    requires j < |events|
  {
    SettlesAt(s, events, w, j) && forall i: nat | i < j :: !SettlesAt(s, events, w, i)
  }

  lemma {:induction false} FirstShifts(s: State, events: seq<Event>, w: Waiter, j: nat)
    requires 0 < j < |events| && SettlesFirst(s, events, w, j)
    ensures !Settles(s, events[0], w) && SettlesFirst(Step(s, events[0]), events[1..], w, j - 1)
  {
    SettlesShifts(s, events, w, 0);
    SettlesShifts(s, events, w, j);
    forall i: nat | i < j - 1
      ensures !SettlesAt(Step(s, events[0]), events[1..], w, i)
    {
      SettlesShifts(s, events, w, i + 1);
    }
  }

  lemma {:induction false} WaiterSettles(s: State, events: seq<Event>, w: Waiter, j: nat)
    requires Consistent(s) && w in s.waiters && j < |events| && SettlesFirst(s, events, w, j)
    ensures w.ticket in Exec(s, events).outcomes
    ensures Exec(s, events).outcomes[w.ticket] == Verdict(Exec(s, events[..j]), events[j])
    decreases events
  {
    StepKeepsConsistent(s, events[0]);
    StepDecides(s, events[0], w);
    if j == 0 {
      SettlesShifts(s, events, w, 0);
      assert events[..0] == [];
      ExecKeepsConsistent(Step(s, events[0]), events[1..]);
    } else {
      FirstShifts(s, events, w, j);
      ExecShifts(s, events, j);
      WaiterSettles(Step(s, events[0]), events[1..], w, j - 1);
    }
  }

  /** The first event, if any, that settles the waiter decides its outcome; otherwise it stays pending. */
  lemma {:induction false} WaiterFate(s: State, events: seq<Event>, w: Waiter)
    requires Consistent(s) && w in s.waiters
    ensures (forall j: nat | j < |events| :: !SettlesAt(s, events, w, j)) ==>
              w in Exec(s, events).waiters && w.ticket in Exec(s, events).armed
    ensures forall j: nat | j < |events| && SettlesFirst(s, events, w, j) ::
              && w.ticket in Exec(s, events).outcomes
              && Exec(s, events).outcomes[w.ticket] == Verdict(Exec(s, events[..j]), events[j])
  {
    if forall j: nat | j < |events| :: !SettlesAt(s, events, w, j) {
      WaiterStays(s, events, w);
      ExecKeepsConsistent(s, events);
      TicketsOf(Exec(s, events).waiters, w.ticket);
    }
    forall j: nat | j < |events| && SettlesFirst(s, events, w, j)
      ensures w.ticket in Exec(s, events).outcomes
      ensures Exec(s, events).outcomes[w.ticket] == Verdict(Exec(s, events[..j]), events[j])
    {
      WaiterSettles(s, events, w, j);
    }
  }

  lemma {:induction false} ExecAppend(s: State, a: seq<Event>, b: seq<Event>)
    ensures Exec(s, a + b) == Exec(Exec(s, a), b)
    decreases a
  {
    if a == [] {
      assert a + b == b;
    } else {
      assert (a + b)[1..] == a[1..] + b;
      ExecAppend(Step(s, a[0]), a[1..], b);
    }
  }

  lemma {:induction false} ExecCall(before: seq<Event>, m: Matcher, after: seq<Event>)
    ensures Exec(START, before + [WaitFor(m)] + after) == Exec(Step(Exec(START, before), WaitFor(m)), after)
  {
    ExecAppend(START, before + [WaitFor(m)], after);
    ExecAppend(START, before, [WaitFor(m)]);
    assert [WaitFor(m)][1..] == [];
    assert Exec(Exec(START, before), [WaitFor(m)]) == Step(Exec(START, before), WaitFor(m));
  }

  /** The buffer when `waitFor` is called. */
  function BufferAt(before: seq<Event>): string {
    Last(History(before), MAX_CAPTURED_OUTPUT_LENGTH)
  }

  /** A call whose buffer matches resolves at once, and nothing later changes that. */
  lemma {:induction false} CallResolves(before: seq<Event>, m: Matcher, after: seq<Event>)
    requires Matches(BufferAt(before), m)
    ensures var ticket, end := Exec(START, before).next, Exec(START, before + [WaitFor(m)] + after);
            ticket in end.outcomes && end.outcomes[ticket] == Resolved(BufferAt(before))
  {
    var s := Exec(START, before);
    RunIsConsistent(before);
    StepKeepsConsistent(s, WaitFor(m));
    ExecCall(before, m, after);
    ExecKeepsConsistent(Step(s, WaitFor(m)), after);
  }

  /** A call whose buffer does not match waits with its own matcher. */
  lemma {:induction false} CallQueues(before: seq<Event>, m: Matcher)
    requires !Matches(BufferAt(before), m)
    ensures var s := Exec(START, before);
            Consistent(Step(s, WaitFor(m))) && Waiter(s.next, m) in Step(s, WaitFor(m)).waiters
  {
    var s := Exec(START, before);
    RunIsConsistent(before);
    StepKeepsConsistent(s, WaitFor(m));
    assert Step(s, WaitFor(m)).waiters == s.waiters + [Waiter(s.next, m)];
  }

  /**
   * What becomes of one call of `waitFor`, anywhere in any run.  If the buffer matches at
   * the call, it resolves with that buffer for good.  Otherwise its own matcher waits: the
   * first later event that concerns it decides, and without one it stays pending.
   */
  lemma {:induction false} CallFate(before: seq<Event>, m: Matcher, after: seq<Event>)
    ensures var ticket, end := Exec(START, before).next, Exec(START, before + [WaitFor(m)] + after);
            Matches(BufferAt(before), m) ==> ticket in end.outcomes && end.outcomes[ticket] == Resolved(BufferAt(before))
    ensures var ticket, end := Exec(START, before).next, Exec(START, before + [WaitFor(m)] + after);
            var called := Step(Exec(START, before), WaitFor(m));
            !Matches(BufferAt(before), m) ==>
              && ((forall j: nat | j < |after| :: !SettlesAt(called, after, Waiter(ticket, m), j)) ==> ticket in end.armed)
              && (forall j: nat | j < |after| && SettlesFirst(called, after, Waiter(ticket, m), j) ::
                    && ticket in end.outcomes
                    && end.outcomes[ticket] == Verdict(Exec(called, after[..j]), after[j]))
  {
    if Matches(BufferAt(before), m) {
      CallResolves(before, m, after);
    } else {
      var s := Exec(START, before);
      CallQueues(before, m);
      ExecCall(before, m, after);
      WaiterFate(Step(s, WaitFor(m)), after, Waiter(s.next, m));
    }
  }

  lemma {:induction false} UnmatchedAppend(output: string, a: seq<Waiter>, b: seq<Waiter>)
    ensures Unmatched(output, a + b) == Unmatched(output, a) + Unmatched(output, b)
  {
    if a == [] {
      assert a + b == b;
    } else {
      assert (a + b)[1..] == a[1..] + b;
      UnmatchedAppend(output, a[1..], b);
    }
  }

  lemma {:induction false} TicketsSnoc(front: seq<Waiter>, w: Waiter)
    ensures Tickets(front + [w]) == Tickets(front) + {w.ticket}
  {
    var all := front + [w];
    forall t | t in Tickets(front) + {w.ticket}
      ensures t in Tickets(all)
    {
      if t in Tickets(front) {
        var i :| 0 <= i < |front| && front[i].ticket == t;
        assert all[i].ticket == t;
      } else {
        assert all[|front|].ticket == t;
      }
    }
  }

  lemma {:induction false} MatchedSnoc(output: string, front: seq<Waiter>, w: Waiter)
    ensures Matched(output, front + [w])
            == Matched(output, front) + if Matches(output, w.matcher) then {w.ticket} else {}
  {
    var all := front + [w];
    var more := Matched(output, front) + if Matches(output, w.matcher) then {w.ticket} else {};
    forall t | t in more
      ensures t in Matched(output, all)
    {
      if t in Matched(output, front) {
        var i :| 0 <= i < |front| && Matches(output, front[i].matcher) && front[i].ticket == t;
        assert all[i] == front[i];
      } else {
        assert all[|front|] == w;
      }
    }
    forall t | t in Matched(output, all)
      ensures t in more
    {
      var i :| 0 <= i < |all| && Matches(output, all[i].matcher) && all[i].ticket == t;
      if i < |front| {
        assert all[i] == front[i];
      }
    }
  }

  lemma {:induction false} UnmatchedSnoc(output: string, front: seq<Waiter>, w: Waiter)
    ensures Unmatched(output, front + [w])
            == Unmatched(output, front) + if Matches(output, w.matcher) then [] else [w]
  {
    UnmatchedAppend(output, front, [w]);
    assert Unmatched(output, [w]) == (if Matches(output, w.matcher) then [] else [w]) + Unmatched(output, []);
  }

  lemma {:induction false} SettleSnoc(outcomes: map<Ticket, Outcome>, tickets: set<Ticket>, t: Ticket, o: Outcome)
    ensures Settle(outcomes, tickets + {t}, o) == Settle(outcomes, tickets, o)[t := o]
  {
  }

  lemma {:induction false} WithoutAppend(a: seq<Waiter>, b: seq<Waiter>, t: Ticket)
    ensures Without(a + b, t) == Without(a, t) + Without(b, t)
  {
    if a == [] {
      assert a + b == b;
    } else {
      assert (a + b)[1..] == a[1..] + b;
      WithoutAppend(a[1..], b, t);
    }
  }

  lemma {:induction false} WithoutAbsent(waiters: seq<Waiter>, t: Ticket)
    requires forall w | w in waiters :: w.ticket != t
    ensures Without(waiters, t) == waiters
  {
    if waiters != [] {
      assert waiters[0] in waiters;
      WithoutAbsent(waiters[1..], t);
    }
  }

  lemma {:induction false} WithoutHead(w: Waiter, back: seq<Waiter>)
    requires forall v | v in back :: v.ticket != w.ticket
    ensures Without([w] + back, w.ticket) == back
  {
    var all := [w] + back;
    assert all[1..] == back && all[0] == w;
    WithoutAbsent(back, w.ticket);
    assert Without(all, w.ticket) == [] + Without(all[1..], w.ticket);
  }

  lemma {:induction false} WithoutMiddle(front: seq<Waiter>, w: Waiter, back: seq<Waiter>)
    requires forall v | v in front :: v.ticket != w.ticket
    requires forall v | v in back :: v.ticket != w.ticket
    ensures Without(front + ([w] + back), w.ticket) == front + back
  {
    WithoutAbsent(front, w.ticket);
    WithoutHead(w, back);
    WithoutAppend(front, [w] + back, w.ticket);
  }

  lemma {:induction false} OthersDiffer(copy: seq<Waiter>, i: nat, w: Waiter)
    requires i < |copy| && DistinctTickets(copy)
    requires w in copy[..i] || w in copy[i + 1..]
    ensures w.ticket != copy[i].ticket
  {
    if w in copy[..i] {
      var k :| 0 <= k < i && copy[..i][k] == w;
      assert copy[k].ticket != copy[i].ticket;
    } else {
      var k :| 0 <= k < |copy[i + 1..]| && copy[i + 1..][k] == w;
      assert copy[i + 1 + k].ticket != copy[i].ticket;
    }
  }

  /** Removing the waiter at `i` of the copy removes the first of those not yet walked. */
  lemma {:induction false} RemoveFirst(output: string, copy: seq<Waiter>, i: nat)
    requires i < |copy| && DistinctTickets(copy)
    ensures Without(Unmatched(output, copy[..i]) + copy[i..], copy[i].ticket)
            == Unmatched(output, copy[..i]) + copy[i + 1..]
  {
    var front, back := Unmatched(output, copy[..i]), copy[i + 1..];
    FilterMembers(output, copy[..i], 0);
    forall w | w in front || w in back
      ensures w.ticket != copy[i].ticket
    {
      OthersDiffer(copy, i, w);
    }
    assert copy[i..] == [copy[i]] + back;
    WithoutMiddle(front, copy[i], back);
  }

  /** The state in the middle of `append`, when the first `i` waiters of the copy have been walked. */
  ghost predicate Walked(before: State, output: string, i: nat, now: State) {
    && i <= |before.waiters|
    && now.output == output && now.next == before.next
    && now.waiters == Unmatched(output, before.waiters[..i]) + before.waiters[i..]
    && now.armed == before.armed - Matched(output, before.waiters[..i])
    && now.outcomes == Settle(before.outcomes, Matched(output, before.waiters[..i]), Resolved(output))
  }

  lemma {:induction false} WalkStarts(before: State, output: string)
    ensures Walked(before, output, 0, before.(output := output))
  {
    assert before.waiters[..0] == [] && before.waiters[0..] == before.waiters;
    assert Matched(output, []) == {};
    assert Settle(before.outcomes, {}, Resolved(output)) == before.outcomes;
  }

  lemma {:induction false} WalkEnds(before: State, text: string, now: State)
    requires Walked(before, Last(before.output + text, MAX_CAPTURED_OUTPUT_LENGTH), |before.waiters|, now)
    ensures now == Step(before, Append(text))
  {
    assert before.waiters[..|before.waiters|] == before.waiters && before.waiters[|before.waiters|..] == [];
  }

  lemma {:induction false} WalkMatched(before: State, output: string, i: nat, now: State)
    requires Walked(before, output, i, now) && i < |before.waiters| && DistinctTickets(before.waiters)
    requires Matches(output, before.waiters[i].matcher)
    ensures var t := before.waiters[i].ticket;
            Walked(before, output, i + 1,
                   now.(waiters := Without(now.waiters, t), armed := now.armed - {t},
                        outcomes := now.outcomes[t := Resolved(output)]))
  {
    var front, w := before.waiters[..i], before.waiters[i];
    assert before.waiters[..i + 1] == front + [w];
    UnmatchedSnoc(output, front, w);
    MatchedSnoc(output, front, w);
    RemoveFirst(output, before.waiters, i);
    SettleSnoc(before.outcomes, Matched(output, front), w.ticket, Resolved(output));
  }

  lemma {:induction false} UnmatchedStays(output: string, waiters: seq<Waiter>, i: nat)
    requires i < |waiters| && !Matches(output, waiters[i].matcher)
    ensures Unmatched(output, waiters[..i + 1]) + waiters[i + 1..] == Unmatched(output, waiters[..i]) + waiters[i..]
  {
    var front, w := waiters[..i], waiters[i];
    assert waiters[..i + 1] == front + [w];
    UnmatchedSnoc(output, front, w);
    SplitAt(waiters, i);
    ConcatAssoc(Unmatched(output, front), [w], waiters[i + 1..]);
  }

  lemma {:induction false} MatchedStays(output: string, waiters: seq<Waiter>, i: nat)
    requires i < |waiters| && !Matches(output, waiters[i].matcher)
    ensures Matched(output, waiters[..i + 1]) == Matched(output, waiters[..i])
  {
    assert waiters[..i + 1] == waiters[..i] + [waiters[i]];
    MatchedSnoc(output, waiters[..i], waiters[i]);
  }

  lemma {:induction false} WalkUnmatched(before: State, output: string, i: nat, now: State)
    requires Walked(before, output, i, now) && i < |before.waiters|
    requires !Matches(output, before.waiters[i].matcher)
    ensures Walked(before, output, i + 1, now)
  {
    UnmatchedStays(output, before.waiters, i);
    MatchedStays(output, before.waiters, i);
  }

  // ----- the closure state ------------------------------------------------------------------------------

  class Capture {
    var output: string
    var waiters: seq<Waiter>
    var armed: set<Ticket>
    var outcomes: map<Ticket, Outcome>
    var next: Ticket

    ghost function View(): State
      reads this
    {
      State(output, waiters, armed, outcomes, next)
    }

    constructor ()
      ensures View() == START && Consistent(View())
    {
      output, waiters, armed, outcomes, next := "", [], {}, map[], 0;
    }

    method Resolve(ticket: Ticket)
      modifies this
      ensures View() == old(View()).(waiters := Without(old(waiters), ticket), armed := old(armed) - {ticket},
                                     outcomes := old(outcomes)[ticket := Resolved(old(output))])
    {
      armed := armed - {ticket};
      waiters := Without(waiters, ticket);
      outcomes := outcomes[ticket := Resolved(output)];
    }

    /** `append`: the waiters are walked on a copy, and the matching ones settled one by one. */
    method AppendChunk(text: string)
      requires Consistent(View())
      modifies this
      ensures View() == Step(old(View()), Append(text)) && Consistent(View())
    {
      ghost var before := View();
      AppendKeepsConsistent(before, text);
      var bounded := Last(output + text, MAX_CAPTURED_OUTPUT_LENGTH);
      output := bounded;
      var copy := waiters;
      WalkStarts(before, bounded);
      for i := 0 to |copy|
        invariant copy == before.waiters && Walked(before, bounded, i, View())
      {
        var waiter := copy[i];
        if Matches(output, waiter.matcher) {
          WalkMatched(before, bounded, i, View());
          Resolve(waiter.ticket);
        } else {
          WalkUnmatched(before, bounded, i, View());
        }
      }
      WalkEnds(before, text, View());
    }

    /** `waitFor`: resolved at once, or queued with a timer. */
    method WaitForOutput(m: Matcher) returns (ticket: Ticket)
      requires Consistent(View())
      modifies this
      ensures View() == Step(old(View()), WaitFor(m)) && Consistent(View())
      ensures ticket == old(next) && (ticket in outcomes || ticket in armed)
    {
      WaitForKeepsConsistent(View(), m);
      ticket := next;
      next := next + 1;
      if Matches(output, m) {
        outcomes := outcomes[ticket := Resolved(output)];
      } else {
        armed := armed + {ticket};
        waiters := waiters + [Waiter(ticket, m)];
      }
    }

    /** The timer callback of a waiter; a cleared timer never fires. */
    method FireTimer(ticket: Ticket)
      requires Consistent(View()) && ticket in armed
      modifies this
      ensures View() == Step(old(View()), Timeout(ticket)) && Consistent(View())
    {
      TimeoutKeepsConsistent(View(), ticket);
      waiters := Without(waiters, ticket);
      armed := armed - {ticket};
      outcomes := outcomes[ticket := TimedOut(output)];
    }

    /** `rejectPending`. */
    method RejectPending()
      requires Consistent(View())
      modifies this
      ensures View() == Step(old(View()), Exit) && Consistent(View())
    {
      ghost var before := View();
      var pending := waiters;
      waiters := [];
      for i := 0 to |pending|
        invariant pending == before.waiters && waiters == [] && output == before.output && next == before.next
        invariant armed == before.armed - Tickets(pending[..i])
        invariant outcomes == Settle(before.outcomes, Tickets(pending[..i]), Rejected(output))
      {
        assert pending[..i + 1] == pending[..i] + [pending[i]];
        TicketsSnoc(pending[..i], pending[i]);
        SettleSnoc(before.outcomes, Tickets(pending[..i]), pending[i].ticket, Rejected(output));
        armed := armed - {pending[i].ticket};
        outcomes := outcomes[pending[i].ticket := Rejected(output)];
      }
      assert pending[..|pending|] == pending;
      StepKeepsConsistent(before, Exit);
    }
  }
}
