/**
  The browser client's handling of a 401: the first one starts a token refresh,
  the others queue behind it, and the refresh's outcome settles the queue.

  Between two awaits the interceptor runs without interruption, so each event
  below is one step; events come in any order.
*/
module TokenRefresh {
  /** Who waits in the queue: a request, or the refresh call itself. */
  datatype Waiter = Request(id: nat) | RefreshCall(round: nat)

  datatype Verdict = Token(token: string) | Failure(error: string)

  /** A waiter in the queue, with the refresh round it joined. */
  datatype Queued = Queued(waiter: Waiter, round: nat)

  datatype Settled = Settled(entry: Queued, verdict: Verdict)

  /** rounds counts refresh calls started, verdicts their outcomes so far; settled
      and ended are history. */
  datatype State = State(isRefreshing: bool, failedQueue: seq<Queued>, rounds: nat,
                         settled: seq<Settled>, ended: map<nat, Verdict>, swallowed: bool)

  datatype Step =
    | Unauthorized(id: nat)             // a request other than the refresh gets a 401, first time
    | RefreshSucceeds(token: string)
    | RefreshFails(error: string)       // any failure but a 401
    | RefreshUnauthorized               // the refresh call itself gets a 401

  /** The refresh call is out, and its answer has not come. */
  predicate InFlight(s: State) {
    s.isRefreshing && !s.swallowed
  }

  predicate Can(s: State, step: Step) {
    match step
    case Unauthorized(_) => true
    case _ => InFlight(s)
  }

  function SettleAll(queue: seq<Queued>, v: Verdict): (r: seq<Settled>)
    ensures |r| == |queue| && forall i | 0 <= i < |queue| :: r[i] == Settled(queue[i], v)
  {
    seq(|queue|, i requires 0 <= i < |queue| => Settled(queue[i], v))
  }

  function Finish(s: State, v: Verdict): State {
    State(false, [], s.rounds, s.settled + SettleAll(s.failedQueue, v), s.ended[s.rounds := v], false)
  }

  function Do(s: State, step: Step): State {
    match step
    case Unauthorized(id) =>
      if s.isRefreshing then s.(failedQueue := s.failedQueue + [Queued(Request(id), s.rounds)])
      else s.(isRefreshing := true, rounds := s.rounds + 1)
    case RefreshSucceeds(t) => Finish(s, Token(t))
    case RefreshFails(e) => Finish(s, Failure(e))
    case RefreshUnauthorized =>
      // the interceptor sees isRefreshing and queues the call behind itself
      s.(failedQueue := s.failedQueue + [Queued(RefreshCall(s.rounds), s.rounds)], swallowed := true)
  }

  function Start(): State {
    State(false, [], 0, [], map[], false)
  }

  predicate Leads(s: State, steps: seq<Step>, end: State)
    decreases |steps|
  {
    if steps == [] then s == end else Can(s, steps[0]) && Leads(Do(s, steps[0]), steps[1..], end)
  }

  // ---------------------------------------------------- the interceptor itself

  class ApiClient {
    var isRefreshing: bool
    var failedQueue: seq<Queued>
    var settled: seq<Settled>
    var rounds: nat
    ghost var ended: map<nat, Verdict>
    ghost var swallowed: bool

    ghost function View(): State
      reads this
    {
      State(isRefreshing, failedQueue, rounds, settled, ended, swallowed)
    }

    constructor ()
      ensures View() == Start()
    {
      isRefreshing, failedQueue, settled, rounds := false, [], [], 0;
      ended, swallowed := map[], false;
    }

    method ProcessQueue(v: Verdict)
      modifies this`failedQueue, this`settled
      ensures failedQueue == [] && settled == old(settled) + SettleAll(old(failedQueue), v)
    {
      for i := 0 to |failedQueue|
        invariant failedQueue == old(failedQueue)
        invariant settled == old(settled) + SettleAll(failedQueue[..i], v)
      {
        settled := settled + [Settled(failedQueue[i], v)];
        assert SettleAll(failedQueue[..i + 1], v) == SettleAll(failedQueue[..i], v) + [Settled(failedQueue[i], v)];
      }
      assert failedQueue[..|failedQueue|] == failedQueue;
      failedQueue := [];
    }

    /** A 401: queue behind the refresh that is out, or start one. */
    method OnUnauthorized(waiter: Waiter) returns (started: bool)
      modifies this
      ensures waiter.Request? ==> View() == Do(old(View()), Unauthorized(waiter.id))
      ensures waiter == RefreshCall(old(rounds)) && old(isRefreshing) ==> View() == Do(old(View()), RefreshUnauthorized)
      ensures started == !old(isRefreshing)
    {
      if isRefreshing {
        failedQueue := failedQueue + [Queued(waiter, rounds)];
        if waiter.RefreshCall? { swallowed := true; }
        return false;
      }
      isRefreshing := true;
      rounds := rounds + 1;
      return true;
    }

    /** The refresh call came back, either way; the flag drops in the end. */
    method OnRefreshed(v: Verdict)
      requires InFlight(View())
      modifies this
      ensures View() == Finish(old(View()), v)
      ensures v.Token? ==> View() == Do(old(View()), RefreshSucceeds(v.token))
      ensures v.Failure? ==> View() == Do(old(View()), RefreshFails(v.error))
      ensures !isRefreshing && failedQueue == [] && |settled| == |old(settled)| + |old(failedQueue)|
      ensures forall i | 0 <= i < |old(failedQueue)| ::
                settled[|old(settled)| + i] == Settled(old(failedQueue)[i], v)
    {
      ProcessQueue(v);
      ended := ended[rounds := v];
      isRefreshing := false;
    }
  }

  // ------------------------------------------------------------------ safety

  /** Everyone who waits, waits for the round that is out; everyone settled got
      the outcome of the round they joined. */
  ghost predicate Inv(s: State) {
    && (!s.isRefreshing ==> s.failedQueue == [] && !s.swallowed)
    && (s.isRefreshing ==> s.rounds > 0)
    && (forall r: nat :: r in s.ended <==> 1 <= r <= s.rounds - (if s.isRefreshing then 1 else 0))
    && (forall q <- s.failedQueue :: q.round == s.rounds)
    && (forall e <- s.settled :: e.entry.round in s.ended && e.verdict == s.ended[e.entry.round])
    && (s.swallowed <==> exists q <- s.failedQueue :: q.waiter.RefreshCall?)
    && (forall e <- s.settled :: e.entry.waiter.Request?)
  }

  lemma StepKeepsInv(s: State, step: Step)
    requires Inv(s) && Can(s, step)
    ensures Inv(Do(s, step))
  {
    match step {
      case RefreshSucceeds(t) => FinishKeepsInv(s, Token(t));
      case RefreshFails(e) => FinishKeepsInv(s, Failure(e));
      case RefreshUnauthorized =>
        assert Queued(RefreshCall(s.rounds), s.rounds) in Do(s, step).failedQueue;
      case Unauthorized(id) =>
        if s.isRefreshing {
          assert forall q <- s.failedQueue :: q in Do(s, step).failedQueue;
        }
    }
  }

  lemma FinishKeepsInv(s: State, v: Verdict)
    requires Inv(s) && InFlight(s)
    ensures Inv(Finish(s, v))
  {
    var t := Finish(s, v);
    forall e <- t.settled ensures e.entry.round in t.ended && e.verdict == t.ended[e.entry.round]
        && e.entry.waiter.Request? {
      if e !in s.settled {
        var i :| 0 <= i < |s.failedQueue| && SettleAll(s.failedQueue, v)[i] == e;
        assert e.entry == s.failedQueue[i] && s.failedQueue[i] in s.failedQueue;
      }
    }
  }

  lemma {:induction false} RunKeepsInv(s: State, steps: seq<Step>, end: State)
    requires Inv(s) && Leads(s, steps, end)
    ensures Inv(end)
    decreases |steps|
  {
    if steps != [] {
      StepKeepsInv(s, steps[0]);
      RunKeepsInv(Do(s, steps[0]), steps[1..], end);
    }
  }

  /** The waiters that ever joined: settled ones, then those still queued. */
  function Joined(s: State): seq<Queued> {
    Entries(s.settled) + s.failedQueue
  }

  function Entries(settled: seq<Settled>): (r: seq<Queued>)
    ensures |r| == |settled| && forall i | 0 <= i < |settled| :: r[i] == settled[i].entry
  {
    seq(|settled|, i requires 0 <= i < |settled| => settled[i].entry)
  }

  /** The waiters a run of steps makes join, in order. */
  function Joining(s: State, steps: seq<Step>): seq<Queued>
    decreases |steps|
  {
    if steps == [] then []
    else
      (match steps[0]
       case Unauthorized(id) => if s.isRefreshing then [Queued(Request(id), s.rounds)] else []
       case RefreshUnauthorized => [Queued(RefreshCall(s.rounds), s.rounds)]
       case _ => [])
      + Joining(Do(s, steps[0]), steps[1..])
  }

  lemma StepJoins(s: State, step: Step)
    ensures Joined(Do(s, step)) == Joined(s) + Joining(s, [step])
  {
    var t := Do(s, step);
    assert Joining(t, [step][1..]) == [];
    match step {
      case RefreshSucceeds(tok) => EntriesAppend(s.settled, s.failedQueue, Token(tok));
      case RefreshFails(e) => EntriesAppend(s.settled, s.failedQueue, Failure(e));
      case Unauthorized(id) =>
      case RefreshUnauthorized =>
    }
  }

  lemma EntriesAppend(settled: seq<Settled>, queue: seq<Queued>, v: Verdict)
    ensures Entries(settled + SettleAll(queue, v)) == Entries(settled) + queue
  {
  }

  lemma {:induction false} RunJoins(s: State, steps: seq<Step>, end: State)
    requires Leads(s, steps, end)
    ensures Joined(end) == Joined(s) + Joining(s, steps)
    decreases |steps|
  {
    if steps != [] {
      var next := Do(s, steps[0]);
      StepJoins(s, steps[0]);
      RunJoins(next, steps[1..], end);
      assert Joining(s, steps) == Joining(s, [steps[0]]) + Joining(next, steps[1..]) by {
        assert Joining(next, [steps[0]][1..]) == [];
      }
      assert Joined(end) == (Joined(s) + Joining(s, [steps[0]])) + Joining(next, steps[1..]);
    }
  }

  /** Single flight, over every run: at most one refresh is unanswered; nobody
      waits unless one is; the waiters are settled exactly once each, in the order
      they joined, with the outcome of the refresh they joined. */
  lemma SingleFlight(steps: seq<Step>, end: State)
    requires Leads(Start(), steps, end)
    ensures |end.ended| <= end.rounds <= |end.ended| + 1
    ensures end.rounds == |end.ended| + 1 <==> end.isRefreshing
    ensures !end.isRefreshing ==> end.failedQueue == []
    ensures Entries(end.settled) + end.failedQueue == Joining(Start(), steps)
    ensures forall e <- end.settled :: e.entry.round in end.ended && e.verdict == end.ended[e.entry.round]
  {
    RunKeepsInv(Start(), steps, end);
    RunJoins(Start(), steps, end);
    assert Joined(Start()) == [];
    var done := end.rounds - (if end.isRefreshing then 1 else 0);
    CountRounds(end.ended, done);
  }

  lemma {:induction false} CountRounds(ended: map<nat, Verdict>, n: nat)
    requires forall r: nat :: r in ended <==> 1 <= r <= n
    ensures |ended| == n
  {
    if n == 0 {
      assert ended == map[];
    } else {
      var rest := ended - {n};
      assert ended.Keys == rest.Keys + {n};
      assert |ended| == |ended.Keys| && |rest| == |rest.Keys|;
      CountRounds(rest, n - 1);
    }
  }

  // ------------------------------------------------ which outcome they get

  /** What the refresh calls of a run came back with, in order. */
  function Outcomes(steps: seq<Step>): seq<Verdict> {
    if steps == [] then []
    else
      (match steps[0]
       case RefreshSucceeds(token) => [Token(token)]
       case RefreshFails(error) => [Failure(error)]
       case Unauthorized(_) => []
       case RefreshUnauthorized => [])
      + Outcomes(steps[1..])
  }

  /** The outcomes so far are these, round by round. */
  ghost predicate Answered(s: State, outcomes: seq<Verdict>) {
    && |outcomes| == s.rounds - (if s.isRefreshing then 1 else 0)
    && forall e <- s.settled :: 1 <= e.entry.round <= |outcomes| && e.verdict == outcomes[e.entry.round - 1]
  }

  lemma StepAnswers(s: State, step: Step, outcomes: seq<Verdict>)
    requires Inv(s) && Can(s, step) && Answered(s, outcomes)
    ensures Answered(Do(s, step), outcomes + Outcomes([step]))
  {
    assert Outcomes([step][1..]) == [];
    if step.RefreshSucceeds? || step.RefreshFails? {
      var v := if step.RefreshSucceeds? then Token(step.token) else Failure(step.error);
      assert Outcomes([step]) == [v];
      var next := Do(s, step);
      forall e <- next.settled ensures e in s.settled || (e.entry.round == s.rounds && e.verdict == v) {
        var i :| 0 <= i < |next.settled| && next.settled[i] == e;
        if i >= |s.settled| { assert e == Settled(s.failedQueue[i - |s.settled|], v); }
      }
    }
  }

  lemma {:induction false} RunAnswers(s: State, steps: seq<Step>, end: State, outcomes: seq<Verdict>)
    requires Inv(s) && Leads(s, steps, end) && Answered(s, outcomes)
    ensures Answered(end, outcomes + Outcomes(steps))
    decreases |steps|
  {
    OutcomesSplit(steps);
    hide Inv, Answered, Do, Can, Outcomes;
    if steps == [] {
      assert outcomes + [] == outcomes;
    } else {
      var first := Outcomes([steps[0]]);
      StepAnswers(s, steps[0], outcomes);
      StepKeepsInv(s, steps[0]);
      RunAnswers(Do(s, steps[0]), steps[1..], end, outcomes + first);
      assert outcomes + first + Outcomes(steps[1..]) == outcomes + Outcomes(steps);
    }
  }

  lemma OutcomesSplit(steps: seq<Step>)
    ensures Outcomes([]) == []
    ensures steps != [] ==> Outcomes(steps) == Outcomes([steps[0]]) + Outcomes(steps[1..])
  {
    if steps != [] {
      assert [steps[0]][1..] == [];
    }
  }

  /** In every run, whoever was settled in the end after joining the n-th refresh got
      what the n-th refresh call that came back brought: the token of a success, the
      error of a failure. */
  lemma WaitersGetOutcome(steps: seq<Step>, end: State)
    requires Leads(Start(), steps, end)
    ensures |Outcomes(steps)| == end.rounds - (if end.isRefreshing then 1 else 0)
    ensures forall e <- end.settled ::
              1 <= e.entry.round <= |Outcomes(steps)| && e.verdict == Outcomes(steps)[e.entry.round - 1]
  {
    RunAnswers(Start(), steps, end, []);
    assert [] + Outcomes(steps) == Outcomes(steps);
  }

  /** A token that comes back goes to everyone in the queue, and so does an error. */
  lemma OutcomeSettlesQueue(s: State, token: string, error: string)
    ensures forall q <- s.failedQueue :: Settled(q, Token(token)) in Do(s, RefreshSucceeds(token)).settled
    ensures forall q <- s.failedQueue :: Settled(q, Failure(error)) in Do(s, RefreshFails(error)).settled
  {
    forall q <- s.failedQueue
      ensures Settled(q, Token(token)) in Do(s, RefreshSucceeds(token)).settled
      ensures Settled(q, Failure(error)) in Do(s, RefreshFails(error)).settled
    {
      var i :| 0 <= i < |s.failedQueue| && s.failedQueue[i] == q;
      assert SettleAll(s.failedQueue, Token(token))[i] == Settled(q, Token(token));
      assert SettleAll(s.failedQueue, Failure(error))[i] == Settled(q, Failure(error));
    }
  }

  // -------------------------------------------- when the refresh gets a 401

  /** A run never has its refresh call answered by a 401. */
  predicate NeverRefused(steps: seq<Step>) {
    RefreshUnauthorized !in steps
  }

  lemma {:induction false} SwallowedExactly(s: State, steps: seq<Step>, end: State)
    requires Inv(s) && Leads(s, steps, end) && !s.swallowed
    ensures end.swallowed <==> !NeverRefused(steps)
    decreases |steps|
  {
    if steps != [] {
      var next := Do(s, steps[0]);
      assert steps == [steps[0]] + steps[1..];
      StepKeepsInv(s, steps[0]);
      if steps[0] == RefreshUnauthorized {
        StuckForever(next, steps[1..], end);
      } else {
        SwallowedExactly(next, steps[1..], end);
      }
    }
  }

  /** From then on the flag stays up and nobody is settled, whatever comes. */
  lemma {:induction false} StuckForever(s: State, steps: seq<Step>, end: State)
    requires s.swallowed && s.isRefreshing && Leads(s, steps, end)
    ensures end.swallowed && end.isRefreshing && end.settled == s.settled && s.failedQueue <= end.failedQueue
    ensures end.ended == s.ended && end.rounds == s.rounds
    decreases |steps|
  {
    if steps != [] {
      StuckForever(Do(s, steps[0]), steps[1..], end);
    }
  }

  /** One request and a refresh call that is itself refused: the call waits for
      its own outcome, and whatever follows, it goes on waiting. */
  lemma RefusedRefreshSticks(id: nat, more: seq<Step>, later: State) returns (end: State)
    requires Leads(Do(Do(Start(), Unauthorized(id)), RefreshUnauthorized), more, later)
    ensures Leads(Start(), [Unauthorized(id), RefreshUnauthorized], end) && !InFlight(end)
    ensures end.failedQueue == [Queued(RefreshCall(1), 1)]
    ensures later.isRefreshing && Queued(RefreshCall(1), 1) in later.failedQueue
  {
    var one := Do(Start(), Unauthorized(id));
    end := Do(one, RefreshUnauthorized);
    var steps := [Unauthorized(id), RefreshUnauthorized];
    assert steps[1..] == [RefreshUnauthorized] && steps[1..][1..] == [];
    assert Leads(one, steps[1..], end);
    StuckForever(end, more, later);
    assert end.failedQueue[0] == later.failedQueue[0];
  }

  /** When nothing is in flight, every waiter has been settled exactly when no
      refresh call was ever answered by a 401; after one that was, no run
      whatever settles those who wait. */
  lemma SettledExactly(steps: seq<Step>, end: State, more: seq<Step>, later: State)
    requires Leads(Start(), steps, end) && !InFlight(end) && Leads(end, more, later)
    ensures end.failedQueue == [] <==> NeverRefused(steps)
    ensures !NeverRefused(steps) ==>
              later.isRefreshing && later.settled == end.settled && end.failedQueue <= later.failedQueue
  {
    RunKeepsInv(Start(), steps, end);
    SwallowedExactly(Start(), steps, end);
    if end.swallowed {
      StuckForever(end, more, later);
    }
  }
}
