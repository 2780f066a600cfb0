/**
  Background certificate jobs: registration, the worker's queue, log lines pushed
  by futures spawned on the worker's runtime, status polls that drain the log, and
  the waiter that records the worker's answer. All of them interleave.

  A second part shows that the order in which these parties take their locks
  cannot deadlock.
*/
module Jobs {
  import opened Common

  type JobId = nat

  type Line = string

  datatype Status = Running | Completed | FailedJob

  datatype Answer = Done(ok: bool) | Lost

  /** submitted, answered, pushed and batches are history: what was sent to the
      worker and answered by it, which lines were logged, which batches the
      polls of a job returned. */
  datatype State = State(
    jobs: map<JobId, Status>,
    buffers: map<JobId, seq<Line>>,
    sent: set<JobId>,
    queue: seq<JobId>,
    current: Option<JobId>,
    tasks: map<JobId, seq<Line>>,     // push tasks spawned, not yet run
    answers: map<JobId, Answer>,      // delivered to the waiting task, not yet acted on
    alive: bool,
    submitted: seq<JobId>,
    answered: seq<JobId>,
    pushed: map<JobId, seq<Line>>,
    batches: map<JobId, seq<seq<Line>>>)

  datatype Step =
    | Register(job: JobId)            // insert job and log buffer
    | Send(job: JobId)                // hand the request to the worker
    | Take                            // the worker receives the next request
    | Push(line: Line)                // the running job logs a line
    | RunTask(job: JobId)             // a spawned push task appends its line
    | AnswerJob(ok: bool)             // the worker answers and goes on
    | Die                             // the worker thread is gone
    | Collect(job: JobId)             // the waiting task records the outcome
    | PollStatus(job: JobId)          // a status request drains the buffer

  predicate Can(s: State, step: Step) {
    match step
    case Register(j) => j !in s.jobs
    case Send(j) => j in s.jobs && j !in s.sent
    case Take => s.alive && s.current.None? && s.queue != []
    case Push(_) => s.current.Some? && s.current.value in s.tasks && s.current.value in s.pushed
    case RunTask(j) => s.current.Some? && j in s.tasks && s.tasks[j] != [] && j in s.buffers
    case AnswerJob(_) => s.current.Some?
    case Die => s.alive
    case Collect(j) => j in s.answers
    case PollStatus(j) => j in s.jobs && j in s.buffers && j in s.batches
  }

  function Outcome(a: Answer): Status {
    if a == Done(true) then Completed else FailedJob
  }

  function Do(s: State, step: Step): State
    requires Can(s, step)
  {
    match step
    case Register(j) =>
      s.(jobs := s.jobs[j := Running], buffers := s.buffers[j := []], tasks := s.tasks[j := []],
         pushed := s.pushed[j := []], batches := s.batches[j := []])
    case Send(j) =>
      if s.alive then s.(sent := s.sent + {j}, queue := s.queue + [j], submitted := s.submitted + [j])
      else s.(sent := s.sent + {j}, answers := s.answers[j := Lost])
    case Take => s.(current := Some(s.queue[0]), queue := s.queue[1..])
    case Push(line) =>
      var j := s.current.value;
      s.(tasks := s.tasks[j := s.tasks[j] + [line]], pushed := s.pushed[j := s.pushed[j] + [line]])
    case RunTask(j) =>
      s.(buffers := s.buffers[j := s.buffers[j] + [s.tasks[j][0]]], tasks := s.tasks[j := s.tasks[j][1..]])
    case AnswerJob(ok) =>
      var j := s.current.value;
      s.(current := None, answers := s.answers[j := Done(ok)], answered := s.answered + [j])
    case Die =>
      s.(alive := false, current := None, queue := [],
         answers := s.answers + map j | j in Held(s) :: Lost)
    case Collect(j) =>
      s.(answers := s.answers - {j}, jobs := if j in s.jobs then s.jobs[j := Outcome(s.answers[j])] else s.jobs)
    case PollStatus(j) =>
      s.(batches := s.batches[j := s.batches[j] + [s.buffers[j]]], buffers := s.buffers[j := []])
  }

  function Start(): State {
    State(map[], map[], {}, [], None, map[], map[], true, [], [], map[], map[])
  }

  predicate Leads(s: State, steps: seq<Step>, end: State)
    decreases |steps|
  {
    if steps == [] then s == end else Can(s, steps[0]) && Leads(Do(s, steps[0]), steps[1..], end)
  }

  // ------------------------------------------------------- the code as it is

  /** The tables behind the mutexes, and what is done under the locks. */
  class JobBoard {
    var jobs: map<JobId, Status>
    var buffers: map<JobId, seq<Line>>

    ghost predicate Shows(s: State)
      reads this
    {
      jobs == s.jobs && buffers == s.buffers
    }

    method Enter(job: JobId, ghost s: State)
      requires Shows(s) && Can(s, Register(job))
      modifies this
      ensures Shows(Do(s, Register(job)))
    {
      jobs := jobs[job := Running];
      buffers := buffers[job := []];
    }

    /** A push task, once it has the buffer. */
    method Append(job: JobId, line: Line, ghost s: State)
      requires Shows(s) && Can(s, RunTask(job)) && s.tasks[job][0] == line
      modifies this
      ensures Shows(Do(s, RunTask(job)))
    {
      buffers := buffers[job := buffers[job] + [line]];
    }

    /** A status request takes the whole buffer and leaves an empty one. */
    method Status(job: JobId, ghost s: State) returns (r: Option<(Status, seq<Line>)>)
      requires Shows(s)
      modifies this
      ensures r.None? <==> job !in old(jobs)
      ensures r.None? ==> Shows(s)
      ensures r.Some? ==> r.value.0 == old(jobs)[job]
      ensures r.Some? && Can(s, PollStatus(job)) ==>
                Shows(Do(s, PollStatus(job))) && Do(s, PollStatus(job)).batches[job] == s.batches[job] + [r.value.1]
    {
      if job !in jobs { return None; }
      var lines := [];
      if job in buffers {
        lines := buffers[job];
        buffers := buffers[job := []];
      }
      return Some((jobs[job], lines));
    }

    /** Whoever waited for the worker writes the outcome down. */
    method Record(job: JobId, answer: Answer, ghost s: State)
      requires Shows(s) && job in s.answers && s.answers[job] == answer
      modifies this
      ensures Shows(Do(s, Collect(job)))
    {
      if job in jobs {
        match answer {
          case Done(ok) => jobs := jobs[job := if ok then Completed else FailedJob];
          case Lost => jobs := jobs[job := FailedJob];
        }
      }
    }
  }

  /** The worker thread's loop over what its channel delivers before it closes. */
  method Serve(requests: seq<JobId>, issue: JobId -> bool) returns (answers: seq<(JobId, bool)>)
    ensures |answers| == |requests| && forall i | 0 <= i < |requests| :: answers[i] == (requests[i], issue(requests[i]))
  {
    answers := [];
    var queue := requests;
    while queue != []
      invariant |answers| + |queue| == |requests| && queue == requests[|answers|..]
      invariant forall i | 0 <= i < |answers| :: answers[i] == (requests[i], issue(requests[i]))
      decreases |queue|
    {
      var job := queue[0];
      queue := queue[1..];
      answers := answers + [(job, issue(job))];
    }
  }

  // --------------------------------------------------------------- log lines

  ghost predicate LinesKept(s: State) {
    && s.jobs.Keys == s.buffers.Keys == s.tasks.Keys == s.pushed.Keys == s.batches.Keys
    && forall j <- s.jobs :: Flatten(s.batches[j]) + s.buffers[j] + s.tasks[j] == s.pushed[j]
  }

  lemma StepKeepsLines(s: State, step: Step)
    requires LinesKept(s) && Can(s, step) && (step.Collect? ==> step.job in s.jobs)
    ensures LinesKept(Do(s, step))
  {
    hide Flatten;
    match step {
      case Register(j) => EmptyFlatten();
      case Push(line) => PushKeepsLines(s, line);
      case RunTask(j) => TaskKeepsLines(s, j);
      case PollStatus(j) => PollKeepsLines(s, j);
      case Send(j) =>
      case Take =>
      case AnswerJob(ok) =>
      case Die =>
      case Collect(j) =>
    }
  }

  lemma PushKeepsLines(s: State, line: Line)
    requires LinesKept(s) && Can(s, Push(line))
    ensures LinesKept(Do(s, Push(line)))
  {
    hide Flatten;
    var j := s.current.value;
    assert Flatten(s.batches[j]) + s.buffers[j] + (s.tasks[j] + [line]) ==
        Flatten(s.batches[j]) + s.buffers[j] + s.tasks[j] + [line];
  }

  lemma TaskKeepsLines(s: State, j: JobId)
    requires LinesKept(s) && Can(s, RunTask(j))
    ensures LinesKept(Do(s, RunTask(j)))
  {
    hide Flatten;
    var f, b, x, rest := Flatten(s.batches[j]), s.buffers[j], s.tasks[j][0], s.tasks[j][1..];
    assert s.tasks[j] == [x] + rest;
    assert f + (b + [x]) + rest == f + b + ([x] + rest);
  }

  lemma PollKeepsLines(s: State, j: JobId)
    requires LinesKept(s) && Can(s, PollStatus(j))
    ensures LinesKept(Do(s, PollStatus(j)))
  {
    hide Flatten;
    FlattenSnoc(s.batches[j], s.buffers[j]);
    var f, b, rest := Flatten(s.batches[j]), s.buffers[j], s.tasks[j];
    assert (f + b) + [] + rest == f + b + rest;
  }

  lemma EmptyFlatten()
    ensures Flatten<Line>([]) == []
  {
  }

  // ---------------------------------------------------- where each job stands

  predicate NoRepeat(js: seq<JobId>) {
    forall a, b | 0 <= a < b < |js| :: js[a] != js[b]
  }

  function Held(s: State): seq<JobId> {
    (if s.current.Some? then [s.current.value] else []) + s.queue
  }

  /** Every sent job is at exactly one place: with the worker, answered but not
      yet recorded, or recorded. */
  ghost predicate Placed(s: State) {
    && s.sent <= s.jobs.Keys
    && NoRepeat(s.submitted)
    && (forall j <- s.submitted :: j in s.sent)
    && (s.alive ==> s.submitted == s.answered + Held(s))
    && (!s.alive ==> s.answered <= s.submitted && Held(s) == [])
    && (forall j <- Held(s) :: j in s.sent && j !in s.answers && s.jobs[j] == Running)
    && (forall j <- s.answers :: j in s.sent && s.jobs[j] == Running)
    && (forall j <- s.jobs :: j !in s.sent ==> s.jobs[j] == Running)
    && (forall j <- s.sent :: j in Held(s) || j in s.answers || s.jobs[j] != Running)
    && (forall j <- s.jobs :: s.jobs[j] == Completed ==> j in s.answered)
    && (forall j <- s.answers :: s.answers[j].Done? ==> j in s.answered)
  }

  lemma SendKeepsPlaced(s: State, j: JobId)
    requires Placed(s) && Can(s, Send(j))
    ensures Placed(Do(s, Send(j)))
  {
    var t := Do(s, Send(j));
    if s.alive {
      assert Held(t) == Held(s) + [j];
      assert j !in s.submitted;
      assert t.submitted == t.answered + Held(t);
    }
  }

  lemma TakeKeepsPlaced(s: State)
    requires Placed(s) && Can(s, Take)
    ensures Placed(Do(s, Take))
  {
    assert Held(Do(s, Take)) == Held(s);
  }

  lemma AnswerKeepsPlaced(s: State, ok: bool)
    requires Placed(s) && Can(s, AnswerJob(ok))
    ensures Placed(Do(s, AnswerJob(ok)))
  {
    var t := Do(s, AnswerJob(ok));
    var j := s.current.value;
    assert Held(s) == [j] + Held(t);
    if s.alive {
      assert t.submitted == t.answered + Held(t);
      var n := |s.answered|;
      assert s.submitted[n] == j;
      forall k <- Held(t) ensures k != j {
        var i :| 0 <= i < |Held(t)| && Held(t)[i] == k;
        assert s.submitted[n + 1 + i] == k;
      }
    }
  }

  lemma DieKeepsPlaced(s: State)
    requires Placed(s) && Can(s, Die)
    ensures Placed(Do(s, Die))
  {
    var t := Do(s, Die);
    assert forall j :: j in Held(s) <==> j in s.queue || s.current == Some(j);
    assert t.answered <= t.submitted;
  }

  lemma RegisterKeepsPlaced(s: State, j: JobId)
    requires Placed(s) && Can(s, Register(j))
    ensures Placed(Do(s, Register(j)))
  {
    assert Held(Do(s, Register(j))) == Held(s);
  }

  lemma CollectKeepsPlaced(s: State, j: JobId)
    requires Placed(s) && Can(s, Collect(j))
    ensures Placed(Do(s, Collect(j)))
  {
    assert Held(Do(s, Collect(j))) == Held(s);
  }

  /** Placement does not look at log lines. */
  lemma PlacedIgnoresLines(s: State, t: State)
    requires Placed(s)
    requires t == s.(buffers := t.buffers, tasks := t.tasks, pushed := t.pushed, batches := t.batches)
    ensures Placed(t)
  {
    assert Held(t) == Held(s);
  }

  lemma StepKeepsPlaced(s: State, step: Step)
    requires Placed(s) && Can(s, step)
    ensures Placed(Do(s, step))
  {
    hide Placed;
    match step {
      case Register(j) => RegisterKeepsPlaced(s, j);
      case Send(j) => SendKeepsPlaced(s, j);
      case Take => TakeKeepsPlaced(s);
      case AnswerJob(ok) => AnswerKeepsPlaced(s, ok);
      case Die => DieKeepsPlaced(s);
      case Collect(j) => CollectKeepsPlaced(s, j);
      case Push(line) => PlacedIgnoresLines(s, Do(s, step));
      case RunTask(j) => PlacedIgnoresLines(s, Do(s, step));
      case PollStatus(j) => PlacedIgnoresLines(s, Do(s, step));
    }
  }

  lemma {:induction false} RunKeeps(s: State, steps: seq<Step>, end: State)
    requires Placed(s) && LinesKept(s) && Leads(s, steps, end)
    ensures Placed(end) && LinesKept(end)
    decreases |steps|
  {
    hide Placed, LinesKept, Do, Can;
    if steps != [] {
      CollectKnown(s, steps[0]);
      StepKeepsPlaced(s, steps[0]);
      StepKeepsLines(s, steps[0]);
      RunKeeps(Do(s, steps[0]), steps[1..], end);
    }
  }

  lemma CollectKnown(s: State, step: Step)
    requires Placed(s) && Can(s, step)
    ensures step.Collect? ==> step.job in s.jobs
  {
  }

  /** Exactly once and in order: in every run, for every job, the batches its
      polls returned, then what is in its buffer, then what its push tasks still
      hold, are the lines it logged. */
  lemma EveryLineOnce(steps: seq<Step>, end: State, j: JobId)
    requires Leads(Start(), steps, end) && j in end.jobs
    ensures j in end.batches && j in end.buffers && j in end.tasks && j in end.pushed
    ensures Flatten(end.batches[j]) + end.buffers[j] + end.tasks[j] == end.pushed[j]
  {
    RunKeeps(Start(), steps, end);
  }

  /** Requests are answered in the order they were submitted, none skipped and
      none twice. */
  lemma AnsweredInOrder(steps: seq<Step>, end: State)
    requires Leads(Start(), steps, end)
    ensures end.answered <= end.submitted && NoRepeat(end.answered)
  {
    RunKeeps(Start(), steps, end);
  }

  /** A status that is no longer Running never changes. */
  lemma {:induction false} StatusIsFinal(before: seq<Step>, mid: State, after: seq<Step>, end: State, j: JobId)
    requires Leads(Start(), before, mid) && Leads(mid, after, end)
    requires j in mid.jobs && mid.jobs[j] != Running
    ensures j in end.jobs && end.jobs[j] == mid.jobs[j]
  {
    hide Placed, LinesKept, Do, Can, Leads;
    StartIsSound();
    RunKeeps(Start(), before, mid);
    FinalFrom(mid, after, end, j);
  }

  lemma {:induction false} FinalFrom(s: State, steps: seq<Step>, end: State, j: JobId)
    requires Placed(s) && LinesKept(s) && Leads(s, steps, end)
    requires j in s.jobs && s.jobs[j] != Running
    ensures j in end.jobs && end.jobs[j] == s.jobs[j]
    decreases |steps|
  {
    if steps != [] {
      FinalStep(s, steps[0], j);
      CollectKnown(s, steps[0]);
      StepKeepsPlaced(s, steps[0]);
      StepKeepsLines(s, steps[0]);
      FinalFrom(Do(s, steps[0]), steps[1..], end, j);
    }
  }

  lemma FinalStep(s: State, step: Step, j: JobId)
    requires Placed(s) && Can(s, step) && j in s.jobs && s.jobs[j] != Running
    ensures j in Do(s, step).jobs && Do(s, step).jobs[j] == s.jobs[j]
  {
  }

  /** Once nothing is with the worker or waiting to be recorded, every job that
      was sent has an outcome, and a completed one was answered by the worker. */
  lemma NoJobForgotten(steps: seq<Step>, end: State)
    requires Leads(Start(), steps, end) && end.queue == [] && end.current.None? && end.answers == map[]
    ensures forall j <- end.sent :: j in end.jobs && end.jobs[j] != Running
    ensures forall j <- end.jobs :: end.jobs[j] == Completed ==> j in end.answered
  {
    hide Do, Can, Leads, LinesKept;
    StartIsSound();
    RunKeeps(Start(), steps, end);
    assert Held(end) == [];
  }

  // ------------------------------------------------ what the outcome means

  /** In these steps the worker answers this job with this verdict. */
  predicate Said(s: State, steps: seq<Step>, j: JobId, ok: bool)
    decreases |steps|
  {
    steps != [] && Can(s, steps[0]) &&
    (Says(s, steps[0], j, ok) || Said(Do(s, steps[0]), steps[1..], j, ok))
  }

  predicate Says(s: State, step: Step, j: JobId, ok: bool) {
    step == AnswerJob(ok) && s.current == Some(j)
  }

  /** What the tables know of the worker's verdict on a job, given whether it has
      said yes and whether it has said no. */
  predicate Told(s: State, j: JobId, yes: bool, no: bool) {
    && (yes ==> j in s.answered && j in s.jobs && (if j in s.answers then s.answers[j] == Done(true)
                                                   else s.jobs[j] == Completed))
    && (no ==> j in s.answered && j in s.jobs && (if j in s.answers then s.answers[j] == Done(false)
                                                  else s.jobs[j] == FailedJob))
    && (j in s.jobs && s.jobs[j] == Completed ==> yes)
    && (j in s.answers && s.answers[j] == Done(true) ==> yes)
  }

  lemma StepTells(s: State, step: Step, j: JobId, yes: bool, no: bool)
    requires Placed(s) && Can(s, step) && Told(s, j, yes, no)
    ensures Told(Do(s, step), j, yes || Says(s, step, j, true), no || Says(s, step, j, false))
  {
    AnsweredOrHeld(s, j);
    if step == Die {
      DieTells(s, j, yes, no);
    }
    hide Placed, NoRepeat, Held;
  }

  lemma DieTells(s: State, j: JobId, yes: bool, no: bool)
    requires Told(s, j, yes, no) && Can(s, Die) && (j in s.answered ==> j !in Held(s))
    ensures Told(Do(s, Die), j, yes, no)
  {
  }

  lemma AnsweredOrHeld(s: State, j: JobId)
    requires Placed(s)
    ensures j in s.answered ==> j in s.sent && s.current != Some(j) && j !in Held(s)
    ensures s.current == Some(j) ==> j in s.jobs && j !in s.answered
    ensures j in s.sent ==> j in s.jobs
    ensures j in s.answers ==> j in s.sent && s.jobs[j] == Running
  {
    if s.current == Some(j) {
      assert Held(s)[0] == j;
    }
    if j in s.answered {
      var n := |s.answered|;
      assert s.answered <= s.submitted && j in s.submitted;
      assert forall i | 0 <= i < |Held(s)| :: s.submitted[n + i] == Held(s)[i];
    }
  }

  lemma {:induction false} RunTells(s: State, steps: seq<Step>, end: State, j: JobId, yes: bool, no: bool)
    requires Placed(s) && Leads(s, steps, end) && Told(s, j, yes, no)
    ensures Told(end, j, yes || Said(s, steps, j, true), no || Said(s, steps, j, false))
    decreases |steps|
  {
    hide Placed, Told, Do, Can, Says;
    if steps != [] {
      StepTells(s, steps[0], j, yes, no);
      StepKeepsPlaced(s, steps[0]);
      RunTells(Do(s, steps[0]), steps[1..], end, j,
        yes || Says(s, steps[0], j, true), no || Says(s, steps[0], j, false));
    }
  }

  /** In every run, once the worker has a sent job behind it and the outcome is
      recorded, the job is completed if and only if the worker said yes, and failed
      otherwise: when it said no, and when it was lost. */
  lemma CompletedExactly(steps: seq<Step>, end: State, j: JobId)
    requires Leads(Start(), steps, end) && j in end.jobs
    ensures end.jobs[j] == Completed ==> Said(Start(), steps, j, true)
    ensures Said(Start(), steps, j, false) && j !in end.answers ==> end.jobs[j] == FailedJob
    ensures j in end.sent && j !in end.answers && j !in end.queue && end.current != Some(j) ==>
              end.jobs[j] == if Said(Start(), steps, j, true) then Completed else FailedJob
  {
    hide Do, Can, Leads, Said, LinesKept;
    StartIsSound();
    RunKeeps(Start(), steps, end);
    RunTells(Start(), steps, end, j, false, false);
  }

  // --------------------------------------------- the last lines of a job

  /** The worker has the job behind it: answered, or lost with the worker. */
  predicate Over(s: State, j: JobId) {
    j in s.sent && j !in Held(s)
  }

  /** How many of the job's push tasks run in these steps. */
  function Runs(steps: seq<Step>, j: JobId): nat {
    if steps == [] then 0 else (if steps[0] == RunTask(j) then 1 else 0) + Runs(steps[1..], j)
  }

  lemma OverStays(s: State, step: Step, j: JobId)
    requires Can(s, step) && Over(s, j)
    ensures Over(Do(s, step), j)
  {
    assert forall k :: k in Held(s) <==> s.current == Some(k) || k in s.queue;
  }

  lemma LogStays(s: State, step: Step, j: JobId)
    requires Can(s, step) && s.current != Some(j) && j in s.jobs && j in s.tasks && j in s.pushed
    ensures var t := Do(s, step);
            && j in t.jobs && j in t.tasks && j in t.pushed && t.pushed[j] == s.pushed[j]
            && |t.tasks[j]| + (if step == RunTask(j) then 1 else 0) == |s.tasks[j]|
  {
    hide Held;
  }

  lemma OverStep(s: State, step: Step, j: JobId)
    requires Can(s, step) && Over(s, j) && j in s.jobs && j in s.tasks && j in s.pushed
    ensures var t := Do(s, step);
            && Over(t, j) && j in t.jobs && j in t.tasks && j in t.pushed && t.pushed[j] == s.pushed[j]
            && |t.tasks[j]| + (if step == RunTask(j) then 1 else 0) == |s.tasks[j]|
  {
    assert s.current != Some(j);
    hide Do, Can, Over;
    OverStays(s, step, j);
    LogStays(s, step, j);
  }

  lemma {:induction false} OverRun(s: State, steps: seq<Step>, end: State, j: JobId)
    requires Placed(s) && LinesKept(s) && Leads(s, steps, end) && Over(s, j)
    ensures Placed(end) && LinesKept(end) && Over(end, j) && j in s.jobs && j in end.jobs
    ensures j in s.tasks && j in end.tasks && j in s.pushed && j in end.pushed
    ensures end.pushed[j] == s.pushed[j]
    ensures |end.tasks[j]| + Runs(steps, j) == |s.tasks[j]|
    decreases |steps|
  {
    OverKnown(s, j);
    hide Placed, LinesKept, Do, Can, Over;
    if steps != [] {
      CollectKnown(s, steps[0]);
      OverStep(s, steps[0], j);
      StepKeepsPlaced(s, steps[0]);
      StepKeepsLines(s, steps[0]);
      OverRun(Do(s, steps[0]), steps[1..], end, j);
    }
  }

  lemma OverKnown(s: State, j: JobId)
    requires Placed(s) && LinesKept(s) && Over(s, j)
    ensures j in s.jobs && j in s.tasks && j in s.pushed
  {
  }

  lemma NoTakeStep(s: State, step: Step, j: JobId)
    requires s.current.None? && Can(s, step) && step != Take && j in s.jobs && j in s.tasks
    ensures var t := Do(s, step);
            && t.current.None? && !step.RunTask? && j in t.jobs && j in t.tasks && t.tasks[j] == s.tasks[j]
  {
    hide Held, Outcome;
  }

  /** Push tasks only run while the worker is busy. */
  lemma {:induction false} NoTakeNoRun(s: State, steps: seq<Step>, end: State, j: JobId)
    requires s.current.None? && Leads(s, steps, end) && Take !in steps && j in s.jobs && j in s.tasks
    ensures Runs(steps, j) == 0 && j in end.tasks && end.tasks[j] == s.tasks[j]
    decreases |steps|
  {
    if steps != [] {
      assert steps == [steps[0]] + steps[1..];
      NoTakeStep(s, steps[0], j);
      hide Do, Can;
      NoTakeNoRun(Do(s, steps[0]), steps[1..], end, j);
    }
  }

  /** From the moment the worker has a job behind it, in every run: the job logs
      nothing more, and what its polls have returned together with its buffer is
      its whole log if and only if no push task of it was left over at that moment,
      or the worker took another request later and all of them ran. Until it takes
      one, exactly their lines are missing. */
  lemma LogComplete(before: seq<Step>, s: State, after: seq<Step>, end: State, j: JobId)
    requires Leads(Start(), before, s) && s.current.None? && j in s.sent && j !in s.queue && Leads(s, after, end)
    ensures j in s.tasks && j in s.pushed && j in end.pushed && j in end.batches && j in end.buffers
    ensures end.pushed[j] == s.pushed[j]
    ensures Flatten(end.batches[j]) + end.buffers[j] == end.pushed[j] <==>
              s.tasks[j] == [] || (Take in after && Runs(after, j) == |s.tasks[j]|)
    ensures Take !in after ==> j in end.tasks && end.tasks[j] == s.tasks[j]
    ensures j in end.tasks && Flatten(end.batches[j]) + end.buffers[j] + end.tasks[j] == end.pushed[j]
  {
    hide Placed, Flatten, Leads, Runs, Do, Can;
    StartIsSound();
    RunKeeps(Start(), before, s);
    assert j !in Held(s);
    OverRun(s, after, end, j);
    if Take !in after {
      NoTakeNoRun(s, after, end, j);
    }
    Missing(Flatten(end.batches[j]) + end.buffers[j], end.tasks[j]);
  }

  lemma StartIsSound()
    ensures Placed(Start()) && LinesKept(Start())
  {
  }

  lemma Missing(shown: seq<Line>, tasks: seq<Line>)
    ensures shown == shown + tasks <==> tasks == []
  {
    assert |shown + tasks| == |shown| + |tasks|;
  }

  /** So the last line of a job can stay behind after the job is completed: from
      any idle state there is a run after which the job is completed and polling
      cannot reach its line until the worker takes another request. */
  lemma LastLineCanLag(s: State, j: JobId, line: Line) returns (end: State)
    requires s.alive && s.current.None? && s.queue == [] && j !in s.jobs && j !in s.sent
    ensures Leads(s, [Register(j), Send(j), Take, Push(line), AnswerJob(true), Collect(j)], end)
    ensures j in end.jobs && end.jobs[j] == Completed && j in end.tasks && end.tasks[j] == [line]
    ensures end.queue == [] && forall k :: !Can(end, RunTask(k))
  {
    var started := StartJob(s, j);
    end := FinishWithLine(started, j, line);
    LeadsThrough(s, [Register(j), Send(j), Take], started, [Push(line), AnswerJob(true), Collect(j)], end);
    assert [Register(j), Send(j), Take] + [Push(line), AnswerJob(true), Collect(j)]
        == [Register(j), Send(j), Take, Push(line), AnswerJob(true), Collect(j)];
  }

  lemma StartJob(s: State, j: JobId) returns (end: State)
    requires s.alive && s.current.None? && s.queue == [] && j !in s.jobs && j !in s.sent
    ensures Leads(s, [Register(j), Send(j), Take], end)
    ensures end.current == Some(j) && end.queue == [] && j in end.jobs
    ensures j in end.tasks && end.tasks[j] == [] && j in end.pushed
  {
    hide Held, Outcome;
    var s1 := Do(s, Register(j));
    var s2 := Do(s1, Send(j));
    assert s2.queue == [j];
    end := Do(s2, Take);
    LeadsCons(s2, Take, [], end);
    hide Do, Can, Leads;
    LeadsCons(s1, Send(j), [Take], end);
    LeadsCons(s, Register(j), [Send(j), Take], end);
  }

  lemma {:induction false} LeadsThrough(s: State, steps: seq<Step>, mid: State, more: seq<Step>, end: State)
    requires Leads(s, steps, mid) && Leads(mid, more, end)
    ensures Leads(s, steps + more, end)
    decreases |steps|
  {
    hide Do, Can;
    if steps == [] {
      assert steps + more == more;
    } else {
      LeadsThrough(Do(s, steps[0]), steps[1..], mid, more, end);
      assert (steps + more)[1..] == steps[1..] + more;
    }
  }

  lemma FinishWithLine(s: State, j: JobId, line: Line) returns (end: State)
    requires s.current == Some(j) && s.queue == [] && j in s.jobs
    requires j in s.tasks && s.tasks[j] == [] && j in s.pushed
    ensures Leads(s, [Push(line), AnswerJob(true), Collect(j)], end)
    ensures j in end.jobs && end.jobs[j] == Completed && j in end.tasks && end.tasks[j] == [line]
    ensures end.queue == [] && end.current.None?
  {
    var s1 := Do(s, Push(line));
    var s2 := Do(s1, AnswerJob(true));
    end := Do(s2, Collect(j));
    assert s.tasks[j] + [line] == [line];
    LeadsCons(s2, Collect(j), [], end);
    LeadsCons(s1, AnswerJob(true), [Collect(j)], end);
    LeadsCons(s, Push(line), [AnswerJob(true), Collect(j)], end);
  }

  lemma LeadsCons(s: State, step: Step, rest: seq<Step>, end: State)
    requires Can(s, step) && Leads(Do(s, step), rest, end)
    ensures Leads(s, [step] + rest, end)
  {
    assert ([step] + rest)[1..] == rest;
  }

  // -------------------------------------------------------------- lock order

  /** The mutexes: the job table, the table of log buffers, one per buffer. */
  datatype Lock = JobTable | LogTable | Buffer(job: JobId) {
    function Rank(): nat {
      match this case JobTable => 0 case LogTable => 1 case Buffer(_) => 2
    }
  }

  datatype Op = Acquire(lock: Lock) | Release(lock: Lock)

  /** What each party does with its locks. */
  datatype Party = Registrar | Poller(job: JobId) | Pusher(job: JobId) | Recorder {
    function Program(): seq<Op> {
      match this
      case Registrar => [Acquire(JobTable), Acquire(LogTable), Release(LogTable), Release(JobTable)]
      case Poller(j) => [Acquire(JobTable), Acquire(LogTable), Acquire(Buffer(j)),
                         Release(Buffer(j)), Release(LogTable), Release(JobTable)]
      case Pusher(j) => [Acquire(Buffer(j)), Release(Buffer(j))]
      case Recorder => [Acquire(JobTable), Release(JobTable)]
    }
  }

  /** Locks are taken in rank order, only held ones are released, and nothing is
      held at the end. */
  predicate Orderly(held: set<Lock>, rest: seq<Op>)
    decreases |rest|
  {
    if rest == [] then held == {}
    else match rest[0]
      case Acquire(l) => (forall h <- held :: h.Rank() < l.Rank()) && Orderly(held + {l}, rest[1..])
      case Release(l) => l in held && Orderly(held - {l}, rest[1..])
  }

  /** Threads by number, with what is left of their programs, and lock owners. */
  datatype Threads = Threads(rest: map<nat, seq<Op>>, owner: map<Lock, nat>)

  function HeldBy(t: Threads, who: nat): set<Lock> {
    set l | l in t.owner && t.owner[l] == who
  }

  ghost predicate Disciplined(t: Threads) {
    && (forall l <- t.owner :: t.owner[l] in t.rest)
    && (forall who <- t.rest :: Orderly(HeldBy(t, who), t.rest[who]))
  }

  predicate CanAdvance(t: Threads, who: nat) {
    who in t.rest && t.rest[who] != [] && (t.rest[who][0].Acquire? ==> t.rest[who][0].lock !in t.owner)
  }

  function Advance(t: Threads, who: nat): Threads
    requires CanAdvance(t, who)
  {
    var op := t.rest[who][0];
    Threads(t.rest[who := t.rest[who][1..]],
            if op.Acquire? then t.owner[op.lock := who] else t.owner - {op.lock})
  }

  function Join(t: Threads, who: nat, party: Party): Threads {
    t.(rest := t.rest[who := party.Program()])
  }

  lemma ProgramsAreOrderly(party: Party)
    ensures Orderly({}, party.Program())
  {
    var both := {JobTable, LogTable};
    assert Orderly({}, []) && {} + {JobTable} == {JobTable} && {JobTable} - {JobTable} == {};
    assert {JobTable} + {LogTable} == both && both - {LogTable} == {JobTable};
    var unwind := [Release(LogTable), Release(JobTable)];
    assert Orderly({JobTable}, unwind[1..]) by { assert unwind[1..] == [Release(JobTable)]; }
    assert Orderly(both, unwind);
    match party {
      case Registrar =>
        var inner := [Acquire(LogTable)] + unwind;
        assert inner[1..] == unwind && Orderly({JobTable}, inner);
        assert party.Program() == [Acquire(JobTable)] + inner && party.Program()[1..] == inner;
      case Poller(j) =>
        var all := both + {Buffer(j)};
        var last := [Release(Buffer(j))] + unwind;
        assert last[1..] == unwind && all - {Buffer(j)} == both && Orderly(all, last);
        var drain := [Acquire(Buffer(j))] + last;
        assert drain[1..] == last && Orderly(both, drain);
        var inner := [Acquire(LogTable)] + drain;
        assert inner[1..] == drain && Orderly({JobTable}, inner);
        assert party.Program() == [Acquire(JobTable)] + inner && party.Program()[1..] == inner;
      case Pusher(j) =>
        assert {} + {Buffer(j)} == {Buffer(j)} && {Buffer(j)} - {Buffer(j)} == {};
        assert Orderly({Buffer(j)}, [Release(Buffer(j))]);
      case Recorder =>
        assert {} + {JobTable} == {JobTable} && {JobTable} - {JobTable} == {};
        assert Orderly({JobTable}, [Release(JobTable)]);
    }
  }

  /** The locks held after these operations. */
  function HeldAfter(ops: seq<Op>): set<Lock> {
    if ops == [] then {}
    else
      var before := HeldAfter(ops[..|ops| - 1]);
      match ops[|ops| - 1] case Acquire(l) => before + {l} case Release(l) => before - {l}
  }

  /** What each party holds at its innermost point: both tables to register a job,
      all three to hand out a log, the buffer alone to append, the job table alone to
      record. */
  lemma HeldTogether(j: JobId)
    ensures HeldAfter(Registrar.Program()[..2]) == {JobTable, LogTable}
    ensures HeldAfter(Poller(j).Program()[..3]) == {JobTable, LogTable, Buffer(j)}
    ensures HeldAfter(Pusher(j).Program()[..1]) == {Buffer(j)}
    ensures HeldAfter(Recorder.Program()[..1]) == {JobTable}
    ensures forall p <- [Registrar, Poller(j), Pusher(j), Recorder] :: Orderly({}, p.Program())
  {
    forall p <- [Registrar, Poller(j), Pusher(j), Recorder] ensures Orderly({}, p.Program()) {
      ProgramsAreOrderly(p);
    }
    hide Orderly;
    HeldOne(JobTable);
    HeldOne(Buffer(j));
    HeldTwo();
    var poll := Poller(j).Program()[..3];
    assert poll[..2] == [Acquire(JobTable), Acquire(LogTable)];
    assert Registrar.Program()[..2] == [Acquire(JobTable), Acquire(LogTable)];
    assert Pusher(j).Program()[..1] == [Acquire(Buffer(j))] && Recorder.Program()[..1] == [Acquire(JobTable)];
  }

  lemma HeldOne(l: Lock)
    ensures HeldAfter([Acquire(l)]) == {l}
  {
    assert [Acquire(l)][..0] == [];
  }

  lemma HeldTwo()
    ensures HeldAfter([Acquire(JobTable), Acquire(LogTable)]) == {JobTable, LogTable}
  {
    HeldOne(JobTable);
    assert [Acquire(JobTable), Acquire(LogTable)][..1] == [Acquire(JobTable)];
  }

  /** The discipline survives every step and every newcomer. */
  lemma DisciplineIsKept(t: Threads, who: nat, party: Party)
    requires Disciplined(t)
    ensures who !in t.rest ==> Disciplined(Join(t, who, party))
    ensures CanAdvance(t, who) ==> Disciplined(Advance(t, who))
  {
    hide Orderly;
    if who !in t.rest {
      var u := Join(t, who, party);
      ProgramsAreOrderly(party);
      assert HeldBy(u, who) == {};
      assert forall w <- t.rest :: HeldBy(u, w) == HeldBy(t, w);
    }
    if CanAdvance(t, who) {
      var u, op := Advance(t, who), t.rest[who][0];
      OrderlyTail(HeldBy(t, who), t.rest[who]);
      assert HeldBy(u, who) == if op.Acquire? then HeldBy(t, who) + {op.lock} else HeldBy(t, who) - {op.lock};
      forall w <- t.rest | w != who ensures HeldBy(u, w) == HeldBy(t, w) {
      }
    }
  }

  lemma OrderlyTail(held: set<Lock>, rest: seq<Op>)
    requires Orderly(held, rest) && rest != []
    ensures rest[0].Acquire? ==> Orderly(held + {rest[0].lock}, rest[1..])
                                 && forall h <- held :: h.Rank() < rest[0].lock.Rank()
    ensures rest[0].Release? ==> rest[0].lock in held && Orderly(held - {rest[0].lock}, rest[1..])
    ensures rest != []
  {
  }

  /** No deadlock: as long as some thread is unfinished, some thread can go on.
      Follow the owner of the lock a blocked thread wants; ranks only rise. */
  lemma {:induction false} NoDeadlock(t: Threads, who: nat) returns (next: nat)
    requires Disciplined(t) && who in t.rest && t.rest[who] != []
    ensures CanAdvance(t, next)
    decreases if t.rest[who][0].Acquire? then 3 - t.rest[who][0].lock.Rank() else 0
  {
    if CanAdvance(t, who) {
      next := who;
    } else {
      var wanted := t.rest[who][0].lock;
      var holder := t.owner[wanted];
      assert wanted in HeldBy(t, holder);
      assert t.rest[holder] != [];
      OrderlyTail(HeldBy(t, holder), t.rest[holder]);
      next := NoDeadlock(t, holder);
    }
  }
}
