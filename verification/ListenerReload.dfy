/**
  The listener reload protocol between the port-group handlers, which write the
  database in several statements and then signal a watch channel, and the proxy
  engine, which marks the signal seen, drains its listeners and reloads them.

  Every SQL statement and every engine action is one step; steps of any number of
  handlers and of the engine interleave freely.
*/
module ListenerReload {
  import opened Common

  type Id = string

  datatype Group = Group(name: string, port: int, enabled: bool, skipTls: bool, forceHttps: bool)

  datatype Listener = Listener(port: nat, skipTls: bool, forceHttps: bool)

  type Table = map<Id, Group>

  /** The engine's cast of the stored port: the low sixteen bits. */
  function AsU16(port: int): (p: nat)
    ensures p < 65536 && exists wraps: int :: port == p + 65536 * wraps
    ensures 0 <= port < 65536 ==> p == port
  {
    assert port == port % 65536 + 65536 * (port / 65536);
    port % 65536
  }

  function ListenerOf(g: Group): Listener {
    Listener(AsU16(g.port), g.skipTls, g.forceHttps)
  }

  /** The listeners a table asks for. */
  function View(groups: Table): map<Id, Listener> {
    map id | id in groups && groups[id].enabled :: ListenerOf(groups[id])
  }

  /** What the listeners should be, column by column: one for every enabled group
      and no other, with its flags, on its port as far as a port can hold it. */
  ghost predicate ListensOn(listeners: map<Id, Listener>, groups: Table) {
    && (forall id :: id in listeners <==> id in groups && groups[id].enabled)
    && (forall id <- listeners ::
          && listeners[id].skipTls == groups[id].skipTls
          && listeners[id].forceHttps == groups[id].forceHttps
          && (0 <= groups[id].port <= 65535 ==> listeners[id].port == groups[id].port)
          && listeners[id].port <= 65535)
  }

  lemma ViewListens(groups: Table)
    ensures ListensOn(View(groups), groups)
  {
  }

  // ---------------------------------------------------------------- handlers

  datatype Patch = Patch(name: Option<string>, port: Option<int>, enabled: Option<bool>,
                         skipTls: Option<bool>, forceHttps: Option<bool>)

  datatype UpdateStage =
    | Exists | WriteName | ReadPort | CheckConflict | BindPort | WritePort
    | WriteEnabled | WriteSkipTls | WriteForceHttps | SendUpdate

  datatype CreateStage = CheckTaken | BindNew | Insert | SendCreate

  datatype DeleteStage = RemoveGroup | RemoveRules | SendDelete

  datatype ImportStage = Commit | LoadCerts | SendImport

  datatype Reply = Succeeded | BadRequest | NotFound | Failed

  /** A request being handled: what it was asked and the statement it is at. */
  datatype Handler =
    | Create(newId: Id, group: Group, cstage: CreateStage)
    | Update(id: Id, patch: Patch, ustage: UpdateStage)
    | Delete(id: Id, dstage: DeleteStage)
    | Import(groups: seq<(Id, Group)>, istage: ImportStage)
    | Finished(reply: Reply)

  function Rank(s: UpdateStage): nat {
    match s
    case Exists => 0
    case WriteName => 1
    case ReadPort => 2
    case CheckConflict => 3
    case BindPort => 4
    case WritePort => 5
    case WriteEnabled => 6
    case WriteSkipTls => 7
    case WriteForceHttps => 8
    case SendUpdate => 9
  }

  predicate ValidPort(port: int) { 1 <= port <= 65535 }

  predicate PortTaken(groups: Table, port: int, self: Option<Id>) {
    exists id <- groups :: groups[id].port == port && Some(id) != self
  }

  function Upsert(groups: Table, rows: seq<(Id, Group)>): Table
    decreases |rows|
  {
    if rows == [] then groups else Upsert(groups[rows[0].0 := rows[0].1], rows[1..])
  }

  /** UPDATE ... WHERE id = ?: no row, no effect. */
  function Amend(groups: Table, id: Id, f: Group -> Group): Table {
    if id in groups then groups[id := f(groups[id])] else groups
  }

  datatype Effect = Effect(next: Handler, groups: Table, sent: bool)

  /** One statement of a handler. The flag says how the outside world answers:
      whether the port can be bound, whether the import transaction succeeds. */
  function Act(h: Handler, groups: Table, flag: bool): Effect
    requires !h.Finished?
  {
    match h
    case Create(id, g, CheckTaken) =>
      if !ValidPort(g.port) || PortTaken(groups, g.port, None) then Effect(Finished(BadRequest), groups, false)
      else Effect(Create(id, g, BindNew), groups, false)
    case Create(id, g, BindNew) =>
      Effect(if flag then Create(id, g, Insert) else Finished(BadRequest), groups, false)
    case Create(id, g, Insert) =>
      if id in groups then Effect(Finished(Failed), groups, false)
      else Effect(Create(id, g, SendCreate), groups[id := g], false)
    case Create(_, _, SendCreate) => Effect(Finished(Succeeded), groups, true)
    case Update(id, p, stage) => ActUpdate(id, p, stage, groups, flag)
    case Delete(id, RemoveGroup) =>
      if id in groups then Effect(Delete(id, RemoveRules), groups - {id}, false)
      else Effect(Finished(NotFound), groups, false)
    case Delete(id, RemoveRules) => Effect(Delete(id, SendDelete), groups, false)
    case Delete(_, SendDelete) => Effect(Finished(Succeeded), groups, true)
    case Import(rows, Commit) =>
      if flag then Effect(Import(rows, LoadCerts), Upsert(groups, rows), false)
      else Effect(Finished(Failed), groups, false)
    case Import(rows, LoadCerts) => Effect(Import(rows, SendImport), groups, false)
    case Import(_, SendImport) => Effect(Finished(Succeeded), groups, true)
  }

  function ActUpdate(id: Id, p: Patch, stage: UpdateStage, groups: Table, flag: bool): Effect {
    match stage
    case Exists =>
      Effect(if id in groups then Update(id, p, WriteName) else Finished(NotFound), groups, false)
    case WriteName =>
      Effect(Update(id, p, if p.port.Some? then ReadPort else WriteEnabled),
             if p.name.Some? then Amend(groups, id, (g: Group) => g.(name := p.name.value)) else groups, false)
    case ReadPort =>
      if p.port.None? || !ValidPort(p.port.value) then Effect(Finished(BadRequest), groups, false)
      else if id !in groups then Effect(Finished(NotFound), groups, false)
      else Effect(Update(id, p, if groups[id].port != p.port.value then CheckConflict else WritePort), groups, false)
    case CheckConflict =>
      if p.port.Some? && PortTaken(groups, p.port.value, Some(id)) then Effect(Finished(BadRequest), groups, false)
      else Effect(Update(id, p, BindPort), groups, false)
    case BindPort =>
      Effect(if flag then Update(id, p, WritePort) else Finished(BadRequest), groups, false)
    case WritePort =>
      Effect(Update(id, p, WriteEnabled),
             if p.port.Some? then Amend(groups, id, (g: Group) => g.(port := p.port.value)) else groups, false)
    case WriteEnabled =>
      Effect(Update(id, p, WriteSkipTls),
             if p.enabled.Some? then Amend(groups, id, (g: Group) => g.(enabled := p.enabled.value)) else groups, false)
    case WriteSkipTls =>
      Effect(Update(id, p, WriteForceHttps),
             if p.skipTls.Some? then Amend(groups, id, (g: Group) => g.(skipTls := p.skipTls.value)) else groups, false)
    case WriteForceHttps =>
      Effect(Update(id, p, SendUpdate),
             if p.forceHttps.Some? then Amend(groups, id, (g: Group) => g.(forceHttps := p.forceHttps.value))
                 else groups, false)
    case SendUpdate => Effect(Finished(Succeeded), groups, true)
  }

  /** The handler is between a write that listeners depend on and its send. */
  predicate Wrote(h: Handler) {
    match h
    case Create(_, _, stage) => stage == SendCreate
    case Update(_, p, stage) =>
      || (p.port.Some? && Rank(stage) > Rank(WritePort))
      || (p.enabled.Some? && Rank(stage) > Rank(WriteEnabled))
      || (p.skipTls.Some? && Rank(stage) > Rank(WriteSkipTls))
      || (p.forceHttps.Some? && Rank(stage) > Rank(WriteForceHttps))
    case Delete(_, stage) => stage != RemoveGroup
    case Import(_, stage) => stage != Commit
    case Finished(_) => false
  }

  // ------------------------------------------------------------- whole system

  datatype EnginePc =
    | Waiting                                  // in changed().await
    | Draining
    | Sleeping
    | Loading
    | Installing(pending: map<Id, Listener>)   // rows fetched, not yet inserted

  /** loaded tells whether the last SELECT of the engine succeeded. */
  datatype State = State(groups: Table, handlers: map<nat, Handler>, version: nat,
                         seen: nat, pc: EnginePc, listeners: map<Id, Listener>, loaded: bool)

  datatype EngineStep = Notice | Drain | Wake | Fetch(ok: bool) | InstallOne(id: Id) | Settle

  datatype Step =
    | Arrive(who: nat, request: Handler)
    | Handle(who: nat, flag: bool)
    | Engine(move: EngineStep)

  /** Requests start at their first statement. */
  predicate Fresh(h: Handler) {
    match h
    case Create(_, _, stage) => stage == CheckTaken
    case Update(_, _, stage) => stage == Exists
    case Delete(_, stage) => stage == RemoveGroup
    case Import(_, stage) => stage == Commit
    case Finished(_) => false
  }

  predicate EngineCan(s: State, e: EngineStep) {
    match e
    case Notice => s.pc == Waiting && s.seen < s.version
    case Drain => s.pc == Draining
    case Wake => s.pc == Sleeping
    case Fetch(_) => s.pc == Loading
    case InstallOne(id) => s.pc.Installing? && id in s.pc.pending
    case Settle => s.pc == Installing(map[])
  }

  function EngineDo(s: State, e: EngineStep): State
    requires EngineCan(s, e)
  {
    match e
    case Notice => s.(seen := s.version, pc := Draining)
    case Drain => s.(listeners := map[], pc := Sleeping)
    case Wake => s.(pc := Loading)
    case Fetch(ok) =>
      if ok then s.(pc := Installing(View(s.groups)), loaded := true)
      else s.(pc := Waiting, loaded := false)
    case InstallOne(id) =>
      s.(listeners := s.listeners[id := s.pc.pending[id]], pc := Installing(s.pc.pending - {id}))
    case Settle => s.(pc := Waiting)
  }

  predicate Can(s: State, step: Step) {
    match step
    case Arrive(who, h) => who !in s.handlers && Fresh(h)
    case Handle(who, _) => who in s.handlers && !s.handlers[who].Finished?
    case Engine(e) => EngineCan(s, e)
  }

  function Do(s: State, step: Step): State
    requires Can(s, step)
  {
    match step
    case Arrive(who, h) => s.(handlers := s.handlers[who := h])
    case Handle(who, flag) =>
      var e := Act(s.handlers[who], s.groups, flag);
      s.(groups := e.groups, handlers := s.handlers[who := e.next],
         version := if e.sent then s.version + 1 else s.version)
    case Engine(e) => EngineDo(s, e)
  }

  /** Start-up: subscribed to the channel, first load still to come. Handlers may
      already be under way. */
  predicate Init(s: State) {
    s.seen == s.version && s.pc == Loading && s.listeners == map[]
  }

  /** These steps, each one possible when it is taken, lead from s to end. */
  predicate Leads(s: State, steps: seq<Step>, end: State)
    decreases |steps|
  {
    if steps == [] then s == end
    else Can(s, steps[0]) && Leads(Do(s, steps[0]), steps[1..], end)
  }

  predicate IsRun(start: State, steps: seq<Step>, end: State) {
    Init(start) && Leads(start, steps, end)
  }

  // ------------------------------------------------------------------ safety

  predicate Owed(s: State) {
    s.seen < s.version || exists who <- s.handlers :: Wrote(s.handlers[who])
  }

  /** What the engine will be listening on once it has nothing more to do. */
  function Destined(s: State): map<Id, Listener> {
    match s.pc
    case Installing(pending) => s.listeners + pending
    case _ => s.listeners
  }

  function Promised(s: State): map<Id, Listener> {
    if s.loaded then View(s.groups) else map[]
  }

  ghost predicate Inv(s: State) {
    && s.seen <= s.version
    && (s.pc.Waiting? || s.pc.Installing? ==> Destined(s) == Promised(s) || (Owed(s) && s.loaded))
    && (s.pc.Installing? ==> s.loaded && s.listeners.Keys !! s.pc.pending.Keys)
    && (s.pc.Loading? || s.pc.Sleeping? ==> s.listeners == map[])
  }

  /** A statement changes what listeners should be only by making its handler one
      that has written; a handler stops having written only by sending. */
  lemma ActKeepsView(h: Handler, groups: Table, flag: bool)
    requires !h.Finished?
    ensures var e := Act(h, groups, flag);
            && (View(e.groups) != View(groups) ==> Wrote(e.next))
            && (Wrote(h) && !Wrote(e.next) ==> e.sent)
            && (e.sent ==> e.groups == groups)
  {
    hide View, Upsert, PortTaken, ActUpdate;
    if h.Update? {
      ActUpdateKeepsView(h.id, h.patch, h.ustage, groups, flag);
    }
  }

  lemma ActUpdateKeepsView(id: Id, p: Patch, stage: UpdateStage, groups: Table, flag: bool)
    ensures var e := ActUpdate(id, p, stage, groups, flag);
            && (View(e.groups) != View(groups) ==> Wrote(e.next))
            && (Wrote(Update(id, p, stage)) && !Wrote(e.next) ==> e.sent)
            && (e.sent ==> e.groups == groups)
  {
    hide View, PortTaken;
    if stage == WriteName {
      hide Amend;
      NameKeepsView(groups, id, if p.name.Some? then p.name.value else "");
    }
  }

  lemma NameKeepsView(groups: Table, id: Id, name: string)
    ensures View(Amend(groups, id, (g: Group) => g.(name := name))) == View(groups)
  {
  }

  lemma HandleKeepsInv(s: State, who: nat, flag: bool)
    requires Inv(s) && Can(s, Handle(who, flag))
    ensures Inv(Do(s, Handle(who, flag)))
  {
    var t := Do(s, Handle(who, flag));
    var e := Act(s.handlers[who], s.groups, flag);
    ActKeepsView(s.handlers[who], s.groups, flag);
    if Wrote(e.next) {
      assert Wrote(t.handlers[who]);
    }
    if Owed(s) && s.seen == s.version {
      var w :| w in s.handlers && Wrote(s.handlers[w]);
      if w != who { assert Wrote(t.handlers[w]); }
    }
  }

  lemma EngineKeepsInv(s: State, e: EngineStep)
    requires Inv(s) && EngineCan(s, e)
    ensures Inv(EngineDo(s, e))
  {
    var t := EngineDo(s, e);
    match e {
      case Fetch(ok) =>
        if ok { assert t.listeners + t.pc.pending == View(s.groups); }
      case InstallOne(id) =>
        assert t.listeners + t.pc.pending == s.listeners + s.pc.pending;
      case Settle =>
        assert s.listeners + map[] == s.listeners;
      case _ =>
    }
  }

  lemma StepKeepsInv(s: State, step: Step)
    requires Inv(s) && Can(s, step)
    ensures Inv(Do(s, step))
  {
    match step {
      case Arrive(who, h) =>
        assert forall w <- s.handlers :: Do(s, step).handlers[w] == s.handlers[w];
      case Handle(who, flag) => HandleKeepsInv(s, who, flag);
      case Engine(e) => EngineKeepsInv(s, e);
    }
  }

  lemma {:induction false} RunKeepsInv(s: State, steps: seq<Step>, end: State)
    requires Inv(s) && Leads(s, steps, end)
    ensures Inv(end)
    decreases |steps|
  {
    if steps != [] {
      StepKeepsInv(s, steps[0]);
      RunKeepsInv(Do(s, steps[0]), steps[1..], end);
    }
  }

  /** Nothing is left to do: the engine waits, has seen every signal, and no
      handler has written without having sent. */
  predicate Quiet(s: State) {
    s.pc == Waiting && !Owed(s)
  }

  /** No update is lost. In every run, a quiet engine listens on exactly the
      enabled groups with their current port and flags, unless its last query
      failed, and then on nothing. */
  lemma NoLostReload(start: State, steps: seq<Step>, end: State)
    requires IsRun(start, steps, end) && Quiet(end)
    ensures end.loaded ==> end.listeners == View(end.groups) && ListensOn(end.listeners, end.groups)
    ensures !end.loaded ==> end.listeners == map[]
  {
    RunKeepsInv(start, steps, end);
    ViewListens(end.groups);
  }

  /** In particular once every request is answered and every signal seen. */
  lemma AllAnsweredListens(start: State, steps: seq<Step>, end: State)
    requires IsRun(start, steps, end) && end.loaded && end.pc == Waiting && end.seen == end.version
    requires forall who <- end.handlers :: end.handlers[who].Finished?
    ensures ListensOn(end.listeners, end.groups)
  {
    NoLostReload(start, steps, end);
  }

  /** A request owes no signal before its first statement, once answered, or for a
      new name alone. */
  lemma NothingOwed(h: Handler)
    ensures Fresh(h) || h.Finished? ==> !Wrote(h)
    ensures h.Update? && h.patch == Patch(h.patch.name, None, None, None, None) ==> !Wrote(h)
  {
  }

  /** The whole promise, exactly: it holds when quiet if and only if the last
      query went through or there is nothing to listen on. */
  lemma NoLostReloadExact(start: State, steps: seq<Step>, end: State)
    requires IsRun(start, steps, end) && Quiet(end)
    ensures end.listeners == View(end.groups) <==> end.loaded || forall id <- end.groups :: !end.groups[id].enabled
  {
    NoLostReload(start, steps, end);
    if id :| id in end.groups && end.groups[id].enabled {
      assert id in View(end.groups);
    }
  }

  /** A failed query at start-up leaves an enabled group without a listener, and
      the engine quiet. */
  lemma FailedQueryLosesListeners(id: Id, g: Group) returns (start: State, end: State)
    requires g.enabled
    ensures IsRun(start, [Engine(Fetch(false))], end) && Quiet(end)
    ensures id in View(end.groups) && end.listeners == map[]
  {
    start := State(map[id := g], map[], 0, 0, Loading, map[], true);
    end := Do(start, Engine(Fetch(false)));
    var steps := [Engine(Fetch(false))];
    assert steps[1..] == [];
  }

  /** Up to its port checks an update, even one whose name is written, changes no
      listener and sends nothing; only there can it be turned away. */
  lemma EarlyStageIsHarmless(id: Id, p: Patch, stage: UpdateStage, groups: Table, flag: bool)
    ensures var e := ActUpdate(id, p, stage, groups, flag);
            && (Rank(stage) <= Rank(BindPort) ==> View(e.groups) == View(groups) && !e.sent)
            && (Rank(stage) > Rank(BindPort) ==> Late(e.next))
  {
    hide View, PortTaken;
    NameKeepsView(groups, id, if p.name.Some? then p.name.value else "");
  }

  /** The update is past its port checks, or went through. */
  predicate Late(h: Handler) {
    (h.Update? && Rank(h.ustage) > Rank(BindPort)) || h == Finished(Succeeded)
  }

  lemma {:induction false} LateStaysLate(s: State, steps: seq<Step>, end: State, who: nat)
    requires Leads(s, steps, end) && who in s.handlers && Late(s.handlers[who])
    ensures who in end.handlers && Late(end.handlers[who])
    decreases |steps|
  {
    hide View, Upsert, ActUpdate, EngineDo, EngineCan;
    if steps != [] {
      var h := s.handlers[who];
      if steps[0].Handle? && steps[0].who == who {
        EarlyStageIsHarmless(h.id, h.patch, h.ustage, s.groups, steps[0].flag);
      }
      EngineKeepsHandlers(s, steps[0]);
      LateStaysLate(Do(s, steps[0]), steps[1..], end, who);
    }
  }

  lemma EngineKeepsHandlers(s: State, step: Step)
    requires Can(s, step)
    ensures var t := Do(s, step);
            step.Engine? ==> t.handlers == s.handlers && t.groups == s.groups && t.version == s.version
  {
  }

  /** No statement of this handler, in this run, changes what should be listened
      on, or sends. */
  predicate Harmless(s: State, steps: seq<Step>, who: nat)
    decreases |steps|
  {
    steps != [] && Can(s, steps[0]) ==>
      var next := Do(s, steps[0]);
      && (steps[0].Handle? && steps[0].who == who ==> View(next.groups) == View(s.groups) && next.version == s.version)
      && Harmless(next, steps[1..], who)
  }

  /** A whole update that ends rejected, in whatever company, is harmless. */
  lemma {:induction false} RejectedUpdateIsHarmless(s: State, steps: seq<Step>, end: State, who: nat)
    requires Leads(s, steps, end) && who in s.handlers && (s.handlers[who].Update? || s.handlers[who].Finished?)
    requires who in end.handlers && end.handlers[who].Finished? && end.handlers[who].reply != Succeeded
    ensures Harmless(s, steps, who)
    decreases |steps|
  {
    hide View, Upsert, ActUpdate, EngineDo, EngineCan;
    if steps != [] {
      var h, next := s.handlers[who], Do(s, steps[0]);
      if Late(h) {
        LateStaysLate(s, steps, end, who);
        assert false;
      }
      if steps[0].Handle? && steps[0].who == who {
        EarlyStageIsHarmless(h.id, h.patch, h.ustage, s.groups, steps[0].flag);
        UpdateStaysUpdate(h.id, h.patch, h.ustage, s.groups, steps[0].flag);
      }
      EngineKeepsHandlers(s, steps[0]);
      RejectedUpdateIsHarmless(next, steps[1..], end, who);
    }
  }

  lemma UpdateStaysUpdate(id: Id, p: Patch, stage: UpdateStage, groups: Table, flag: bool)
    ensures var e := ActUpdate(id, p, stage, groups, flag); e.next.Update? || e.next.Finished?
  {
    hide View, PortTaken, Amend;
  }

  // ---------------------------------------------------------------- progress

  /** Engine steps still needed once no handler is left to act. */
  function Remaining(s: State): nat {
    var again := if s.seen < s.version then |View(s.groups)| + 5 else 0;
    match s.pc
    case Waiting => again
    case Draining => again + |View(s.groups)| + 4
    case Sleeping => again + |View(s.groups)| + 3
    case Loading => again + |View(s.groups)| + 2
    case Installing(pending) => again + |pending| + 1
  }

  predicate Idle(s: State) {
    forall who <- s.handlers :: s.handlers[who].Finished?
  }

  /** With no handler left, every engine step brings rest closer. */
  lemma EngineProgress(s: State, e: EngineStep)
    requires s.seen <= s.version && EngineCan(s, e)
    ensures Remaining(EngineDo(s, e)) < Remaining(s)
    ensures EngineDo(s, e).handlers == s.handlers && EngineDo(s, e).groups == s.groups
  {
    hide View;
    if e.InstallOne? {
      var rest := s.pc.pending - {e.id};
      assert rest.Keys == s.pc.pending.Keys - {e.id};
      assert |rest| == |rest.Keys| && |s.pc.pending| == |s.pc.pending.Keys|;
    }
  }

  /** Short of rest, the engine always has a step to take. */
  lemma EngineNotStuck(s: State)
    requires s.seen <= s.version
    ensures Remaining(s) > 0 ==> exists e :: EngineCan(s, e)
    ensures Idle(s) && Remaining(s) == 0 ==> Quiet(s)
  {
    hide View;
    match s.pc {
      case Waiting => assert s.seen < s.version ==> EngineCan(s, Notice);
      case Draining => assert EngineCan(s, Drain);
      case Sleeping => assert EngineCan(s, Wake);
      case Loading => assert EngineCan(s, Fetch(true));
      case Installing(pending) =>
        if pending == map[] {
          assert EngineCan(s, Settle);
        } else {
          var id :| id in pending;
          assert EngineCan(s, InstallOne(id));
        }
    }
  }

  predicate EngineSchedule(s: State, es: seq<EngineStep>)
    decreases |es|
  {
    es == [] || (EngineCan(s, es[0]) && EngineSchedule(EngineDo(s, es[0]), es[1..]))
  }

  function EngineEnd(s: State, es: seq<EngineStep>): State
    requires EngineSchedule(s, es)
    decreases |es|
  {
    if es == [] then s else EngineEnd(EngineDo(s, es[0]), es[1..])
  }

  /** The engine goes on for as long as it can. */
  ghost predicate Maximal(s: State, es: seq<EngineStep>) {
    EngineSchedule(s, es) && forall e :: !EngineCan(EngineEnd(s, es), e)
  }

  /** Whether the last query went through, the one before the schedule if it has none. */
  function LoadedAfter(loaded: bool, es: seq<EngineStep>): bool
    decreases |es|
  {
    if es == [] then loaded
    else LoadedAfter(if es[0].Fetch? then es[0].ok else loaded, es[1..])
  }

  /** No schedule of the engine alone outlasts the bound. */
  lemma {:induction false} NoEndlessReload(s: State, es: seq<EngineStep>)
    requires s.seen <= s.version && EngineSchedule(s, es)
    ensures |es| + Remaining(EngineEnd(s, es)) <= Remaining(s)
    ensures EngineEnd(s, es).handlers == s.handlers && EngineEnd(s, es).groups == s.groups
    decreases |es|
  {
    hide Remaining;
    if es != [] {
      EngineProgress(s, es[0]);
      NoEndlessReload(EngineDo(s, es[0]), es[1..]);
    }
  }

  lemma {:induction false} EngineRun(s: State, es: seq<EngineStep>)
    requires EngineSchedule(s, es)
    ensures Leads(s, AsSteps(es), EngineEnd(s, es))
    ensures EngineEnd(s, es).loaded == LoadedAfter(s.loaded, es)
    decreases |es|
  {
    hide View;
    if es != [] {
      EngineRun(EngineDo(s, es[0]), es[1..]);
      assert AsSteps(es)[1..] == AsSteps(es[1..]);
    }
  }

  lemma {:induction false} LoadedByFetches(loaded: bool, es: seq<EngineStep>)
    requires Fetch(false) !in es
    ensures LoadedAfter(loaded, es) == (loaded || Fetch(true) in es)
    decreases |es|
  {
    if es != [] {
      assert es == [es[0]] + es[1..];
      LoadedByFetches(if es[0].Fetch? then es[0].ok else loaded, es[1..]);
    }
  }

  /** From any reachable state with no handler left, however the engine goes on: it
      stops within a bound known in advance, at rest, and listens on what the table
      asks for when its last query went through, on nothing otherwise. So with no
      query failing it listens as it should, if it makes one or its last one went
      through. */
  lemma {:induction false} SettlesInTime(start: State, steps: seq<Step>, s: State, es: seq<EngineStep>)
    requires IsRun(start, steps, s) && Idle(s) && Maximal(s, es)
    ensures |es| <= Remaining(s)
    ensures var end := EngineEnd(s, es);
            && Quiet(end) && end.groups == s.groups
            && end.listeners == (if LoadedAfter(s.loaded, es) then View(s.groups) else map[])
    ensures LoadedAfter(s.loaded, es) ==> ListensOn(EngineEnd(s, es).listeners, s.groups)
    ensures Fetch(false) !in es && (s.loaded || Fetch(true) in es) ==> EngineEnd(s, es).listeners == View(s.groups)
  {
    ViewListens(s.groups);
    hide View, Remaining, EngineCan, Leads;
    var end := EngineEnd(s, es);
    RunKeepsInv(start, steps, s);
    NoEndlessReload(s, es);
    EngineRun(s, es);
    RunKeepsInv(s, AsSteps(es), end);
    assert Remaining(end) == 0 && Quiet(end) by {
      EngineNotStuck(end);
    }
    if Fetch(false) !in es {
      LoadedByFetches(s.loaded, es);
    }
  }

  /** And it can go on so: some schedule makes no failing query and cannot be
      continued. */
  lemma {:induction false} CanSettle(s: State) returns (es: seq<EngineStep>)
    requires s.seen <= s.version
    ensures Maximal(s, es) && Fetch(false) !in es
    decreases Remaining(s)
  {
    hide EngineDo, Remaining;
    if e :| EngineCan(s, e) {
      var good := if e.Fetch? then Fetch(true) else e;
      EngineProgress(s, good);
      EngineKeepsCount(s, good);
      var rest := CanSettle(EngineDo(s, good));
      es := [good] + rest;
      assert es[0] == good && es[1..] == rest;
      assert EngineSchedule(s, es) && EngineEnd(s, es) == EngineEnd(EngineDo(s, good), rest);
    } else {
      es := [];
    }
  }

  lemma EngineKeepsCount(s: State, e: EngineStep)
    requires s.seen <= s.version && EngineCan(s, e)
    ensures EngineDo(s, e).seen <= EngineDo(s, e).version
  {
  }

  function AsSteps(es: seq<EngineStep>): (r: seq<Step>)
    ensures |r| == |es|
  {
    if es == [] then [] else [Engine(es[0])] + AsSteps(es[1..])
  }

  // ------------------------------------------------------------ ports of groups

  ghost predicate DistinctPorts(groups: Table) {
    forall a <- groups, b <- groups :: groups[a].port == groups[b].port ==> a == b
  }

  /** The port a handler has checked and not yet written, and for which group. */
  function Claim(h: Handler, groups: Table): Option<(int, Id)> {
    match h
    case Create(id, g, stage) => if stage == BindNew || stage == Insert then Some((g.port, id)) else None
    case Update(id, p, stage) =>
      if (stage == BindPort || stage == WritePort) && p.port.Some?
          && id in groups then Some((p.port.value, id)) else None
    case _ => None
  }

  /** Two handlers have checked one port for two groups. */
  ghost predicate Shared(s: State) {
    exists v <- s.handlers, w <- s.handlers ::
      var a, b := Claim(s.handlers[v], s.groups), Claim(s.handlers[w], s.groups);
      a.Some? && b.Some? && a.value.0 == b.value.0 && a.value.1 != b.value.1
  }

  predicate NotYet(h: Handler) {
    h.Create? && h.cstage != SendCreate
  }

  function Meant(h: Handler): Option<Id> {
    match h
    case Create(id, _, _) => if NotYet(h) then Some(id) else None
    case Update(id, _, _) => Some(id)
    case _ => None
  }

  /** The id of a group about to be created is new: no row and no other request has
      it. Imports, which check no port, are not under way. */
  ghost predicate Ordinary(s: State) {
    && (forall w <- s.handlers :: !s.handlers[w].Import?)
    && (forall w <- s.handlers :: NotYet(s.handlers[w]) ==> s.handlers[w].newId !in s.groups)
    && (forall v <- s.handlers, w <- s.handlers ::
          v != w && NotYet(s.handlers[w]) ==> Meant(s.handlers[v]) != Some(s.handlers[w].newId))
  }

  /** Ports are distinct, and those checked are still free. */
  ghost predicate PortsReady(s: State) {
    && DistinctPorts(s.groups)
    && (forall w <- s.handlers :: ClaimFree(s.handlers[w], s.groups))
  }

  predicate ClaimFree(h: Handler, groups: Table) {
    var c := Claim(h, groups);
    c.Some? ==> !PortTaken(groups, c.value.0, Some(c.value.1))
  }

  /** What one statement does to the ports, when no other handler has a claim on
      what it writes. */
  lemma ActKeepsPorts(h: Handler, groups: Table, flag: bool)
    requires !h.Finished? && !h.Import? && DistinctPorts(groups) && ClaimFree(h, groups)
    requires NotYet(h) ==> h.newId !in groups
    ensures var e := Act(h, groups, flag);
            DistinctPorts(e.groups) && ClaimFree(e.next, e.groups)
  {
    if h.Update? {
      UpdateKeepsPorts(h.id, h.patch, h.ustage, groups, flag);
    }
  }

  /** An update's statements touch its own row, and its port in one of them. */
  lemma UpdateRows(id: Id, p: Patch, stage: UpdateStage, groups: Table, flag: bool)
    ensures var e := ActUpdate(id, p, stage, groups, flag);
            && e.groups.Keys == groups.Keys && (forall b <- groups :: b != id ==> e.groups[b] == groups[b])
            && (id in groups && e.groups[id].port != groups[id].port ==>
                  stage == WritePort && p.port.Some? && e.groups[id].port == p.port.value)
  {
    hide PortTaken;
  }

  lemma UpdateKeepsPorts(id: Id, p: Patch, stage: UpdateStage, groups: Table, flag: bool)
    requires DistinctPorts(groups) && ClaimFree(Update(id, p, stage), groups)
    ensures var e := ActUpdate(id, p, stage, groups, flag);
            DistinctPorts(e.groups) && ClaimFree(e.next, e.groups)
  {
    UpdateRows(id, p, stage, groups, flag);
    ClaimOfUpdate(id, p, stage, groups, flag);
    hide ActUpdate;
    var e := ActUpdate(id, p, stage, groups, flag);
    assert DistinctPorts(e.groups);
  }

  lemma ClaimOfUpdate(id: Id, p: Patch, stage: UpdateStage, groups: Table, flag: bool)
    requires DistinctPorts(groups) && ClaimFree(Update(id, p, stage), groups)
    ensures var e := ActUpdate(id, p, stage, groups, flag); ClaimFree(e.next, e.groups)
  {
    hide Amend;
  }

  /** Which row a statement changes, and to which port: the one it has a claim on. */
  lemma ActWrites(h: Handler, groups: Table, flag: bool)
    requires !h.Finished? && !h.Import? && (NotYet(h) ==> h.newId !in groups)
    ensures var e := Act(h, groups, flag);
            forall b <- e.groups | b !in groups || e.groups[b].port != groups[b].port ::
              && Claim(h, groups) == Some((e.groups[b].port, b))
              && (b !in groups ==> NotYet(h) && h.newId == b)
  {
    hide PortTaken;
  }

  /** The claim of another handler stays what it was, and free. */
  lemma OtherClaimStays(s: State, who: nat, flag: bool, w: nat)
    requires Ordinary(s) && PortsReady(s) && !Shared(s) && Can(s, Handle(who, flag)) && w in s.handlers && w != who
    ensures var e := Act(s.handlers[who], s.groups, flag);
            ClaimFree(s.handlers[w], e.groups)
    ensures var e := Act(s.handlers[who], s.groups, flag);
            Claim(s.handlers[w], e.groups).Some? ==> Claim(s.handlers[w], e.groups) == Claim(s.handlers[w], s.groups)
  {
    var h, other := s.handlers[who], s.handlers[w];
    var e := Act(h, s.groups, flag);
    ActWrites(h, s.groups, flag);
    hide Act, ActUpdate;
    var c := Claim(other, e.groups);
    if c.Some? {
      assert Meant(other) == Some(c.value.1);
      assert forall b <- e.groups :: b !in s.groups ==> Meant(other) != Some(b);
      assert Claim(other, s.groups) == c;
      forall b <- e.groups | e.groups[b].port == c.value.0 ensures b == c.value.1 {
        if b in s.groups && e.groups[b].port == s.groups[b].port {
          assert ClaimFree(other, s.groups);
        } else {
          assert Claim(h, s.groups) == Some((c.value.0, b));
        }
      }
    }
  }

  lemma HandleKeepsPorts(s: State, who: nat, flag: bool)
    requires Ordinary(s) && PortsReady(s) && !Shared(s) && Can(s, Handle(who, flag))
    ensures PortsReady(Do(s, Handle(who, flag)))
  {
    var h := s.handlers[who];
    ActKeepsPorts(h, s.groups, flag);
    var t := Do(s, Handle(who, flag));
    forall w <- t.handlers ensures ClaimFree(t.handlers[w], t.groups) {
      if w != who { OtherClaimStays(s, who, flag, w); }
    }
  }

  /** A step that leaves ports distinct: no claim is shared when it is taken. */
  ghost predicate Careful(s: State, steps: seq<Step>)
    decreases |steps|
  {
    Ordinary(s) && (steps != [] && Can(s, steps[0]) ==> !Shared(s) && Careful(Do(s, steps[0]), steps[1..]))
  }

  /** Over any run of creates, updates and deletes, ports stay distinct as long as
      no two handlers have checked one port for two groups at the same time. */
  lemma {:induction false} PortsStayDistinct(s: State, steps: seq<Step>, end: State)
    requires Leads(s, steps, end) && Careful(s, steps) && PortsReady(s)
    ensures PortsReady(end)
    decreases |steps|
  {
    hide PortsReady, Ordinary, Shared, EngineDo, EngineCan, Act;
    if steps != [] {
      match steps[0] {
        case Handle(who, flag) => HandleKeepsPorts(s, who, flag);
        case Arrive(who, h) => ArrivalKeepsPorts(s, who, h);
        case Engine(e) =>
          EngineKeepsHandlers(s, steps[0]);
          SameHandlers(s, Do(s, steps[0]));
      }
      PortsStayDistinct(Do(s, steps[0]), steps[1..], end);
    }
  }

  lemma ArrivalKeepsPorts(s: State, who: nat, h: Handler)
    requires PortsReady(s) && Can(s, Arrive(who, h))
    ensures PortsReady(Do(s, Arrive(who, h)))
  {
    hide PortTaken;
  }

  lemma SameHandlers(s: State, t: State)
    requires PortsReady(s) && t.handlers == s.handlers && t.groups == s.groups
    ensures PortsReady(t)
  {
  }

  // ------------------------------------------------------ and when they do not

  /** The statements that take a handler from its check to its write. */
  lemma ClaimIsWritten(s: State, w: nat) returns (steps: seq<Step>, end: State)
    requires w in s.handlers && Claim(s.handlers[w], s.groups).Some?
    requires NotYet(s.handlers[w]) ==> s.handlers[w].newId !in s.groups
    ensures Leads(s, steps, end) && forall step <- steps :: step == Handle(w, true)
    ensures var (port, id) := Claim(s.handlers[w], s.groups).value;
            && id in end.groups && end.groups[id].port == port
            && end.groups == s.groups[id := end.groups[id]]
            && w in end.handlers && end.handlers == s.handlers[w := end.handlers[w]]
  {
    hide PortTaken;
    var h := s.handlers[w];
    if (h.Create? && h.cstage == BindNew) || (h.Update? && h.ustage == BindPort) {
      var mid := Do(s, Handle(w, true));
      end := Do(mid, Handle(w, true));
      steps := [Handle(w, true), Handle(w, true)];
      var none: seq<Step> := [];
      assert steps[1..] == [Handle(w, true)] && steps[1..][1..] == none;
      assert Leads(mid, steps[1..], end);
    } else {
      end := Do(s, Handle(w, true));
      steps := [Handle(w, true)];
      assert steps[1..] == [];
    }
  }

  lemma {:induction false} LeadsThrough(s: State, steps: seq<Step>, mid: State, more: seq<Step>, end: State)
    requires Leads(s, steps, mid) && Leads(mid, more, end)
    ensures Leads(s, steps + more, end)
    decreases |steps|
  {
    hide Do, Can;
    if steps == [] {
      assert steps + more == more;
    } else {
      LeadsThrough(Do(s, steps[0]), steps[1..], mid, more, end);
      assert (steps + more)[1..] == steps[1..] + more;
    }
  }

  /** Two handlers that share a claim write one port into two groups, if nothing
      comes between. */
  lemma SharedClaimClashes(s: State) returns (steps: seq<Step>, end: State)
    requires Ordinary(s) && Shared(s)
    ensures Leads(s, steps, end) && !DistinctPorts(end.groups)
    ensures forall step <- steps ::
              step.Handle? && step.who in s.handlers && Claim(s.handlers[step.who], s.groups).Some?
  {
    var v, w :| v in s.handlers && w in s.handlers &&
      var a, b := Claim(s.handlers[v], s.groups), Claim(s.handlers[w], s.groups);
      a.Some? && b.Some? && a.value.0 == b.value.0 && a.value.1 != b.value.1;
    steps, end := WriteBoth(s, v, w);
  }

  lemma WriteBoth(s: State, v: nat, w: nat) returns (steps: seq<Step>, end: State)
    requires Ordinary(s) && v in s.handlers && w in s.handlers
    requires Claim(s.handlers[v], s.groups).Some? && Claim(s.handlers[w], s.groups).Some?
    requires Claim(s.handlers[v], s.groups).value.0 == Claim(s.handlers[w], s.groups).value.0
    requires Claim(s.handlers[v], s.groups).value.1 != Claim(s.handlers[w], s.groups).value.1
    ensures Leads(s, steps, end) && !DistinctPorts(end.groups)
    ensures forall step <- steps :: step == Handle(v, true) || step == Handle(w, true)
  {
    var (port, a) := Claim(s.handlers[v], s.groups).value;
    var b := Claim(s.handlers[w], s.groups).value.1;
    assert NotYet(s.handlers[v]) ==> s.handlers[v].newId !in s.groups;
    assert NotYet(s.handlers[w]) ==> s.handlers[w].newId !in s.groups && s.handlers[w].newId == b;
    hide Ordinary;
    var first, mid := ClaimIsWritten(s, v);
    assert mid.handlers[w] == s.handlers[w] && Claim(mid.handlers[w], mid.groups) == Some((port, b));
    hide Claim;
    var second;
    second, end := ClaimIsWritten(mid, w);
    LeadsThrough(s, first, mid, second, end);
    steps := first + second;
    assert end.groups[a].port == port == end.groups[b].port;
  }

  /** Past its check, on its way to its write or beyond. */
  predicate Past(h: Handler) {
    match h
    case Create(_, _, stage) => stage != CheckTaken
    case Update(_, _, stage) => Rank(stage) >= Rank(BindPort)
    case Finished(_) => true
    case _ => false
  }

  lemma PastStays(h: Handler, groups: Table, flag: bool)
    requires Past(h) && !h.Finished?
    ensures var e := Act(h, groups, flag);
            && Past(e.next) && !e.next.Import?
            && (Claim(e.next, e.groups).Some? ==> Claim(e.next, e.groups) == Claim(h, groups))
            && (e.next.Create? ==> h.Create? && e.next.newId == h.newId)
            && (NotYet(e.next) ==> NotYet(h) && e.groups == groups)
            && (Meant(e.next).Some? ==> Meant(e.next) == Meant(h))
            && (forall b <- e.groups :: b in groups || (NotYet(h) && b == h.newId))
  {
    hide PortTaken;
  }

  lemma PastKeepsOrdinary(s: State, who: nat, flag: bool)
    requires Ordinary(s) && Can(s, Handle(who, flag)) && Past(s.handlers[who])
    ensures Ordinary(Do(s, Handle(who, flag)))
  {
    var h := s.handlers[who];
    var t := Do(s, Handle(who, flag));
    PastStays(h, s.groups, flag);
    hide Act, PortTaken;
    assert forall w <- t.handlers :: w != who ==> t.handlers[w] == s.handlers[w];
    forall w <- t.handlers | NotYet(t.handlers[w]) ensures t.handlers[w].newId !in t.groups {
      if w != who {
        assert Meant(h) != Some(s.handlers[w].newId);
      }
    }
  }

  lemma PastSharesNothing(s: State, who: nat, flag: bool)
    requires Ordinary(s) && PortsReady(s) && !Shared(s) && Can(s, Handle(who, flag)) && Past(s.handlers[who])
    ensures !Shared(Do(s, Handle(who, flag)))
  {
    var t := Do(s, Handle(who, flag));
    PastStays(s.handlers[who], s.groups, flag);
    assert t.handlers.Keys == s.handlers.Keys;
    forall w <- t.handlers
      ensures Claim(t.handlers[w], t.groups).Some? ==> Claim(t.handlers[w], t.groups) == Claim(s.handlers[w], s.groups)
    {
      if w != who { OtherClaimStays(s, who, flag, w); }
    }
    hide Act, Ordinary, PortsReady, Claim, Past;
  }

  lemma PastKeeps(s: State, who: nat, flag: bool)
    requires Ordinary(s) && PortsReady(s) && !Shared(s) && Can(s, Handle(who, flag)) && Past(s.handlers[who])
    ensures var t := Do(s, Handle(who, flag)); Ordinary(t) && PortsReady(t) && !Shared(t)
  {
    hide Act, Ordinary, PortsReady, Shared, Claim, Past, Do;
    HandleKeepsPorts(s, who, flag);
    PastKeepsOrdinary(s, who, flag);
    PastSharesNothing(s, who, flag);
  }

  ghost predicate OnlyPast(s: State, steps: seq<Step>) {
    forall step <- steps :: step.Handle? && step.who in s.handlers && Past(s.handlers[step.who])
  }

  lemma {:induction false} PastRun(s: State, steps: seq<Step>, end: State)
    requires Ordinary(s) && PortsReady(s) && !Shared(s) && Leads(s, steps, end) && OnlyPast(s, steps)
    ensures DistinctPorts(end.groups)
    decreases |steps|
  {
    if steps != [] {
      var who, flag := steps[0].who, steps[0].flag;
      assert steps[0] in steps && forall step <- steps[1..] :: step in steps;
      PastKeeps(s, who, flag);
      PastStays(s.handlers[who], s.groups, flag);
      hide Ordinary, PortsReady, Shared, Act, Past, Claim;
      PastRun(Do(s, steps[0]), steps[1..], end);
    }
  }

  /** However the handlers that are past their port check go on, ports stay
      distinct, if and only if no two of them have checked one port for two groups. */
  lemma {:induction false} PortsClashExactly(s: State)
    requires Ordinary(s) && PortsReady(s)
    ensures (forall steps, end :: Leads(s, steps, end) && OnlyPast(s, steps) ==> DistinctPorts(end.groups)) <==>
        !Shared(s)
  {
    hide Leads, DistinctPorts, Shared, Ordinary, PortsReady;
    if Shared(s) {
      var steps, end := SharedClaimClashes(s);
      assert forall h :: Claim(h, s.groups).Some? ==> Past(h);
      assert OnlyPast(s, steps);
    } else {
      forall steps, end | Leads(s, steps, end) && OnlyPast(s, steps) ensures DistinctPorts(end.groups) {
        PastRun(s, steps, end);
      }
    }
  }

  /** A run from the start: two creates for one port, both checked before either
      inserts, and two enabled groups on it in the end. */
  lemma TwoCreatesClash(a: Id, b: Id, g: Group) returns (start: State, steps: seq<Step>, end: State)
    requires a != b && g.enabled && ValidPort(g.port)
    ensures IsRun(start, steps, end) && start.groups == map[] && end.groups == map[a := g, b := g]
  {
    start := State(map[], map[], 0, 0, Loading, map[], true);
    var s1 := Do(start, Arrive(1, Create(a, g, CheckTaken)));
    var s2 := Do(s1, Arrive(2, Create(b, g, CheckTaken)));
    var s3 := Do(s2, Handle(1, true));
    var s4 := Do(s3, Handle(2, true));
    assert s4.groups == map[] && s4.handlers[1] == Create(a, g, BindNew) && s4.handlers[2] == Create(b, g, BindNew);
    var first := [Arrive(1, Create(a, g, CheckTaken)), Arrive(2, Create(b, g, CheckTaken)), Handle(1, true),
        Handle(2, true)];
    FourSteps(start, first, s1, s2, s3, s4);
    var second, mid := ClaimIsWritten(s4, 1);
    var third;
    third, end := ClaimIsWritten(mid, 2);
    Inserted(s4, second, mid, 1, a, g);
    Inserted(mid, third, end, 2, b, g);
    LeadsThrough(s4, second, mid, third, end);
    LeadsThrough(start, first, s4, second + third, end);
    steps := first + (second + third);
  }

  lemma FourSteps(s: State, steps: seq<Step>, s1: State, s2: State, s3: State, s4: State)
    requires |steps| == 4 && Can(s, steps[0]) && s1 == Do(s, steps[0]) && Can(s1, steps[1]) && s2 == Do(s1, steps[1])
    requires Can(s2, steps[2]) && s3 == Do(s2, steps[2]) && Can(s3, steps[3]) && s4 == Do(s3, steps[3])
    ensures Leads(s, steps, s4)
  {
    hide Do, Can;
    var none: seq<Step> := [];
    assert steps[3..][1..] == none && Leads(s4, none, s4) && Leads(s3, steps[3..], s4);
    assert steps[2..][1..] == steps[3..] && Leads(s2, steps[2..], s4);
    assert steps[1..][1..] == steps[2..] && Leads(s1, steps[1..], s4);
  }

  /** The row a create's claim writes is the group asked for. */
  lemma {:induction false} Inserted(s: State, steps: seq<Step>, end: State, w: nat, id: Id, g: Group)
    requires Leads(s, steps, end) && forall step <- steps :: step == Handle(w, true)
    requires w in s.handlers && id !in s.groups && id in end.groups
    requires s.handlers[w] == Create(id, g, BindNew)
    ensures end.groups[id] == g
    decreases |steps|
  {
    CreateWrites(s, steps, end, w, id, g);
  }

  lemma {:induction false} CreateWrites(s: State, steps: seq<Step>, end: State, w: nat, id: Id, g: Group)
    requires Leads(s, steps, end) && forall step <- steps :: step == Handle(w, true)
    requires w in s.handlers
    requires s.handlers[w].Finished? || (s.handlers[w].Create? && s.handlers[w].newId == id && s.handlers[w].group == g)
    requires id in s.groups ==> s.groups[id] == g
    ensures id in end.groups ==> end.groups[id] == g
    decreases |steps|
  {
    hide PortTaken, EngineDo, EngineCan, ActUpdate;
    if steps != [] {
      assert steps[0] in steps && forall step <- steps[1..] :: step in steps;
      CreateWrites(Do(s, steps[0]), steps[1..], end, w, id, g);
    }
  }

  // ------------------------------------------- the same code, uninterrupted

  /** A handler run to its end with nothing in between. */
  function Alone(h: Handler, groups: Table, flag: bool, sent: nat): (Reply, Table, nat)
    decreases StatementsLeft(h)
  {
    if h.Finished? then (h.reply, groups, sent)
    else
      var e := Act(h, groups, flag);
      Alone(e.next, e.groups, flag, if e.sent then sent + 1 else sent)
  }

  lemma AloneStep(h: Handler, groups: Table, flag: bool, sent: nat)
    requires !h.Finished?
    ensures var e := Act(h, groups, flag);
            Alone(h, groups, flag, sent) == Alone(e.next, e.groups, flag, if e.sent then sent + 1 else sent)
  {
  }

  function StatementsLeft(h: Handler): nat {
    match h
    case Create(_, _, stage) =>
      (match stage case CheckTaken => 4 case BindNew => 3 case Insert => 2 case SendCreate => 1)
    case Update(_, _, stage) => 10 - Rank(stage)
    case Delete(_, stage) => (match stage case RemoveGroup => 3 case RemoveRules => 2 case SendDelete => 1)
    case Import(_, stage) => (match stage case Commit => 3 case LoadCerts => 2 case SendImport => 1)
    case Finished(_) => 0
  }

  function Patched(g: Group, p: Patch): Group {
    Group(if p.name.Some? then p.name.value else g.name,
          if p.port.Some? then p.port.value else g.port,
          if p.enabled.Some? then p.enabled.value else g.enabled,
          if p.skipTls.Some? then p.skipTls.value else g.skipTls,
          if p.forceHttps.Some? then p.forceHttps.value else g.forceHttps)
  }

  /** The row after the first k fields of the patch have been written. */
  function Upto(g: Group, p: Patch, k: nat): Group {
    Patched(g, Patch(p.name, if k >= 2 then p.port else None, if k >= 3 then p.enabled else None,
                     if k >= 4 then p.skipTls else None, if k >= 5 then p.forceHttps else None))
  }

  lemma UptoSteps(g: Group, p: Patch)
    ensures Upto(g, p, 3) == if p.enabled.Some? then Upto(g, p, 2).(enabled := p.enabled.value) else Upto(g, p, 2)
    ensures Upto(g, p, 4) == if p.skipTls.Some? then Upto(g, p, 3).(skipTls := p.skipTls.value) else Upto(g, p, 3)
    ensures Upto(g, p, 5) == if p.forceHttps.Some? then Upto(g, p, 4).(forceHttps := p.forceHttps.value)
        else Upto(g, p, 4)
    ensures Upto(g, p, 5) == Patched(g, p)
  {
  }

  /** The port asked for is acceptable: in range, and either unchanged or free. */
  predicate PortAccepted(groups: Table, id: Id, p: Patch, bindable: bool)
    requires id in groups
  {
    p.port.Some? ==>
      && ValidPort(p.port.value)
      && (p.port.value == groups[id].port || (!PortTaken(groups, p.port.value, Some(id)) && bindable))
  }

  /** What an update comes to: all of the patch, or only its name. */
  function UpdateResult(groups: Table, id: Id, p: Patch, bindable: bool): (Reply, Table) {
    if id !in groups then (NotFound, groups)
    else if PortAccepted(groups, id, p, bindable) then (Succeeded, groups[id := Patched(groups[id], p)])
    else (BadRequest, groups[id := Patched(groups[id], Patch(p.name, None, None, None, None))])
  }

  /** What an update does, column by column. It succeeds when the group exists and
      the port, if one is asked for, is a port, and the group's own or free; every
      column asked for then has the value asked for. When it fails at the port the
      name is written all the same. Other groups are never touched. */
  lemma UpdateMeans(groups: Table, id: Id, p: Patch, bindable: bool)
    ensures var (reply, after) := UpdateResult(groups, id, p, bindable);
            && (reply == NotFound <==> id !in groups)
            && (reply == Succeeded <==> id in groups && (p.port.Some? ==>
                  && 1 <= p.port.value <= 65535
                  && (groups[id].port == p.port.value ||
                      (bindable && forall other <- groups :: other != id ==> groups[other].port != p.port.value))))
            && reply in {Succeeded, NotFound, BadRequest}
            && after.Keys == groups.Keys && (forall other <- groups :: other != id ==> after[other] == groups[other])
            && (id in groups ==>
                  && (if p.name.Some? then after[id].name == p.name.value else after[id].name == groups[id].name)
                  && (after[id].port == if reply == Succeeded && p.port.Some? then p.port.value else groups[id].port)
                  && (after[id].enabled ==
                        if reply == Succeeded && p.enabled.Some? then p.enabled.value else groups[id].enabled)
                  && (after[id].skipTls ==
                        if reply == Succeeded && p.skipTls.Some? then p.skipTls.value else groups[id].skipTls)
                  && (after[id].forceHttps ==
                        if reply == Succeeded && p.forceHttps.Some? then p.forceHttps.value else groups[id].forceHttps))
  {
  }

  /** What an import does to the groups: the last row given for an id is there, and
      groups without a row stay as they were. */
  lemma {:induction false} UpsertMeans(groups: Table, rows: seq<(Id, Group)>)
    ensures var after := Upsert(groups, rows);
            && (forall id :: id in after <==> id in groups || exists i | 0 <= i < |rows| :: rows[i].0 == id)
            && (forall i | 0 <= i < |rows| && (forall j | i < j < |rows| :: rows[j].0 != rows[i].0) ::
                  after[rows[i].0] == rows[i].1)
            && (forall id <- groups :: (forall i | 0 <= i < |rows| :: rows[i].0 != id) ==> after[id] == groups[id])
    decreases |rows|
  {
    if rows != [] {
      var next := groups[rows[0].0 := rows[0].1];
      UpsertMeans(next, rows[1..]);
      assert forall i | 1 <= i < |rows| :: rows[i] == rows[1..][i - 1];
      forall id ensures id in Upsert(groups, rows) <==> id in groups || exists i | 0 <= i < |rows| :: rows[i].0 == id {
        if i :| 1 <= i < |rows| && rows[i].0 == id { assert rows[1..][i - 1].0 == id; }
        if i :| 0 <= i < |rows| - 1 && rows[1..][i].0 == id { assert rows[i + 1].0 == id; }
      }
      var after := Upsert(groups, rows);
      forall i | 0 <= i < |rows| && (forall j | i < j < |rows| :: rows[j].0 != rows[i].0)
        ensures after[rows[i].0] == rows[i].1
      {
        if i > 0 {
          assert rows[1..][i - 1] == rows[i];
        } else {
          assert forall j | 0 <= j < |rows[1..]| :: rows[1..][j].0 != rows[0].0;
        }
      }
    }
  }

  /** An update that does not succeed leaves what should be listened on as it was. */
  lemma FailedUpdateKeepsView(groups: Table, id: Id, p: Patch, bindable: bool)
    requires UpdateResult(groups, id, p, bindable).0 != Succeeded
    ensures View(UpdateResult(groups, id, p, bindable).1) == View(groups)
  {
    hide PortAccepted;
  }

  /** Renaming a group does not make its port look taken. */
  lemma RenameKeepsPorts(groups: Table, id: Id, name: string, port: int)
    requires id in groups
    ensures PortTaken(groups[id := groups[id].(name := name)], port, Some(id)) == PortTaken(groups, port, Some(id))
  {
    var renamed := groups[id := groups[id].(name := name)];
    if k :| k in groups && groups[k].port == port && Some(k) != Some(id) {
      assert renamed[k].port == port;
    }
    if k :| k in renamed && renamed[k].port == port && Some(k) != Some(id) {
      assert groups[k].port == port;
    }
  }

  class PortGroups {
    var groups: Table
    var signals: nat

    constructor (initial: Table)
      ensures groups == initial && signals == 0
    {
      groups, signals := initial, 0;
    }

    method CreateGroup(id: Id, g: Group, bindable: bool) returns (reply: Reply)
      modifies this
      ensures reply == Succeeded <==>
                && 1 <= g.port <= 65535 && bindable && id !in old(groups)
                && forall other <- old(groups) :: old(groups)[other].port != g.port
      ensures groups == if reply == Succeeded then old(groups)[id := g] else old(groups)
      ensures signals == old(signals) + if reply == Succeeded then 1 else 0
      ensures (reply, groups, signals) == Alone(Create(id, g, CheckTaken), old(groups), bindable, old(signals))
    {
      AloneStep(Create(id, g, CheckTaken), groups, bindable, signals);
      if g.port < 1 || g.port > 65535 { return BadRequest; }
      if PortTaken(groups, g.port, None) { return BadRequest; }
      AloneStep(Create(id, g, BindNew), groups, bindable, signals);
      if !bindable { return BadRequest; }
      AloneStep(Create(id, g, Insert), groups, bindable, signals);
      if id in groups { return Failed; }
      groups := groups[id := g];
      AloneStep(Create(id, g, SendCreate), groups, bindable, signals);
      signals := signals + 1;
      return Succeeded;
    }

    /** UPDATE port_groups SET ... WHERE id = ? */
    method Write(id: Id, g: Group)
      requires id in groups
      modifies this`groups
      ensures groups == old(groups)[id := g]
    {
      groups := groups[id := g];
    }

    /** Field by field, with the port checks in the middle. */
    method UpdateGroup(id: Id, p: Patch, bindable: bool) returns (reply: Reply)
      modifies this
      ensures (reply, groups) == UpdateResult(old(groups), id, p, bindable)
      ensures signals == old(signals) + if reply == Succeeded then 1 else 0
    {
      hide PortTaken;
      if id !in groups { return NotFound; }
      ghost var g := groups[id];
      if p.name.Some? {
        Write(id, groups[id].(name := p.name.value));
        if p.port.Some? { RenameKeepsPorts(old(groups), id, p.name.value, p.port.value); }
      }
      assert groups == old(groups)[id := Upto(g, p, 1)];
      if p.port.Some? {
        if !ValidPort(p.port.value) { return BadRequest; }
        var current := groups[id].port;
        if p.port.value != current {
          if PortTaken(groups, p.port.value, Some(id)) { return BadRequest; }
          if !bindable { return BadRequest; }
        }
        Write(id, groups[id].(port := p.port.value));
      }
      assert groups == old(groups)[id := Upto(g, p, 2)];
      WriteFlags(id, p, old(groups), g);
      signals := signals + 1;
      return Succeeded;
    }

    method WriteFlags(id: Id, p: Patch, ghost before: Table, ghost g: Group)
      requires id in groups && groups == before[id := Upto(g, p, 2)]
      modifies this`groups
      ensures groups == before[id := Patched(g, p)]
    {
      hide Upto, Patched;
      UptoSteps(g, p);
      if p.enabled.Some? { Write(id, groups[id].(enabled := p.enabled.value)); }
      assert groups == before[id := Upto(g, p, 3)];
      if p.skipTls.Some? { Write(id, groups[id].(skipTls := p.skipTls.value)); }
      assert groups == before[id := Upto(g, p, 4)];
      if p.forceHttps.Some? { Write(id, groups[id].(forceHttps := p.forceHttps.value)); }
      assert groups == before[id := Upto(g, p, 5)];
    }

    method DeleteGroup(id: Id) returns (reply: Reply)
      modifies this
      ensures reply == if id in old(groups) then Succeeded else NotFound
      ensures groups == old(groups) - {id}
      ensures signals == old(signals) + if reply == Succeeded then 1 else 0
      ensures (reply, groups, signals) == Alone(Delete(id, RemoveGroup), old(groups), true, old(signals))
    {
      AloneStep(Delete(id, RemoveGroup), groups, true, signals);
      if id !in groups { return NotFound; }
      groups := groups - {id};
      AloneStep(Delete(id, RemoveRules), groups, true, signals);
      AloneStep(Delete(id, SendDelete), groups, true, signals);
      signals := signals + 1;
      return Succeeded;
    }
  }

  lemma FirstHalf(groups: Table, named: Table, id: Id, p: Patch, bindable: bool, sent: nat)
    requires id in groups
    requires named == if p.name.Some? then groups[id := groups[id].(name := p.name.value)] else groups
    requires p.port.Some? ==> PortTaken(named, p.port.value, Some(id)) == PortTaken(groups, p.port.value, Some(id))
    ensures PortAccepted(groups, id, p, bindable) ==>
              Alone(Update(id, p, Exists), groups, bindable, sent) ==
              Alone(Update(id, p, WriteEnabled),
                    if p.port.Some? then named[id := named[id].(port := p.port.value)] else named, bindable, sent)
    ensures !PortAccepted(groups, id, p, bindable) ==>
              Alone(Update(id, p, Exists), groups, bindable, sent) == (BadRequest, named, sent)
  {
    hide PortTaken, Alone;
    AloneStep(Update(id, p, Exists), groups, bindable, sent);
    AloneStep(Update(id, p, WriteName), groups, bindable, sent);
    if p.port.Some? {
      AloneStep(Update(id, p, ReadPort), named, bindable, sent);
      AloneStep(Update(id, p, CheckConflict), named, bindable, sent);
      AloneStep(Update(id, p, BindPort), named, bindable, sent);
      AloneStep(Update(id, p, WritePort), named, bindable, sent);
    }
    AloneFinished(BadRequest, named, bindable, sent);
  }

  lemma AloneFinished(reply: Reply, groups: Table, flag: bool, sent: nat)
    ensures Alone(Finished(reply), groups, flag, sent) == (reply, groups, sent)
  {
  }

  lemma SecondHalf(ported: Table, id: Id, p: Patch, flag: bool, sent: nat)
    requires id in ported && (p.port.Some? ==> ported[id].port == p.port.value)
        && (p.name.Some? ==> ported[id].name == p.name.value)
    ensures Alone(Update(id, p, WriteEnabled), ported, flag, sent) ==
        (Succeeded, ported[id := Patched(ported[id], p)], sent + 1)
  {
    hide Alone;
    var g := ported[id];
    assert ported == ported[id := Upto(g, p, 2)];
    FlagStep(ported, id, p, 2, WriteEnabled, flag, sent);
    FlagStep(ported, id, p, 3, WriteSkipTls, flag, sent);
    FlagStep(ported, id, p, 4, WriteForceHttps, flag, sent);
    AloneStep(Update(id, p, SendUpdate), ported[id := Upto(g, p, 5)], flag, sent);
    AloneFinished(Succeeded, ported[id := Upto(g, p, 5)], flag, sent + 1);
  }

  function AfterFlag(stage: UpdateStage): UpdateStage {
    match stage case WriteEnabled => WriteSkipTls case WriteSkipTls => WriteForceHttps case _ => SendUpdate
  }

  /** One flag write moves the row one field further along the patch. */
  lemma FlagStep(t: Table, id: Id, p: Patch, k: nat, stage: UpdateStage, flag: bool, sent: nat)
    requires id in t && 2 <= k <= 4 && Rank(stage) == k + 4
    ensures Alone(Update(id, p, stage), t[id := Upto(t[id], p, k)], flag, sent) ==
            Alone(Update(id, p, AfterFlag(stage)), t[id := Upto(t[id], p, k + 1)], flag, sent)
  {
    hide Alone, Upto, Patched;
    UptoSteps(t[id], p);
    var now := t[id := Upto(t[id], p, k)];
    AloneStep(Update(id, p, stage), now, flag, sent);
    assert ActUpdate(id, p, stage, now, flag).groups == t[id := Upto(t[id], p, k + 1)];
  }

  /** The statement-by-statement update, run alone, is the update above. */
  lemma UpdateAlone(groups: Table, id: Id, p: Patch, bindable: bool, sent: nat)
    ensures var (reply, after) := UpdateResult(groups, id, p, bindable);
            Alone(Update(id, p, Exists), groups, bindable, sent) ==
            (reply, after, if reply == Succeeded then sent + 1 else sent)
  {
    hide PortTaken, Alone;
    if id !in groups {
      AloneStep(Update(id, p, Exists), groups, bindable, sent);
      AloneFinished(NotFound, groups, bindable, sent);
    } else {
      var named := if p.name.Some? then groups[id := groups[id].(name := p.name.value)] else groups;
      if p.name.Some? && p.port.Some? { RenameKeepsPorts(groups, id, p.name.value, p.port.value); }
      assert named == groups[id := Patched(groups[id], Patch(p.name, None, None, None, None))];
      FirstHalf(groups, named, id, p, bindable, sent);
      if PortAccepted(groups, id, p, bindable) {
        var ported := if p.port.Some? then named[id := named[id].(port := p.port.value)] else named;
        SecondHalf(ported, id, p, bindable, sent);
        assert ported[id := Patched(ported[id], p)] == groups[id := Patched(groups[id], p)];
      }
    }
  }

  /** The rows of the engine's SELECT: each enabled group, in some order. */
  ghost predicate Lists(rows: seq<(Id, Group)>, groups: Table) {
    && (forall r <- rows :: r.0 in groups && groups[r.0] == r.1 && r.1.enabled)
    && (forall id <- groups :: groups[id].enabled ==> (id, groups[id]) in rows)
  }

  class ProxyEngine {
    var listeners: map<Id, Listener>

    constructor ()
      ensures listeners == map[]
    {
      listeners := map[];
    }

    /** Drain, then insert a listener for every row; a failed query stops there. */
    method Reload(rows: Option<seq<(Id, Group)>>, ghost groups: Table)
      requires rows.Some? ==> Lists(rows.value, groups)
      modifies this
      ensures listeners == if rows.Some? then View(groups) else map[]
      ensures rows.Some? ==> ListensOn(listeners, groups)
    {
      ViewListens(groups);
      listeners := map[];
      if rows.None? { return; }
      var i := 0;
      while i < |rows.value|
        invariant 0 <= i <= |rows.value|
        invariant forall id :: id in listeners <==> exists k :: 0 <= k < i && rows.value[k].0 == id
        invariant forall id <- listeners ::
                    id in groups && groups[id].enabled && listeners[id] == ListenerOf(groups[id])
      {
        var (id, g) := rows.value[i];
        assert rows.value[i] in rows.value;
        listeners := listeners[id := Listener(AsU16(g.port), g.skipTls, g.forceHttps)];
        i := i + 1;
      }
      forall id | id in groups && groups[id].enabled
        ensures id in listeners
      {
        var k :| 0 <= k < |rows.value| && rows.value[k] == (id, groups[id]);
      }
      assert listeners == View(groups);
    }
  }
}
