// The advance loop of the workflow runner and its replay of recorded fixtures (runner.py).
//
// The workflow engine is not modelled: it is an arbitrary function from the calls made so far
// to what the workflow looks like then. Every result below holds for every such function.
module Replay {
  import opened Basics

  // ---------- what the runner sees of the engine ----------

  type TaskId = int

  datatype TaskState = Waiting | Ready | Started | OtherState

  /** `custom`: the class name starts with "Custom". `startEvent`: the class is CustomStartEvent. */
  datatype TaskSpec = TaskSpec(
    bpmnId: Option<string>, custom: bool, startEvent: bool, messageEvent: bool, timerEvent: bool)

  datatype Task = Task(state: TaskState, spec: TaskSpec)

  /** `order` and `below` give the traversals from the root and from one task. `raised` says that
      the last call raised an exception. */
  datatype Snapshot = Snapshot(
    task: TaskId -> Task, order: seq<TaskId>, below: TaskId -> seq<TaskId>,
    completed: bool, missingLoads: bool, raised: bool)

  /** The calls that change the workflow: running (or completing) the current task, force-firing a
      timer and running a task that waits for outside input. */
  datatype Event =
    | Step(task: TaskId, completing: bool)
    | FireTimer(task: TaskId, entry: Entry)
    | RunCheckpoint(task: TaskId, entry: Entry)

  type Engine = seq<Event> -> Snapshot

  /** Tasks that stop a run until they get outside input. */
  predicate IsCheckpoint(t: Task) {
    t.spec.custom && !(t.spec.startEvent && !t.spec.messageEvent)
  }

  function FirstReady(now: Snapshot, ids: seq<TaskId>): Option<TaskId> {
    if ids == [] then None
    else if now.task(ids[0]).state == Ready then Some(ids[0])
    else FirstReady(now, ids[1..])
  }

  predicate IsWaitingTimer(t: Task, id: Option<string>) {
    t.state == Waiting && t.spec.bpmnId == id && t.spec.timerEvent
  }

  function FirstTimer(now: Snapshot, ids: seq<TaskId>, id: Option<string>): Option<TaskId> {
    if ids == [] then None
    else if IsWaitingTimer(now.task(ids[0]), id) then Some(ids[0])
    else FirstTimer(now, ids[1..], id)
  }

  /** Looks below the task just handled first, then everywhere. */
  function NextReady(now: Snapshot, completed: TaskId): Option<TaskId> {
    var fast := FirstReady(now, now.below(completed));
    if fast.Some? then fast else FirstReady(now, now.order)
  }

  /** `id` is in `ids`, it is wanted, and none before it is. */
  ghost predicate IsFirst(ids: seq<TaskId>, id: TaskId, wanted: TaskId -> bool) {
    exists i | 0 <= i < |ids| :: ids[i] == id && wanted(id) && forall j | 0 <= j < i :: !wanted(ids[j])
  }

  lemma {:induction false} FirstOfRest(ids: seq<TaskId>, id: TaskId, wanted: TaskId -> bool)
    requires ids != [] && !wanted(ids[0]) && IsFirst(ids[1..], id, wanted)
    ensures IsFirst(ids, id, wanted)
  {
    var i :| 0 <= i < |ids| - 1 && ids[1..][i] == id && wanted(id) && forall j | 0 <= j < i :: !wanted(ids[1..][j]);
    forall j | 0 <= j < i + 1
      ensures !wanted(ids[j])
    {
      assert j > 0 ==> ids[j] == ids[1..][j - 1];
    }
    assert ids[i + 1] == id;
  }

  function ReadyIn(now: Snapshot): TaskId -> bool {
    (id: TaskId) => now.task(id).state == Ready
  }

  function TimerIn(now: Snapshot, bpmnId: Option<string>): TaskId -> bool {
    (id: TaskId) => now.task(id).state == Waiting && now.task(id).spec.timerEvent && now.task(id).spec.bpmnId == bpmnId
  }

  /** The first ready task of a traversal, and none only if there is none. */
  lemma {:induction false} FirstReadyFinds(now: Snapshot, ids: seq<TaskId>)
    ensures FirstReady(now, ids) == None ==> forall id | id in ids :: now.task(id).state != Ready
    ensures FirstReady(now, ids).Some? ==>
              && IsFirst(ids, FirstReady(now, ids).value, ReadyIn(now))
              && FirstReady(now, ids).value in ids && now.task(FirstReady(now, ids).value).state == Ready
  {
    if ids != [] {
      FirstReadyFinds(now, ids[1..]);
      if now.task(ids[0]).state != Ready && FirstReady(now, ids).Some? {
        FirstOfRest(ids, FirstReady(now, ids).value, ReadyIn(now));
      }
    }
  }

  /** The first waiting timer of a traversal with the recorded id, and none only if there is none. */
  lemma {:induction false} FirstTimerFinds(now: Snapshot, ids: seq<TaskId>, id: Option<string>)
    ensures FirstTimer(now, ids, id) == None ==> forall t | t in ids :: !TimerIn(now, id)(t)
    ensures FirstTimer(now, ids, id).Some? ==>
              && IsFirst(ids, FirstTimer(now, ids, id).value, TimerIn(now, id))
              && FirstTimer(now, ids, id).value in ids && TimerIn(now, id)(FirstTimer(now, ids, id).value)
  {
    if ids != [] {
      FirstTimerFinds(now, ids[1..], id);
      if !TimerIn(now, id)(ids[0]) && FirstTimer(now, ids, id).Some? {
        FirstOfRest(ids, FirstTimer(now, ids, id).value, TimerIn(now, id));
      }
    }
  }

  // ---------- fixtures ----------

  /** One recorded entry of `pendingTaskStack`; each of its keys may be missing. */
  datatype Entry = Entry(id: Option<string>, data: Option<string>, forceTimer: bool)

  /** A recording read from a file (None when it cannot be read) with the index kept in the
      workflow data, or a list in the task or workflow data that is popped in place. */
  datatype Fixture =
    | File(contents: Option<seq<Entry>>, index: Option<int>)
    | Inline(stack: seq<Entry>)

  datatype Reason = FixtureExhausted | IndexOutOfBounds | MissingInlineFixture

  datatype Cursor = At(entry: Entry) | Stuck(reason: Reason) | Unreadable

  function Position(stack: seq<Entry>, index: Option<int>): int {
    index.GetOr(|stack| - 1)
  }

  function CursorOf(f: Fixture): Cursor {
    match f
    case File(None, _) => Unreadable
    case File(Some(stack), index) =>
      var i := Position(stack, index);
      if i < 0 then Stuck(FixtureExhausted)
      else if i >= |stack| then Stuck(IndexOutOfBounds)
      else At(stack[i])
    case Inline(stack) =>
      if stack == [] then Stuck(MissingInlineFixture) else At(stack[|stack| - 1])
  }

  function Consume(f: Fixture): Fixture
    requires CursorOf(f).At?
  {
    match f
    case File(contents, index) => File(contents, Some(Position(contents.value, index) - 1))
    case Inline(stack) => Inline(stack[..|stack| - 1])
  }

  /** The entries still to be consumed; the last one is next. */
  function Remaining(f: Fixture): seq<Entry> {
    match f
    case File(None, _) => []
    case File(Some(stack), index) =>
      var i := Position(stack, index);
      if 0 <= i < |stack| then stack[..i + 1] else []
    case Inline(stack) => stack
  }

  /** Both representations behave as one stack: the cursor is its top, consuming drops the top. */
  lemma {:induction false} CursorIsTop(f: Fixture)
    ensures CursorOf(f).At? <==> Remaining(f) != []
    ensures CursorOf(f).At? ==>
              && CursorOf(f).entry == Remaining(f)[|Remaining(f)| - 1]
              && Remaining(Consume(f)) == Remaining(f)[..|Remaining(f)| - 1]
  {
    match f
    case File(Some(stack), index) =>
      var i := Position(stack, index);
      if 0 <= i < |stack| {
        assert stack[..i + 1][..i] == stack[..i];
      }
    case _ =>
  }

  /** What is to be consumed at first: the whole recording or what its index leaves, or the whole list. */
  lemma {:induction false} WholeRecording(stack: seq<Entry>, index: int)
    ensures Remaining(Inline(stack)) == Remaining(File(Some(stack), None)) == stack
    ensures 0 <= index < |stack| ==> Remaining(File(Some(stack), Some(index))) == stack[..index + 1]
    ensures !(0 <= index < |stack|) ==>
              && Remaining(File(Some(stack), Some(index))) == []
              && CursorOf(File(Some(stack), Some(index))) == Stuck(if index < 0 then FixtureExhausted else IndexOutOfBounds)
    ensures stack == [] ==>
              && CursorOf(Inline(stack)) == Stuck(MissingInlineFixture)
              && CursorOf(File(Some(stack), None)) == Stuck(FixtureExhausted)
  {
    assert stack[..|stack|] == stack;
  }

  // ---------- the machine ----------

  /** A consumed entry, the task it was consumed for, and the number of engine calls made before. */
  datatype Consumption = Consumption(entry: Entry, task: TaskId, byTimer: bool, at: nat)

  datatype Machine = Machine(log: seq<Event>, fixture: Fixture, consumed: seq<Consumption>)

  datatype Strategy = OneAtATime | Greedy | UnitTest | OtherStrategy

  datatype Error = EngineRaised | FixtureUnreadable | EntryHasNoId | EntryHasNoData

  /** `reported`: an unfinished workflow without a ready task is reported by `unittest`. */
  datatype Outcome =
    | NothingToRun
    | IterationLimit
    | MissingLazyLoads
    | TimerNotWaiting
    | NoReadyTask(reported: bool)
    | StoppedBeforeTask
    | NoEntry(reason: Reason)
    | TaskMismatch
    | Failed(error: Error)

  const MAX_ITERATIONS := 5000

  function Call(m: Machine, e: Event): Machine {
    m.(log := m.log + [e])
  }

  function Take(m: Machine, entry: Entry, task: TaskId, byTimer: bool): Machine
    requires CursorOf(m.fixture).At? && m.log != []
  {
    m.(fixture := Consume(m.fixture),
       consumed := m.consumed + [Consumption(entry, task, byTimer, |m.log| - 1)])
  }

  datatype TimerReplay =
    | NotHandled
    | NotWaiting
    | Fired(m: Machine, task: TaskId)
    | Crashed(m: Machine, error: Error)

  function ReplayTimer(engine: Engine, m: Machine, diagnoseMissing: bool): TimerReplay {
    var cursor := CursorOf(m.fixture);
    if cursor.Unreadable? then Crashed(m, FixtureUnreadable)
    else if cursor.Stuck? || !cursor.entry.forceTimer then NotHandled
    else
      var timer := FirstTimer(engine(m.log), engine(m.log).order, cursor.entry.id);
      if timer.None? then if diagnoseMissing then NotWaiting else NotHandled
      else
        var called := Call(m, FireTimer(timer.value, cursor.entry));
        if engine(called.log).raised then Crashed(called, EngineRaised)
        else Fired(Take(called, cursor.entry, timer.value, true), timer.value)
  }

  predicate DiagnosesMissing(engine: Engine, m: Machine, task: Option<TaskId>) {
    task.None? || IsCheckpoint(engine(m.log).task(task.value))
  }

  datatype Replayed = Replayed(m: Machine, task: Option<TaskId>, stop: Option<Outcome>)

  /** The inner loop: fires recorded timers while the top entry asks for it. */
  function ReplayTimers(engine: Engine, m: Machine, task: Option<TaskId>): Replayed
    decreases |Remaining(m.fixture)|
  {
    match ReplayTimer(engine, m, DiagnosesMissing(engine, m, task))
    case NotHandled => Replayed(m, task, None)
    case NotWaiting => Replayed(m, task, Some(TimerNotWaiting))
    case Crashed(m', error) => Replayed(m', task, Some(Failed(error)))
    case Fired(m', timer) =>
      CursorIsTop(m.fixture);
      ReplayTimers(engine, m', NextReady(engine(m'.log), timer))
  }

  datatype Turn = Halt(m: Machine, outcome: Outcome) | Again(m: Machine, task: TaskId)

  /** What the loop does with the next ready task. */
  function Dispatch(engine: Engine, strategy: Strategy, m: Machine, id: TaskId): Turn {
    var task := engine(m.log).task(id);
    if strategy.OneAtATime? && Truthy(task.spec.bpmnId) then Halt(m, StoppedBeforeTask)
    else if strategy.Greedy? && IsCheckpoint(task) then Halt(m, StoppedBeforeTask)
    else if strategy.UnitTest? && IsCheckpoint(task) then
      match CursorOf(m.fixture)
      case Unreadable => Halt(m, Failed(FixtureUnreadable))
      case Stuck(reason) => Halt(m, NoEntry(reason))
      case At(entry) =>
        if entry.id.None? then Halt(m, Failed(EntryHasNoId))
        else if task.spec.bpmnId != entry.id then Halt(m, TaskMismatch)
        else
          var called := Call(m, RunCheckpoint(id, entry));
          if engine(called.log).raised then Halt(called, Failed(EngineRaised))
          else if entry.data.None? then Halt(called, Failed(EntryHasNoData))
          else Again(Take(called, entry, id, false), id)
    else Again(m, id)
  }

  /** One iteration of the outer loop. */
  function TurnOf(engine: Engine, strategy: Strategy, m: Machine, id: TaskId): Turn {
    var called := Call(m, Step(id, engine(m.log).task(id).state == Started));
    var now := engine(called.log);
    if now.raised then Halt(called, Failed(EngineRaised))
    else if !(strategy.UnitTest? && m.fixture.File?) && now.missingLoads then Halt(called, MissingLazyLoads)
    else
      var next := NextReady(now, id);
      var r := if strategy.UnitTest? then ReplayTimers(engine, called, next) else Replayed(called, next, None);
      if r.stop.Some? then Halt(r.m, r.stop.value)
      else if r.task.None? then Halt(r.m, NoReadyTask(strategy.UnitTest? && !engine(r.m.log).completed))
      else Dispatch(engine, strategy, r.m, r.task.value)
  }

  /** The outer loop, entered with a task and `iters` iterations already made. */
  function Run(engine: Engine, strategy: Strategy, m: Machine, id: TaskId, iters: nat): (Machine, Outcome)
    decreases MAX_ITERATIONS - iters
  {
    if iters >= MAX_ITERATIONS then (m, IterationLimit)
    else
      match TurnOf(engine, strategy, m, id)
      case Halt(m', outcome) => (m', outcome)
      case Again(m', next) => Run(engine, strategy, m', next, iters + 1)
  }

  function Advance(engine: Engine, strategy: Strategy, m: Machine, task: Option<TaskId>): (Machine, Outcome) {
    if task.None? then (m, NothingToRun) else Run(engine, strategy, m, task.value, 0)
  }
}
