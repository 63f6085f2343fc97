// Which tasks a run may touch, why it stops, how long it takes, and why a fixture file and an
// inline fixture drive it alike. Everything holds for every behaviour of the engine.
module ReplaySafety {
  import opened Basics
  import opened Replay
  import opened ReplayProofs

  // ---------- one turn of the loop ----------

  /** The call every iteration starts with. */
  function FirstCall(engine: Engine, m: Machine, id: TaskId): Machine {
    Call(m, Step(id, engine(m.log).task(id).state == Started))
  }

  /** A run only adds to its log and to its list of consumptions. */
  ghost predicate Extends(m: Machine, m': Machine) {
    && |m.log| <= |m'.log| && m'.log[..|m.log|] == m.log
    && |m.consumed| <= |m'.consumed|
  }

  /** What the search for the next task promises: a ready task, or none anywhere. */
  ghost predicate Selected(now: Snapshot, task: Option<TaskId>) {
    if task.Some? then now.task(task.value).state == Ready
    else forall t | t in now.order :: now.task(t).state != Ready
  }

  /** The first ready task below the completed one or, without any there, of the whole workflow. */
  lemma {:induction false} NextReadySelects(now: Snapshot, completed: TaskId)
    ensures Selected(now, NextReady(now, completed))
    ensures NextReady(now, completed).Some? ==>
              if exists t | t in now.below(completed) :: now.task(t).state == Ready
              then IsFirst(now.below(completed), NextReady(now, completed).value, ReadyIn(now))
              else IsFirst(now.order, NextReady(now, completed).value, ReadyIn(now))
    ensures NextReady(now, completed).None? ==>
              forall t | t in now.below(completed) || t in now.order :: now.task(t).state != Ready
  {
    FirstReadyFinds(now, now.below(completed));
    FirstReadyFinds(now, now.order);
  }

  /** The task in hand once a step or a timer is done: the next one after the task just handled. */
  ghost function InHand(engine: Engine, log: seq<Event>): Option<TaskId>
    requires log != []
  {
    NextReady(engine(log), log[|log| - 1].task)
  }

  /** The inner loop fires timers only, each for one consumed entry, and selects as the search does. */
  lemma {:induction false} ReplayTimersTurn(engine: Engine, m: Machine, task: Option<TaskId>)
    requires Selected(engine(m.log), task)
    ensures var r := ReplayTimers(engine, m, task);
            && Extends(m, r.m)
            && (forall i | |m.log| <= i < |r.m.log| :: r.m.log[i].FireTimer?)
            && |r.m.log| - |m.log| <= |r.m.consumed| - |m.consumed| + (if r.stop.Some? && r.stop.value.Failed? then 1 else 0)
            && (r.stop.None? ==> Selected(engine(r.m.log), r.task))
    decreases |Remaining(m.fixture)|
  {
    CursorIsTop(m.fixture);
    match ReplayTimer(engine, m, DiagnosesMissing(engine, m, task))
    case Fired(m', timer) =>
      NextReadySelects(engine(m'.log), timer);
      assert m'.log[..|m.log|] == m.log;
      ReplayTimersTurn(engine, m', NextReady(engine(m'.log), timer));
      var r := ReplayTimers(engine, m, task);
      assert r.m.log[..|m.log|] == r.m.log[..|m'.log|][..|m.log|];
      assert m'.log[|m.log|].FireTimer?;
      forall i | |m.log| <= i < |r.m.log|
        ensures r.m.log[i].FireTimer?
      {
        if i == |m.log| {
          assert r.m.log[i] == r.m.log[..|m'.log|][i];
        }
      }
    case _ =>
  }

  /** The task taken up next may be stepped: it is ready and the strategy does not stop before it,
      or it is the checkpoint that was just run for the recorded entry with its id. */
  ghost predicate MayStep(engine: Engine, strategy: Strategy, log: seq<Event>, id: TaskId) {
    var task := engine(log).task(id);
    || (&& task.state == Ready
        && (strategy.OneAtATime? ==> !Truthy(task.spec.bpmnId))
        && (strategy.Greedy? || strategy.UnitTest? ==> !NeedsInput(task)))
    || (&& strategy.UnitTest? && log != []
        && var n := |log| - 1;
           && log[n].RunCheckpoint? && log[n].task == id && log[n].entry.id.Some?
           && engine(log[..n]).task(id).spec.bpmnId == log[n].entry.id)
  }

  lemma {:induction false} DispatchTurn(engine: Engine, strategy: Strategy, m: Machine, id: TaskId)
    requires Selected(engine(m.log), Some(id))
    ensures var t := Dispatch(engine, strategy, m, id);
            && Extends(m, t.m)
            && (forall i | |m.log| <= i < |t.m.log| :: t.m.log[i].RunCheckpoint?)
            && |t.m.log| - |m.log| <= |t.m.consumed| - |m.consumed| + (if t.Halt? && t.outcome.Failed? then 1 else 0)
            && (t.Again? ==> MayStep(engine, strategy, t.m.log, t.task))
  {
    var t := Dispatch(engine, strategy, m, id);
    assert t.m.log[..|m.log|] == m.log;
  }

  /** After this step the run may go on: the call did not raise and no called process is missing, or
      that is not looked at. */
  ghost predicate Clean(strategy: Strategy, fixture: Fixture, now: Snapshot) {
    !now.raised && ((strategy.UnitTest? && fixture.File?) || !now.missingLoads)
  }

  lemma {:induction false} TurnIsClean(engine: Engine, strategy: Strategy, m: Machine, id: TaskId)
    ensures var t := TurnOf(engine, strategy, m, id);
            var called := FirstCall(engine, m, id);
            && (t.Again? || |t.m.log| > |called.log| ==> Clean(strategy, m.fixture, engine(called.log)))
            && (t.Again? ==> t.m.fixture.File? == m.fixture.File?)
  {
    hide ReplayTimers;
    var called := FirstCall(engine, m, id);
    ReplayTimersKeepsFile(engine, called, NextReady(engine(called.log), id));
  }

  lemma {:induction false} TurnSteps(engine: Engine, strategy: Strategy, m: Machine, id: TaskId)
    ensures var t := TurnOf(engine, strategy, m, id);
            && Extends(m, t.m) && |m.log| < |t.m.log|
            && t.m.log[|m.log|] == Step(id, engine(m.log).task(id).state == Started)
            && (forall i | |m.log| < i < |t.m.log| :: !t.m.log[i].Step?)
            && |t.m.log| - |m.log| <= 1 + |t.m.consumed| - |m.consumed| + (if t.Halt? && t.outcome.Failed? then 1 else 0)
            && (t.Again? ==> MayStep(engine, strategy, t.m.log, t.task))
  {
    hide MayStep;
    var called := FirstCall(engine, m, id);
    var now := engine(called.log);
    assert called.log[..|m.log|] == m.log;
    if !now.raised && ((strategy.UnitTest? && m.fixture.File?) || !now.missingLoads) {
      var next := NextReady(now, id);
      NextReadySelects(now, id);
      ReplayTimersTurn(engine, called, next);
      var r := if strategy.UnitTest? then ReplayTimers(engine, called, next) else Replayed(called, next, None);
      ExtendsThrough(m, called, r.m);
      if r.stop.None? && r.task.Some? {
        DispatchTurn(engine, strategy, r.m, r.task.value);
        var t := Dispatch(engine, strategy, r.m, r.task.value);
        ExtendsThrough(called, r.m, t.m);
        ExtendsThrough(m, called, t.m);
        forall i | |m.log| < i < |t.m.log|
          ensures !t.m.log[i].Step?
        {
          if i < |r.m.log| {
            assert t.m.log[i] == t.m.log[..|r.m.log|][i];
          }
        }
      }
    }
  }

  lemma {:induction false} ExtendsThrough(a: Machine, b: Machine, c: Machine)
    requires Extends(a, b) && Extends(b, c)
    ensures Extends(a, c)
    ensures forall i | 0 <= i < |b.log| :: c.log[i] == b.log[i]
  {
    assert c.log[..|a.log|] == c.log[..|b.log|][..|a.log|];
    forall i | 0 <= i < |b.log|
      ensures c.log[i] == b.log[i]
    {
      assert c.log[i] == c.log[..|b.log|][i];
    }
  }

  // ---------- whole runs ----------

  /** Every step a run makes after the one it was started with was allowed: `greedy` never steps a
      checkpoint, `oneAtATime` never a task with a bpmn id, and `unittest` steps a checkpoint only
      right after running it for the recorded entry that carries its id. */
  lemma {:induction false} RunStepsAllowedTasks(
      engine: Engine, strategy: Strategy, m: Machine, id: TaskId, iters: nat, i: nat)
    requires var log := Run(engine, strategy, m, id, iters).0.log; |m.log| < i < |log| && log[i].Step?
    ensures var log := Run(engine, strategy, m, id, iters).0.log; MayStep(engine, strategy, log[..i], log[i].task)
    decreases MAX_ITERATIONS - iters
  {
    hide MayStep, TurnOf;
    TurnSteps(engine, strategy, m, id);
    match TurnOf(engine, strategy, m, id)
    case Again(m', next) =>
      RunExtends(engine, strategy, m', next, iters + 1);
      var log := Run(engine, strategy, m, id, iters).0.log;
      if i == |m'.log| {
        RunLimit(engine, strategy, m', next, iters + 1);
        StepIsFirst(engine, strategy, m', next, iters + 1);
        assert log[..i] == m'.log && log[i] == log[..i + 1][i];
      } else if i > |m'.log| {
        RunStepsAllowedTasks(engine, strategy, m', next, iters + 1, i);
      }
    case Halt(_, _) =>
  }

  /** Every step completes its task exactly when the task has started, and anything that follows a step
      follows only if the engine did not raise and no called process was missing. */
  lemma {:induction false} RunStepsFollowEngine(
      engine: Engine, strategy: Strategy, m: Machine, id: TaskId, iters: nat, i: nat)
    requires var log := Run(engine, strategy, m, id, iters).0.log; |m.log| <= i < |log| && log[i].Step?
    ensures var log := Run(engine, strategy, m, id, iters).0.log;
            && log[i].completing == (engine(log[..i]).task(log[i].task).state == Started)
            && (i + 1 < |log| ==> Clean(strategy, m.fixture, engine(log[..i + 1])))
    decreases MAX_ITERATIONS - iters
  {
    hide TurnOf, Clean, MayStep;
    TurnSteps(engine, strategy, m, id);
    TurnIsClean(engine, strategy, m, id);
    var called := FirstCall(engine, m, id);
    var log := Run(engine, strategy, m, id, iters).0.log;
    match TurnOf(engine, strategy, m, id)
    case Again(m', next) =>
      RunExtends(engine, strategy, m', next, iters + 1);
      if i < |m'.log| {
        PrefixOf(log, m'.log, i);
        assert i == |m.log|;
        assert log[..i] == m.log && log[..i + 1] == called.log;
      } else {
        SameClean(strategy, m.fixture, m'.fixture);
        RunStepsFollowEngine(engine, strategy, m', next, iters + 1, i);
      }
    case Halt(_, _) =>
      assert i == |m.log|;
      assert log[..i] == m.log && log[..i + 1] == called.log;
  }

  lemma {:induction false} PrefixOf(log: seq<Event>, prefix: seq<Event>, i: nat)
    requires |prefix| <= |log| && log[..|prefix|] == prefix && i < |prefix|
    ensures log[i] == prefix[i] && log[..i + 1] == prefix[..i + 1]
  {
    assert log[i] == log[..|prefix|][i];
    assert log[..i + 1] == log[..|prefix|][..i + 1];
  }

  lemma {:induction false} SameClean(strategy: Strategy, f: Fixture, f': Fixture)
    requires f.File? == f'.File?
    ensures forall now :: Clean(strategy, f, now) == Clean(strategy, f', now)
  {
  }

  lemma {:induction false} RunLimit(engine: Engine, strategy: Strategy, m: Machine, id: TaskId, iters: nat)
    requires |m.log| < |Run(engine, strategy, m, id, iters).0.log|
    ensures iters < MAX_ITERATIONS
  {
  }

  lemma {:induction false} RunExtends(engine: Engine, strategy: Strategy, m: Machine, id: TaskId, iters: nat)
    ensures Extends(m, Run(engine, strategy, m, id, iters).0)
    decreases MAX_ITERATIONS - iters
  {
    if iters < MAX_ITERATIONS {
      hide TurnOf;
      TurnSteps(engine, strategy, m, id);
      match TurnOf(engine, strategy, m, id)
      case Again(m', next) =>
        RunExtends(engine, strategy, m', next, iters + 1);
        ExtendsThrough(m, m', Run(engine, strategy, m', next, iters + 1).0);
      case Halt(_, _) =>
    }
  }

  lemma {:induction false} RunAfterTurn(engine: Engine, strategy: Strategy, m: Machine, id: TaskId, iters: nat)
    requires iters < MAX_ITERATIONS
    ensures TurnOf(engine, strategy, m, id).m.log <= Run(engine, strategy, m, id, iters).0.log
  {
    hide TurnOf;
    match TurnOf(engine, strategy, m, id)
    case Again(m', next) => RunExtends(engine, strategy, m', next, iters + 1);
    case Halt(_, _) =>
  }

  lemma {:induction false} StepIsFirst(engine: Engine, strategy: Strategy, m: Machine, id: TaskId, iters: nat)
    requires iters < MAX_ITERATIONS
    ensures var log, called := Run(engine, strategy, m, id, iters).0.log, FirstCall(engine, m, id).log;
            |called| <= |log| && log[..|called|] == called
  {
    hide TurnOf, MayStep;
    TurnSteps(engine, strategy, m, id);
    var t := TurnOf(engine, strategy, m, id);
    var called := FirstCall(engine, m, id);
    assert t.m.log[..|called.log|] == called.log;
    match t
    case Again(m', next) =>
      RunExtends(engine, strategy, m', next, iters + 1);
      ExtendsThrough(called.(consumed := []), m', Run(engine, strategy, m', next, iters + 1).0);
    case Halt(_, _) =>
  }

  /** A whole call makes at most 5000 steps, and beyond them at most one engine call for each entry
      of the fixture, plus the one that fails. */
  lemma {:induction false} RunIsBounded(engine: Engine, strategy: Strategy, m: Machine, id: TaskId, iters: nat)
    requires iters <= MAX_ITERATIONS
    ensures var (m', outcome) := Run(engine, strategy, m, id, iters);
            |m'.log| - |m.log|
            <= (MAX_ITERATIONS - iters) + (|m'.consumed| - |m.consumed|) + (if outcome.Failed? then 1 else 0)
    decreases MAX_ITERATIONS - iters
  {
    if iters < MAX_ITERATIONS {
      hide TurnOf;
      TurnSteps(engine, strategy, m, id);
      match TurnOf(engine, strategy, m, id)
      case Again(m', next) => RunIsBounded(engine, strategy, m', next, iters + 1);
      case Halt(_, _) =>
    }
  }

  lemma {:induction false} AdvanceIsBounded(engine: Engine, strategy: Strategy, m: Machine, task: Option<TaskId>)
    requires m.consumed == []
    ensures var (m', outcome) := Advance(engine, strategy, m, task);
            |m'.log| - |m.log| <= 5000 + |Remaining(m.fixture)| + 1
  {
    ConsumesLastEntries(engine, strategy, m, task);
    if task.Some? {
      RunIsBounded(engine, strategy, m, task.value, 0);
    }
  }

  // ---------- why a run stops ----------

  /** The task in hand is ready and needs input, and the last call was no run of such a task. */
  ghost predicate AtCheckpoint(engine: Engine, log: seq<Event>) {
    && log != [] && !log[|log| - 1].RunCheckpoint? && !engine(log).raised
    && var task := InHand(engine, log);
       task.Some? && engine(log).task(task.value).state == Ready && NeedsInput(engine(log).task(task.value))
  }

  /** The state of the workflow and of the fixture when a run ends with `outcome`. */
  ghost predicate Explains(engine: Engine, strategy: Strategy, m: Machine, outcome: Outcome) {
    var now, cursor := engine(m.log), CursorOf(m.fixture);
    match outcome
    case NothingToRun => false
    case IterationLimit => true
    case MissingLazyLoads =>
      && m.log != [] && m.log[|m.log| - 1].Step?
      && !now.raised && now.missingLoads && !(strategy.UnitTest? && m.fixture.File?)
    case TimerNotWaiting =>
      && strategy.UnitTest? && cursor.At? && cursor.entry.forceTimer
      && (forall t | t in now.order :: !TimerIn(now, cursor.entry.id)(t))
      && m.log != [] && (InHand(engine, m.log).None? || AtCheckpoint(engine, m.log))
    case NoReadyTask(reported) =>
      && m.log != [] && InHand(engine, m.log).None?
      && reported == (strategy.UnitTest? && !now.completed)
      && (forall t | t in now.order :: now.task(t).state != Ready)
      && (strategy.UnitTest? ==> !cursor.Unreadable? && (cursor.At? ==> !cursor.entry.forceTimer))
    case StoppedBeforeTask =>
      && m.log != [] && InHand(engine, m.log).Some?
      && var task := now.task(InHand(engine, m.log).value);
         && task.state == Ready
         && if strategy.OneAtATime? then task.spec.bpmnId.Some? && task.spec.bpmnId.value != ""
            else strategy.Greedy? && NeedsInput(task)
    case NoEntry(reason) => strategy.UnitTest? && cursor == Stuck(reason) && AtCheckpoint(engine, m.log)
    case TaskMismatch =>
      && strategy.UnitTest? && cursor.At? && cursor.entry.id.Some? && !cursor.entry.forceTimer
      && AtCheckpoint(engine, m.log) && now.task(InHand(engine, m.log).value).spec.bpmnId != cursor.entry.id
    case Failed(EngineRaised) => now.raised
    case Failed(FixtureUnreadable) => strategy.UnitTest? && cursor.Unreadable?
    case Failed(EntryHasNoId) => strategy.UnitTest? && cursor.At? && cursor.entry.id.None? && AtCheckpoint(engine, m.log)
    case Failed(EntryHasNoData) =>
      && strategy.UnitTest? && cursor.At? && cursor.entry.data.None? && !now.raised
      && m.log != [] && m.log[|m.log| - 1].RunCheckpoint? && m.log[|m.log| - 1].entry == cursor.entry
  }

  /** A task needs input in the runner's own words. */
  lemma {:induction false} CheckpointNeedsInput(t: Task)
    ensures IsCheckpoint(t) <==> NeedsInput(t)
  {
  }

  /** The task in hand after a step or a timer, where the engine did not raise. */
  ghost predicate Holds(engine: Engine, log: seq<Event>, task: Option<TaskId>) {
    log != [] && !log[|log| - 1].RunCheckpoint? && !engine(log).raised && task == InHand(engine, log)
  }

  lemma {:induction false} ReplayTimersStop(engine: Engine, m: Machine, task: Option<TaskId>)
    requires Holds(engine, m.log, task)
    ensures var r := ReplayTimers(engine, m, task);
            && (r.stop.Some? ==> Explains(engine, UnitTest, r.m, r.stop.value))
            && (r.stop.None? ==> Holds(engine, r.m.log, r.task) && !CursorOf(r.m.fixture).Unreadable?)
            && (r.stop.None? && DiagnosesMissing(engine, r.m, r.task) && CursorOf(r.m.fixture).At?
                ==> !CursorOf(r.m.fixture).entry.forceTimer)
    decreases |Remaining(m.fixture)|
  {
    CursorIsTop(m.fixture);
    hide Remaining;
    match ReplayTimer(engine, m, DiagnosesMissing(engine, m, task))
    case NotWaiting =>
      FirstTimerFinds(engine(m.log), engine(m.log).order, CursorOf(m.fixture).entry.id);
      NextReadySelects(engine(m.log), m.log[|m.log| - 1].task);
    case Fired(m', timer) => ReplayTimersStop(engine, m', NextReady(engine(m'.log), timer));
    case _ =>
  }

  /** A recorded timer that is not waiting yet does not hold up an ordinary task: the loop hands it on. */
  lemma {:induction false} TimerLoopHandsOn(engine: Engine, m: Machine, task: TaskId)
    requires !NeedsInput(engine(m.log).task(task)) && CursorOf(m.fixture).At?
    requires forall t | t in engine(m.log).order :: !TimerIn(engine(m.log), CursorOf(m.fixture).entry.id)(t)
    ensures ReplayTimers(engine, m, Some(task)) == Replayed(m, Some(task), None)
  {
    FirstTimerFinds(engine(m.log), engine(m.log).order, CursorOf(m.fixture).entry.id);
  }

  lemma {:induction false} ReplayTimersStopReason(engine: Engine, m: Machine, task: Option<TaskId>)
    ensures var r := ReplayTimers(engine, m, task);
            r.stop.Some? ==> r.stop.value == TimerNotWaiting || r.stop.value.Failed?
    decreases |Remaining(m.fixture)|
  {
    CursorIsTop(m.fixture);
    match ReplayTimer(engine, m, DiagnosesMissing(engine, m, task))
    case Fired(m', timer) => ReplayTimersStopReason(engine, m', NextReady(engine(m'.log), timer));
    case _ =>
  }

  lemma {:induction false} DispatchStops(engine: Engine, strategy: Strategy, m: Machine, id: TaskId)
    requires Holds(engine, m.log, Some(id))
    requires strategy.UnitTest? ==>
               !CursorOf(m.fixture).Unreadable?
               && (DiagnosesMissing(engine, m, Some(id)) && CursorOf(m.fixture).At? ==> !CursorOf(m.fixture).entry.forceTimer)
    ensures var t := Dispatch(engine, strategy, m, id);
            t.Halt? ==> Explains(engine, strategy, t.m, t.outcome) && t.outcome != IterationLimit
  {
    NextReadySelects(engine(m.log), m.log[|m.log| - 1].task);
  }

  lemma {:induction false} TurnStops(engine: Engine, strategy: Strategy, m: Machine, id: TaskId)
    ensures var t := TurnOf(engine, strategy, m, id);
            t.Halt? ==> Explains(engine, strategy, t.m, t.outcome) && t.outcome != IterationLimit
  {
    hide ReplayTimers, Dispatch, DiagnosesMissing, Remaining;
    var called := FirstCall(engine, m, id);
    var now := engine(called.log);
    var next := NextReady(now, id);
    if !now.raised {
      ReplayTimersStop(engine, called, next);
      ReplayTimersStopReason(engine, called, next);
      NextReadySelects(now, id);
      var r := if strategy.UnitTest? then ReplayTimers(engine, called, next) else Replayed(called, next, None);
      if r.stop.None? {
        NoneInHand(engine, strategy, r);
        if r.task.Some? {
          DispatchStops(engine, strategy, r.m, r.task.value);
        }
      }
    }
  }

  lemma {:induction false} NoneInHand(engine: Engine, strategy: Strategy, r: Replayed)
    requires r.task.None? && strategy.UnitTest? ==>
               !CursorOf(r.m.fixture).Unreadable?
               && (DiagnosesMissing(engine, r.m, r.task) && CursorOf(r.m.fixture).At? ==> !CursorOf(r.m.fixture).entry.forceTimer)
    requires Holds(engine, r.m.log, r.task)
    ensures r.task.None? ==>
              Explains(engine, strategy, r.m, NoReadyTask(strategy.UnitTest? && !engine(r.m.log).completed))
  {
    NextReadySelects(engine(r.m.log), r.m.log[|r.m.log| - 1].task);
  }

  ghost function StepsFrom(log: seq<Event>, from: nat): nat
    decreases |log| - from
  {
    if from >= |log| then 0 else (if log[from].Step? then 1 else 0) + StepsFrom(log, from + 1)
  }

  lemma {:induction false} NoSteps(log: seq<Event>, from: nat, next: nat)
    requires from <= next <= |log|
    requires forall i | from <= i < next :: !log[i].Step?
    ensures StepsFrom(log, from) == StepsFrom(log, next)
    decreases next - from
  {
    if from < next {
      NoSteps(log, from + 1, next);
    }
  }

  lemma {:induction false} OneStep(log: seq<Event>, from: nat, next: nat)
    requires from < next <= |log| && log[from].Step?
    requires forall i | from < i < next :: !log[i].Step?
    ensures StepsFrom(log, from) == 1 + StepsFrom(log, next)
  {
    NoSteps(log, from + 1, next);
  }

  lemma {:induction false} OneStepATurn(engine: Engine, strategy: Strategy, m: Machine, id: TaskId, log: seq<Event>)
    requires TurnOf(engine, strategy, m, id).m.log <= log
    ensures StepsFrom(log, |m.log|) == 1 + StepsFrom(log, |TurnOf(engine, strategy, m, id).m.log|)
  {
    hide TurnOf, MayStep, StepsFrom;
    TurnSteps(engine, strategy, m, id);
    OneStep(log, |m.log|, |TurnOf(engine, strategy, m, id).m.log|);
  }

  lemma {:induction false} TurnNeverLimits(engine: Engine, strategy: Strategy, m: Machine, id: TaskId)
    ensures var t := TurnOf(engine, strategy, m, id); t.Halt? ==> t.outcome != IterationLimit
  {
    hide *;
    TurnStops(engine, strategy, m, id);
  }

  lemma {:induction false} RunReachesLimit(engine: Engine, strategy: Strategy, m: Machine, id: TaskId, iters: nat)
    requires iters <= MAX_ITERATIONS && Run(engine, strategy, m, id, iters).1 == IterationLimit
    ensures StepsFrom(Run(engine, strategy, m, id, iters).0.log, |m.log|) == MAX_ITERATIONS - iters
    decreases MAX_ITERATIONS - iters
  {
    if iters < MAX_ITERATIONS {
      hide TurnOf, StepsFrom, Extends;
      TurnNeverLimits(engine, strategy, m, id);
      RunAfterTurn(engine, strategy, m, id, iters);
      OneStepATurn(engine, strategy, m, id, Run(engine, strategy, m, id, iters).0.log);
      match TurnOf(engine, strategy, m, id)
      case Again(m', next) => RunReachesLimit(engine, strategy, m', next, iters + 1);
      case Halt(_, _) =>
    }
  }

  lemma {:induction false} RunExplained(engine: Engine, strategy: Strategy, m: Machine, id: TaskId, iters: nat)
    ensures var (m', outcome) := Run(engine, strategy, m, id, iters); Explains(engine, strategy, m', outcome)
    decreases MAX_ITERATIONS - iters
  {
    if iters < MAX_ITERATIONS {
      hide Explains, TurnOf;
      TurnStops(engine, strategy, m, id);
      match TurnOf(engine, strategy, m, id)
      case Again(m', next) => RunExplained(engine, strategy, m', next, iters + 1);
      case Halt(_, _) =>
    }
  }

  /** A run ends for a reason that the state of workflow and fixture then bears out, and reaches the
      iteration limit only by making every step it was allowed. */
  lemma {:induction false} RunStops(engine: Engine, strategy: Strategy, m: Machine, id: TaskId, iters: nat)
    requires iters <= MAX_ITERATIONS
    ensures var (m', outcome) := Run(engine, strategy, m, id, iters);
            && Explains(engine, strategy, m', outcome)
            && (outcome == IterationLimit ==> StepsFrom(m'.log, |m.log|) == MAX_ITERATIONS - iters)
  {
    hide Explains, Run;
    RunExplained(engine, strategy, m, id, iters);
    if Run(engine, strategy, m, id, iters).1 == IterationLimit {
      RunReachesLimit(engine, strategy, m, id, iters);
    }
  }

  // ---------- a fixture file and an inline fixture drive a run alike ----------

  ghost predicate Readable(f: Fixture) {
    f.File? ==> f.contents.Some?
  }

  /** The same run so far, with the same entries left, however the fixture is kept. */
  ghost predicate Alike(a: Machine, b: Machine) {
    && a.log == b.log && a.consumed == b.consumed
    && Readable(a.fixture) && Readable(b.fixture)
    && Remaining(a.fixture) == Remaining(b.fixture)
  }

  /** Only the name of the reason for an empty fixture may differ. */
  ghost predicate SameOutcome(a: Outcome, b: Outcome) {
    a == b || (a.NoEntry? && b.NoEntry?)
  }

  ghost predicate Matches(a: (Machine, Outcome), b: (Machine, Outcome)) {
    Alike(a.0, b.0) && SameOutcome(a.1, b.1)
  }

  lemma {:induction false} ReplayTimersAlike(engine: Engine, a: Machine, b: Machine, task: Option<TaskId>)
    requires Alike(a, b)
    ensures var ra, rb := ReplayTimers(engine, a, task), ReplayTimers(engine, b, task);
            Alike(ra.m, rb.m) && ra.task == rb.task && ra.stop == rb.stop
            && ra.m.fixture.File? == a.fixture.File? && rb.m.fixture.File? == b.fixture.File?
    decreases |Remaining(a.fixture)|
  {
    CursorIsTop(a.fixture);
    CursorIsTop(b.fixture);
    match ReplayTimer(engine, a, DiagnosesMissing(engine, a, task))
    case Fired(a', timer) =>
      var b' := ReplayTimer(engine, b, DiagnosesMissing(engine, b, task)).m;
      ReplayTimersAlike(engine, a', b', NextReady(engine(a'.log), timer));
    case _ =>
  }

  lemma {:induction false} DispatchAlike(engine: Engine, strategy: Strategy, a: Machine, b: Machine, id: TaskId)
    requires Alike(a, b)
    ensures var ta, tb := Dispatch(engine, strategy, a, id), Dispatch(engine, strategy, b, id);
            && Alike(ta.m, tb.m)
            && ta.m.fixture.File? == a.fixture.File? && tb.m.fixture.File? == b.fixture.File?
            && (ta.Again? ==> ta.task == id && tb.Again? && tb.task == id)
            && (ta.Halt? ==> tb.Halt? && SameOutcome(ta.outcome, tb.outcome))
  {
    CursorIsTop(a.fixture);
    CursorIsTop(b.fixture);
  }

  /** The engine call at `i` is a step after which the workflow is fine but lacks a called process. */
  ghost predicate MissesLoads(engine: Engine, log: seq<Event>, i: nat)
    requires i < |log|
  {
    log[i].Step? && !engine(log[..i + 1]).raised && engine(log[..i + 1]).missingLoads
  }

  /** A turn differs only where the inline form stops for a missing called process: with a fixture
      file, `unittest` does not look. */
  lemma {:induction false} TurnAlike(engine: Engine, strategy: Strategy, a: Machine, b: Machine, id: TaskId)
    requires Alike(a, b) && a.fixture.File? && b.fixture.Inline?
    ensures var ta, tb := TurnOf(engine, strategy, a, id), TurnOf(engine, strategy, b, id);
            var called := FirstCall(engine, b, id);
            && ta.m.fixture.File? && tb.m.fixture.Inline?
            && if strategy.UnitTest? && MissesLoads(engine, called.log, |b.log|) then tb == Halt(called, MissingLazyLoads)
               else
                 || (ta.Again? && tb.Again? && ta.task == tb.task && Alike(ta.m, tb.m))
                 || (ta.Halt? && tb.Halt? && Matches((ta.m, ta.outcome), (tb.m, tb.outcome)))
  {
    hide ReplayTimers, Dispatch, Remaining, Readable;
    var calledA, calledB := FirstCall(engine, a, id), FirstCall(engine, b, id);
    assert calledB.log[..|b.log| + 1] == calledB.log;
    var next := NextReady(engine(calledA.log), id);
    ReplayTimersAlike(engine, calledA, calledB, next);
    var ra := if strategy.UnitTest? then ReplayTimers(engine, calledA, next) else Replayed(calledA, next, None);
    var rb := if strategy.UnitTest? then ReplayTimers(engine, calledB, next) else Replayed(calledB, next, None);
    if ra.task.Some? {
      DispatchAlike(engine, strategy, ra.m, rb.m, ra.task.value);
    }
  }

  /** Whether some step of a run from `start` on misses a called process. */
  ghost predicate EverMisses(engine: Engine, log: seq<Event>, start: nat) {
    exists i | start <= i < |log| :: MissesLoads(engine, log, i)
  }

  /** The file with its index refines the inline stack. Started with the same entries left, the inline
      run is a part of the file run, and the two make the same engine calls, consume the same entries and
      stop for the same reason, if and only if no step of the file run leaves a called process missing,
      or the strategy is not `unittest`. */
  lemma {:induction false} FileRefinesInline(
      engine: Engine, strategy: Strategy, a: Machine, b: Machine, id: TaskId, iters: nat)
    requires a.fixture.File? && a.fixture.contents.Some?
    requires b == a.(fixture := Inline(Remaining(a.fixture)))
    ensures var (a', outcomeA) := Run(engine, strategy, a, id, iters);
            var (b', outcomeB) := Run(engine, strategy, b, id, iters);
            && b'.log <= a'.log
            && (&& a'.log == b'.log && a'.consumed == b'.consumed
                && Remaining(a'.fixture) == Remaining(b'.fixture)
                && SameOutcome(outcomeA, outcomeB)
                <==> !(strategy.UnitTest? && EverMisses(engine, a'.log, |a.log|)))
  {
    hide Run, EverMisses;
    RunAlike(engine, strategy, a, b, id, iters);
    FileRunNeverMissing(engine, a, id, iters);
  }

  lemma {:induction false} RunAlike(engine: Engine, strategy: Strategy, a: Machine, b: Machine, id: TaskId, iters: nat)
    requires Alike(a, b) && a.fixture.File? && b.fixture.Inline?
    ensures var ra, rb := Run(engine, strategy, a, id, iters), Run(engine, strategy, b, id, iters);
            if strategy.UnitTest? && EverMisses(engine, ra.0.log, |a.log|)
            then rb.0.log <= ra.0.log && rb.1 == MissingLazyLoads
            else Matches(ra, rb)
    decreases MAX_ITERATIONS - iters
  {
    hide Alike, TurnOf, Matches, EverMisses, MissesLoads, MayStep;
    if iters >= MAX_ITERATIONS {
      AlikeMatches(a, b, IterationLimit);
      MissesNothing(engine, a.log);
    } else {
      TurnAlike(engine, strategy, a, b, id);
      TurnSteps(engine, strategy, a, id);
      AlikeLogs(a, b);
      var ta, tb := TurnOf(engine, strategy, a, id), TurnOf(engine, strategy, b, id);
      var called := FirstCall(engine, b, id);
      StepIsFirst(engine, strategy, a, id, iters);
      var log := Run(engine, strategy, a, id, iters).0.log;
      if MissesLoads(engine, called.log, |b.log|) {
        MissesEarly(engine, log, called.log);
      } else {
        RunAfterTurn(engine, strategy, a, id, iters);
        MissesLater(engine, log, called.log, ta.m.log);
      }
      if ta.Again? && tb.Again? {
        RunAlike(engine, strategy, ta.m, tb.m, ta.task, iters + 1);
      } else {
        MissesNothing(engine, log);
      }
    }
  }

  lemma {:induction false} AlikeLogs(a: Machine, b: Machine)
    requires Alike(a, b)
    ensures a.log == b.log
  {
  }

  lemma {:induction false} MissesNothing(engine: Engine, log: seq<Event>)
    ensures !EverMisses(engine, log, |log|)
  {
  }

  lemma {:induction false} MissesEarly(engine: Engine, log: seq<Event>, called: seq<Event>)
    requires called != [] && called <= log && MissesLoads(engine, called, |called| - 1)
    ensures EverMisses(engine, log, |called| - 1)
  {
    assert log[..|called|] == called == called[..|called|];
    assert MissesLoads(engine, log, |called| - 1);
  }

  /** If the step of a turn misses nothing, what the run misses it misses after the turn. */
  lemma {:induction false} MissesLater(engine: Engine, log: seq<Event>, called: seq<Event>, turn: seq<Event>)
    requires called != [] && called <= log && |called| <= |turn| && turn <= log
    requires !MissesLoads(engine, called, |called| - 1)
    requires forall i | |called| <= i < |turn| :: !turn[i].Step?
    ensures EverMisses(engine, log, |called| - 1) <==> EverMisses(engine, log, |turn|)
  {
    assert log[..|called|] == called == called[..|called|];
    assert !MissesLoads(engine, log, |called| - 1);
  }

  lemma {:induction false} AlikeMatches(a: Machine, b: Machine, outcome: Outcome)
    requires Alike(a, b)
    ensures Matches((a, outcome), (b, outcome))
  {
  }

  lemma {:induction false} FileRunNeverMissing(engine: Engine, m: Machine, id: TaskId, iters: nat)
    requires m.fixture.File?
    ensures Run(engine, UnitTest, m, id, iters).1 != MissingLazyLoads
    decreases MAX_ITERATIONS - iters
  {
    if iters < MAX_ITERATIONS {
      hide TurnOf;
      TurnKeepsFile(engine, m, id);
      match TurnOf(engine, UnitTest, m, id)
      case Again(m', next) => FileRunNeverMissing(engine, m', next, iters + 1);
      case Halt(_, _) =>
    }
  }

  lemma {:induction false} TurnKeepsFile(engine: Engine, m: Machine, id: TaskId)
    requires m.fixture.File?
    ensures var t := TurnOf(engine, UnitTest, m, id); t.m.fixture.File? && (t.Halt? ==> t.outcome != MissingLazyLoads)
  {
    hide ReplayTimers;
    var called := FirstCall(engine, m, id);
    var next := NextReady(engine(called.log), id);
    ReplayTimersKeepsFile(engine, called, next);
    ReplayTimersStopReason(engine, called, next);
  }

  lemma {:induction false} ReplayTimersKeepsFile(engine: Engine, m: Machine, task: Option<TaskId>)
    ensures ReplayTimers(engine, m, task).m.fixture.File? == m.fixture.File?
    decreases |Remaining(m.fixture)|
  {
    CursorIsTop(m.fixture);
    match ReplayTimer(engine, m, DiagnosesMissing(engine, m, task))
    case Fired(m', timer) => ReplayTimersKeepsFile(engine, m', NextReady(engine(m'.log), timer));
    case _ =>
  }

  // ---------- the index of a fixture file ----------

  /** The index points into the recording or just before it. */
  ghost predicate ValidIndex(f: Fixture) {
    f.File? && f.contents.Some? ==> -1 <= Position(f.contents.value, f.index) < |f.contents.value|
  }

  lemma {:induction false} ReplayTimersKeepsIndex(engine: Engine, m: Machine, task: Option<TaskId>)
    requires ValidIndex(m.fixture)
    ensures ValidIndex(ReplayTimers(engine, m, task).m.fixture)
    decreases |Remaining(m.fixture)|
  {
    CursorIsTop(m.fixture);
    match ReplayTimer(engine, m, DiagnosesMissing(engine, m, task))
    case Fired(m', timer) => ReplayTimersKeepsIndex(engine, m', NextReady(engine(m'.log), timer));
    case _ =>
  }

  lemma {:induction false} TurnKeepsIndex(engine: Engine, strategy: Strategy, m: Machine, id: TaskId)
    requires ValidIndex(m.fixture)
    ensures ValidIndex(TurnOf(engine, strategy, m, id).m.fixture)
  {
    hide ReplayTimers;
    var called := FirstCall(engine, m, id);
    ReplayTimersKeepsIndex(engine, called, NextReady(engine(called.log), id));
  }

  /** While only the runner writes the index, it never leaves the recording: a run is never stopped
      by `fixture_index_out_of_bounds`. */
  lemma {:induction false} IndexNeverOutOfBounds(
      engine: Engine, strategy: Strategy, m: Machine, id: TaskId, iters: nat)
    requires ValidIndex(m.fixture)
    ensures var (m', outcome) := Run(engine, strategy, m, id, iters);
            ValidIndex(m'.fixture) && outcome != NoEntry(IndexOutOfBounds)
    decreases MAX_ITERATIONS - iters
  {
    if iters < MAX_ITERATIONS {
      hide TurnOf;
      TurnKeepsIndex(engine, strategy, m, id);
      TurnStops(engine, strategy, m, id);
      match TurnOf(engine, strategy, m, id)
      case Again(m', next) => IndexNeverOutOfBounds(engine, strategy, m', next, iters + 1);
      case Halt(_, _) =>
    }
  }
}
