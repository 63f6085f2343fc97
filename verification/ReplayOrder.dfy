// Which call follows which: every call of a run is determined by the last call, by what the engine
// then shows and by the recorded entry on top of the fixture. The two nested loops of the runner are
// no part of the statement.
module ReplayOrder {
  import opened Basics
  import opened Replay
  import opened ReplayProofs
  import opened ReplaySafety

  // ---------- the next call ----------

  ghost predicate TimerDue(now: Snapshot, top: Option<Entry>) {
    top.Some? && top.value.forceTimer && exists t | t in now.order :: TimerIn(now, top.value.id)(t)
  }

  /** `e` is the call to make after those in `before`, with `top` the recorded entry to use next:
      a task that was run for an entry is stepped; else `unittest` fires a recorded timer that is
      waiting; else the task in hand is run for the entry, if it needs input, or stepped. */
  ghost predicate Follows(engine: Engine, strategy: Strategy, before: seq<Event>, e: Event, top: Option<Entry>)
    requires before != []
  {
    var now, last := engine(before), before[|before| - 1];
    && !now.raised
    && (e.Step? ==> e.completing == (now.task(e.task).state == Started))
    && if last.RunCheckpoint? then e.Step? && e.task == last.task && last.entry.data.Some?
       else if strategy.UnitTest? && TimerDue(now, top) then
         e.FireTimer? && e.entry == top.value && IsFirst(now.order, e.task, TimerIn(now, e.entry.id))
       else
         && InHand(engine, before) == Some(e.task)
         && var task := now.task(e.task);
            if strategy.UnitTest? && NeedsInput(task) then
              && top.Some? && e == RunCheckpoint(e.task, top.value)
              && !e.entry.forceTimer && e.entry.id.Some? && task.spec.bpmnId == e.entry.id
            else
              && e.Step?
              && (strategy.OneAtATime? ==> task.spec.bpmnId.None? || task.spec.bpmnId.value == "")
              && (strategy.Greedy? ==> !NeedsInput(task))
  }

  /** Entry number `k` of the ledger, if there are so many. */
  ghost function EntryAt(m: Machine, k: nat): Option<Entry> {
    if k < |Ledger(m)| then Some(Ledger(m)[k]) else None
  }

  /** Call `i` follows the calls before it, with the entry that was then the top. */
  ghost predicate InOrder(engine: Engine, strategy: Strategy, m: Machine, i: nat)
    requires 0 < i < |m.log|
  {
    exists k: nat :: TopAt(m, i, k) && Follows(engine, strategy, m.log[..i], m.log[i], EntryAt(m, k))
  }

  /** Every call after the one at `start` is in order; each consumption came after its call. */
  ghost predicate AllInOrder(engine: Engine, strategy: Strategy, start: nat, m: Machine) {
    && (forall i | start < i < |m.log| :: InOrder(engine, strategy, m, i))
    && forall j | 0 <= j < |m.consumed| :: m.consumed[j].at < |m.log|
  }

  function TopEntry(f: Fixture): Option<Entry> {
    match CursorOf(f)
    case At(entry) => Some(entry)
    case _ => None
  }

  lemma {:induction false} TopIsEntry(m: Machine)
    ensures EntryAt(m, |m.consumed|) == TopEntry(m.fixture)
  {
    CursorIsTop(m.fixture);
  }

  // ---------- calls and consumptions keep the order ----------

  lemma {:induction false} CallInOrder(engine: Engine, strategy: Strategy, start: nat, m: Machine, e: Event)
    requires AllInOrder(engine, strategy, start, m) && start <= |m.log|
    requires start < |m.log| ==> Follows(engine, strategy, m.log, e, TopEntry(m.fixture))
    ensures AllInOrder(engine, strategy, start, Call(m, e))
  {
    var m' := Call(m, e);
    TopIsEntry(m);
    assert Ledger(m') == Ledger(m);
    hide Follows, Ledger;
    forall i | start < i < |m'.log|
      ensures InOrder(engine, strategy, m', i)
    {
      if i < |m.log| {
        assert InOrder(engine, strategy, m, i);
        assert m'.log[..i] == m.log[..i];
        var k: nat :| TopAt(m, i, k) && Follows(engine, strategy, m.log[..i], m.log[i], EntryAt(m, k));
        assert TopAt(m', i, k);
      } else {
        assert m'.log[..i] == m.log;
        assert TopAt(m', i, |m.consumed|);
      }
    }
  }

  lemma {:induction false} TakeInOrder(
      engine: Engine, strategy: Strategy, start: nat, m: Machine, task: TaskId, byTimer: bool)
    requires AllInOrder(engine, strategy, start, m) && CursorOf(m.fixture).At? && m.log != []
    ensures AllInOrder(engine, strategy, start, Take(m, CursorOf(m.fixture).entry, task, byTimer))
  {
    var m' := Take(m, CursorOf(m.fixture).entry, task, byTimer);
    TakeKeepsLedger(m, task, byTimer);
    hide Follows, Ledger, Consume;
    forall i | start < i < |m'.log|
      ensures InOrder(engine, strategy, m', i)
    {
      assert InOrder(engine, strategy, m, i);
      var k: nat :| TopAt(m, i, k) && Follows(engine, strategy, m.log[..i], m.log[i], EntryAt(m, k));
      assert TopAt(m', i, k);
    }
  }

  // ---------- the loops keep it ----------

  ghost predicate NoTimerDue(engine: Engine, m: Machine) {
    !TimerDue(engine(m.log), TopEntry(m.fixture))
  }

  lemma {:induction false} ReplayTimersInOrder(engine: Engine, start: nat, m: Machine, task: Option<TaskId>)
    requires AllInOrder(engine, UnitTest, start, m) && start < |m.log| && Holds(engine, m.log, task)
    ensures var r := ReplayTimers(engine, m, task);
            && AllInOrder(engine, UnitTest, start, r.m)
            && (r.stop.None? ==> start < |r.m.log| && Holds(engine, r.m.log, r.task) && NoTimerDue(engine, r.m))
    decreases |Remaining(m.fixture)|
  {
    CursorIsTop(m.fixture);
    hide AllInOrder, Remaining, Ledger, InHand;
    var now, cursor := engine(m.log), CursorOf(m.fixture);
    if cursor.At? && cursor.entry.forceTimer {
      FirstTimerFinds(now, now.order, cursor.entry.id);
      var timer := FirstTimer(now, now.order, cursor.entry.id);
      if timer.Some? {
        var e := FireTimer(timer.value, cursor.entry);
        assert TimerDue(now, TopEntry(m.fixture));
        assert Follows(engine, UnitTest, m.log, e, TopEntry(m.fixture));
        CallInOrder(engine, UnitTest, start, m, e);
        TakeInOrder(engine, UnitTest, start, Call(m, e), timer.value, true);
        if !engine(Call(m, e).log).raised {
          var m' := Take(Call(m, e), cursor.entry, timer.value, true);
          NextInHand(engine, m', e);
          ReplayTimersInOrder(engine, start, m', NextReady(engine(m'.log), timer.value));
        }
      }
    }
  }

  lemma {:induction false} NextInHand(engine: Engine, m: Machine, e: Event)
    requires m.log != [] && m.log[|m.log| - 1] == e && !e.RunCheckpoint? && !engine(m.log).raised
    ensures Holds(engine, m.log, NextReady(engine(m.log), e.task))
  {
  }

  /** The step that an iteration starts with is in order. */
  ghost predicate MayContinue(engine: Engine, strategy: Strategy, m: Machine, id: TaskId) {
    m.log != [] && Follows(engine, strategy, m.log, Step(id, engine(m.log).task(id).state == Started), TopEntry(m.fixture))
  }

  lemma {:induction false} DispatchInOrder(engine: Engine, strategy: Strategy, start: nat, m: Machine, id: TaskId)
    requires AllInOrder(engine, strategy, start, m) && start < |m.log| && Holds(engine, m.log, Some(id))
    requires strategy.UnitTest? ==>
               NoTimerDue(engine, m)
               && (DiagnosesMissing(engine, m, Some(id)) && CursorOf(m.fixture).At? ==> !CursorOf(m.fixture).entry.forceTimer)
    ensures var t := Dispatch(engine, strategy, m, id);
            AllInOrder(engine, strategy, start, t.m) && (t.Again? ==> MayContinue(engine, strategy, t.m, t.task))
  {
    hide AllInOrder, InHand, TimerDue;
    var cursor := CursorOf(m.fixture);
    if strategy.UnitTest? && NeedsInput(engine(m.log).task(id)) && cursor.At? {
      var e := RunCheckpoint(id, cursor.entry);
      if e.entry.id.Some? && engine(m.log).task(id).spec.bpmnId == e.entry.id {
        CallInOrder(engine, strategy, start, m, e);
        TakeInOrder(engine, strategy, start, Call(m, e), id, false);
      }
    }
  }

  lemma {:induction false} TurnInOrder(engine: Engine, strategy: Strategy, start: nat, m: Machine, id: TaskId)
    requires AllInOrder(engine, strategy, start, m) && start <= |m.log|
    requires start < |m.log| ==> MayContinue(engine, strategy, m, id)
    ensures var t := TurnOf(engine, strategy, m, id);
            AllInOrder(engine, strategy, start, t.m) && (t.Again? ==> MayContinue(engine, strategy, t.m, t.task))
  {
    if start < |m.log| {
      StepFollows(engine, strategy, m, id);
    }
    hide AllInOrder, Follows, ReplayTimers, Dispatch, DiagnosesMissing, MayContinue, InHand, Remaining;
    var e, called := Step(id, engine(m.log).task(id).state == Started), FirstCall(engine, m, id);
    CallInOrder(engine, strategy, start, m, e);
    var now := engine(called.log);
    if !now.raised {
      var next := NextReady(now, id);
      NextInHand(engine, called, e);
      if strategy.UnitTest? {
        ReplayTimersInOrder(engine, start, called, next);
        ReplayTimersStop(engine, called, next);
      }
      var r := if strategy.UnitTest? then ReplayTimers(engine, called, next) else Replayed(called, next, None);
      if r.stop.None? && r.task.Some? {
        DispatchInOrder(engine, strategy, start, r.m, r.task.value);
      }
    }
  }

  lemma {:induction false} StepFollows(engine: Engine, strategy: Strategy, m: Machine, id: TaskId)
    requires MayContinue(engine, strategy, m, id)
    ensures m.log != []
    ensures Follows(engine, strategy, m.log, Step(id, engine(m.log).task(id).state == Started), TopEntry(m.fixture))
  {
  }

  lemma {:induction false} RunInOrder(
      engine: Engine, strategy: Strategy, start: nat, m: Machine, id: TaskId, iters: nat)
    requires AllInOrder(engine, strategy, start, m) && start <= |m.log|
    requires start < |m.log| ==> MayContinue(engine, strategy, m, id)
    ensures AllInOrder(engine, strategy, start, Run(engine, strategy, m, id, iters).0)
    decreases MAX_ITERATIONS - iters
  {
    if iters < MAX_ITERATIONS {
      hide AllInOrder, MayContinue, TurnOf, MayStep;
      TurnInOrder(engine, strategy, start, m, id);
      TurnSteps(engine, strategy, m, id);
      match TurnOf(engine, strategy, m, id)
      case Again(m', next) => RunInOrder(engine, strategy, start, m', next, iters + 1);
      case Halt(_, _) =>
    }
  }

  // ---------- a whole call ----------

  /** A call without a task does nothing. Otherwise its first step is on the given task, and every call
      after that follows those before it. */
  lemma {:induction false} AdvanceInOrder(engine: Engine, strategy: Strategy, m: Machine, task: Option<TaskId>)
    requires forall j | 0 <= j < |m.consumed| :: m.consumed[j].at < |m.log|
    ensures task.None? ==> Advance(engine, strategy, m, task) == (m, NothingToRun)
    ensures task.Some? ==>
              var m' := Advance(engine, strategy, m, task).0;
              && |m.log| < |m'.log| && m'.log[..|m.log|] == m.log
              && m'.log[|m.log|] == Step(task.value, engine(m.log).task(task.value).state == Started)
              && forall i | |m.log| < i < |m'.log| :: InOrder(engine, strategy, m', i)
  {
    if task.Some? {
      hide Run;
      RunInOrder(engine, strategy, |m.log|, m, task.value, 0);
      RunExtends(engine, strategy, m, task.value, 0);
      StepIsFirst(engine, strategy, m, task.value, 0);
      var log, called := Advance(engine, strategy, m, task).0.log, FirstCall(engine, m, task.value).log;
      assert log[|m.log|] == log[..|called|][|m.log|];
    }
  }

  /** A call with a task stops for a reason that the state of workflow and fixture then bears out, and
      for the iteration limit only after 5000 steps. */
  lemma {:induction false} AdvanceStops(engine: Engine, strategy: Strategy, m: Machine, task: TaskId)
    ensures var (m', outcome) := Advance(engine, strategy, m, Some(task));
            && Explains(engine, strategy, m', outcome)
            && (outcome == IterationLimit ==> StepsFrom(m'.log, |m.log|) == 5000)
  {
    hide Run, Explains, StepsFrom;
    RunStops(engine, strategy, m, task, 0);
  }
}
