// The advance loop as the runner executes it, on a workflow object that it updates in place.
module Runner {
  import opened Basics
  import opened Replay

  class Workflow {
    const engine: Engine
    const usesFile: bool
    const recording: Option<seq<Entry>>
    /** `workflow.data["spiff_testFixture_index"]` */
    var index: Option<int>
    /** The inline `pendingTaskStack`. */
    var stack: seq<Entry>
    var log: seq<Event>
    ghost var consumed: seq<Consumption>

    constructor (engine: Engine, fixture: Fixture)
      ensures this.engine == engine && State() == Machine([], fixture, [])
    {
      this.engine := engine;
      usesFile := fixture.File?;
      recording := if fixture.File? then fixture.contents else None;
      index := if fixture.File? then fixture.index else None;
      stack := if fixture.File? then [] else fixture.stack;
      log := [];
      consumed := [];
    }

    function CurrentFixture(): Fixture
      reads this
    {
      if usesFile then File(recording, index) else Inline(stack)
    }

    ghost function State(): Machine
      reads this
    {
      Machine(log, CurrentFixture(), consumed)
    }

    method Perform(e: Event)
      modifies `log
      ensures State() == Call(old(State()), e)
    {
      log := log + [e];
    }

    /** `_consume_unittest_fixture`; the entry, the task and the kind are recorded for the proofs. */
    method ConsumeEntry(ghost entry: Entry, ghost task: TaskId, ghost byTimer: bool)
      requires CursorOf(CurrentFixture()).At? && log != []
      modifies `index, `stack, `consumed
      ensures State() == Take(old(State()), entry, task, byTimer)
    {
      if usesFile {
        index := Some(Position(recording.value, index) - 1);
      } else {
        stack := stack[..|stack| - 1];
      }
      consumed := consumed + [Consumption(entry, task, byTimer, |log| - 1)];
    }

    /** `next_task`: the first ready task of a traversal. */
    method NextTask(ids: seq<TaskId>) returns (task: Option<TaskId>)
      ensures task == FirstReady(engine(log), ids)
    {
      for i := 0 to |ids|
        invariant FirstReady(engine(log), ids) == FirstReady(engine(log), ids[i..])
      {
        if engine(log).task(ids[i]).state == Ready {
          return Some(ids[i]);
        }
      }
      return None;
    }

    /** The search below the completed task, then from the root. */
    method NextTaskAfter(completed: TaskId) returns (task: Option<TaskId>)
      ensures task == NextReady(engine(log), completed)
    {
      task := NextTask(engine(log).below(completed));
      if task.None? {
        task := NextTask(engine(log).order);
      }
    }

    method WaitingRecordedTimer(entry: Entry) returns (task: Option<TaskId>)
      ensures task == FirstTimer(engine(log), engine(log).order, entry.id)
    {
      var ids := engine(log).order;
      for i := 0 to |ids|
        invariant FirstTimer(engine(log), ids, entry.id) == FirstTimer(engine(log), ids[i..], entry.id)
      {
        if IsWaitingTimer(engine(log).task(ids[i]), entry.id) {
          return Some(ids[i]);
        }
      }
      return None;
    }

    /** `_replay_recorded_timer`: an exception is returned in `error`. */
    method ReplayRecordedTimer(diagnoseMissing: bool)
      returns (handled: bool, timer: Option<TaskId>, error: Option<Error>)
      modifies `index, `stack, `log, `consumed
      ensures match ReplayTimer(engine, old(State()), diagnoseMissing)
              case NotHandled => !handled && timer.None? && error.None? && State() == old(State())
              case NotWaiting => handled && timer.None? && error.None? && State() == old(State())
              case Fired(m, t) => handled && timer == Some(t) && error.None? && State() == m
              case Crashed(m, e) => error == Some(e) && State() == m
    {
      var cursor := CursorOf(CurrentFixture());
      if cursor.Unreadable? {
        return false, None, Some(FixtureUnreadable);
      }
      if cursor.Stuck? || !cursor.entry.forceTimer {
        return false, None, None;
      }
      timer := WaitingRecordedTimer(cursor.entry);
      if timer.None? {
        return diagnoseMissing, None, None;
      }
      Perform(FireTimer(timer.value, cursor.entry));
      if engine(log).raised {
        return true, None, Some(EngineRaised);
      }
      ConsumeEntry(cursor.entry, timer.value, true);
      return true, timer, None;
    }

    /** The inner loop of `_advance_workflow`. */
    method ReplayRecordedTimers(task0: Option<TaskId>) returns (task: Option<TaskId>, stop: Option<Outcome>)
      modifies `index, `stack, `log, `consumed
      ensures Replayed(State(), task, stop) == ReplayTimers(engine, old(State()), task0)
    {
      task, stop := task0, None;
      while true
        invariant stop == None
        invariant ReplayTimers(engine, State(), task) == ReplayTimers(engine, old(State()), task0)
        decreases |Remaining(CurrentFixture())|
      {
        CursorIsTop(CurrentFixture());
        var diagnose := DiagnosesMissing(engine, Machine(log, CurrentFixture(), []), task);
        var handled, timer, error := ReplayRecordedTimer(diagnose);
        if error.Some? {
          return task, Some(Failed(error.value));
        }
        if !handled {
          return task, None;
        }
        if timer.None? {
          return task, Some(TimerNotWaiting);
        }
        task := NextTaskAfter(timer.value);
      }
    }

    /** The strategy's decision about the next ready task; `stop` when the loop is left. */
    method DispatchTask(strategy: Strategy, id: TaskId) returns (stop: Option<Outcome>)
      modifies `index, `stack, `log, `consumed
      ensures Dispatch(engine, strategy, old(State()), id)
              == if stop.Some? then Halt(State(), stop.value) else Again(State(), id)
    {
      var spec := engine(log).task(id).spec;
      if strategy.OneAtATime? && Truthy(spec.bpmnId) {
        return Some(StoppedBeforeTask);
      } else if strategy.Greedy? {
        if spec.custom {
          // start events without a message complete on their own
          if !(spec.startEvent && !spec.messageEvent) {
            return Some(StoppedBeforeTask);
          }
        }
      } else if strategy.UnitTest? {
        if spec.custom {
          if !(spec.startEvent && !spec.messageEvent) {
            var cursor := CursorOf(CurrentFixture());
            if cursor.Unreadable? {
              return Some(Failed(FixtureUnreadable));
            }
            if cursor.Stuck? {
              return Some(NoEntry(cursor.reason));
            }
            var entry := cursor.entry;
            if entry.id.None? {
              return Some(Failed(EntryHasNoId));
            }
            if spec.bpmnId != entry.id {
              return Some(TaskMismatch);
            }
            Perform(RunCheckpoint(id, entry));
            if engine(log).raised {
              return Some(Failed(EngineRaised));
            }
            if entry.data.None? {
              return Some(Failed(EntryHasNoData));
            }
            ConsumeEntry(entry, id, false);
          }
        }
      }
      return None;
    }

    /** `_advance_workflow`, up to the response that is built from the state it leaves. */
    method AdvanceWorkflow(strategy: Strategy, start: Option<TaskId>) returns (outcome: Outcome)
      modifies `index, `stack, `log, `consumed
      ensures (State(), outcome) == Advance(engine, strategy, old(State()), start)
    {
      hide ReplayTimers, Dispatch, NextReady;
      if start.None? {
        return NothingToRun;
      }
      var id := start.value;
      var iters := 0;
      while iters < MAX_ITERATIONS
        invariant 0 <= iters <= MAX_ITERATIONS
        invariant Run(engine, strategy, State(), id, iters) == Run(engine, strategy, old(State()), start.value, 0)
      {
        iters := iters + 1;
        Perform(Step(id, engine(log).task(id).state == Started));
        if engine(log).raised {
          return Failed(EngineRaised);
        }
        if !(strategy.UnitTest? && usesFile) && engine(log).missingLoads {
          return MissingLazyLoads;
        }
        var task := NextTaskAfter(id);
        if strategy.UnitTest? {
          var stop;
          task, stop := ReplayRecordedTimers(task);
          if stop.Some? {
            return stop.value;
          }
        }
        if task.None? {
          return NoReadyTask(strategy.UnitTest? && !engine(log).completed);
        }
        id := task.value;
        var stop := DispatchTask(strategy, id);
        if stop.Some? {
          return stop.value;
        }
      }
      return IterationLimit;
    }
  }
}
