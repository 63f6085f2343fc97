// What a whole run of the advance loop keeps, for every behaviour of the engine.
module ReplayProofs {
  import opened Basics
  import opened Replay

  // ---------- conservation of recorded entries ----------

  ghost function Entries(cs: seq<Consumption>): seq<Entry> {
    seq(|cs|, i requires 0 <= i < |cs| => cs[i].entry)
  }

  ghost function Reversed(s: seq<Entry>): seq<Entry> {
    seq(|s|, i requires 0 <= i < |s| => s[|s| - 1 - i])
  }

  /** What was consumed, followed by what is left in the order in which it will be consumed. */
  ghost function Ledger(m: Machine): seq<Entry> {
    Entries(m.consumed) + Reversed(Remaining(m.fixture))
  }

  lemma {:induction false} TakeKeepsLedger(m: Machine, task: TaskId, byTimer: bool)
    requires CursorOf(m.fixture).At? && m.log != []
    ensures Ledger(Take(m, CursorOf(m.fixture).entry, task, byTimer)) == Ledger(m)
  {
    CursorIsTop(m.fixture);
    var top := CursorOf(m.fixture).entry;
    var m' := Take(m, top, task, byTimer);
    assert Entries(m'.consumed) == Entries(m.consumed) + [top];
    assert Reversed(Remaining(m.fixture)) == [top] + Reversed(Remaining(m'.fixture));
  }

  lemma {:induction false} ReplayTimersKeepsLedger(engine: Engine, m: Machine, task: Option<TaskId>)
    ensures Ledger(ReplayTimers(engine, m, task).m) == Ledger(m)
    decreases |Remaining(m.fixture)|
  {
    CursorIsTop(m.fixture);
    match ReplayTimer(engine, m, DiagnosesMissing(engine, m, task))
    case Fired(m', timer) =>
      TakeKeepsLedger(Call(m, FireTimer(timer, CursorOf(m.fixture).entry)), timer, true);
      ReplayTimersKeepsLedger(engine, m', NextReady(engine(m'.log), timer));
    case _ =>
  }

  lemma {:induction false} TurnKeepsLedger(engine: Engine, strategy: Strategy, m: Machine, id: TaskId)
    ensures Ledger(TurnOf(engine, strategy, m, id).m) == Ledger(m)
  {
    var called := Call(m, Step(id, engine(m.log).task(id).state == Started));
    var next := NextReady(engine(called.log), id);
    ReplayTimersKeepsLedger(engine, called, next);
    var r := if strategy.UnitTest? then ReplayTimers(engine, called, next) else Replayed(called, next, None);
    if r.task.Some? && CursorOf(r.m.fixture).At? {
      TakeKeepsLedger(Call(r.m, RunCheckpoint(r.task.value, CursorOf(r.m.fixture).entry)), r.task.value, false);
    }
  }

  lemma {:induction false} RunKeepsLedger(engine: Engine, strategy: Strategy, m: Machine, id: TaskId, iters: nat)
    ensures Ledger(Run(engine, strategy, m, id, iters).0) == Ledger(m)
    decreases MAX_ITERATIONS - iters
  {
    if iters < MAX_ITERATIONS {
      hide TurnOf;
      TurnKeepsLedger(engine, strategy, m, id);
      match TurnOf(engine, strategy, m, id)
      case Again(m', next) => RunKeepsLedger(engine, strategy, m', next, iters + 1);
      case Halt(_, _) =>
    }
  }

  /** `m'` has consumed the last entries of what `m` had, each once, last one first. */
  ghost predicate ConsumedFromTheEnd(m: Machine, m': Machine) {
    var stack, k := Remaining(m.fixture), |m'.consumed|;
    && k <= |stack|
    && Remaining(m'.fixture) == stack[..|stack| - k]
    && forall i | 0 <= i < k :: m'.consumed[i].entry == stack[|stack| - 1 - i]
  }

  /** The entries a run consumes are exactly the last k of the stack, in reverse order. */
  lemma {:induction false} ConsumesLastEntries(engine: Engine, strategy: Strategy, m: Machine, task: Option<TaskId>)
    requires m.consumed == []
    ensures ConsumedFromTheEnd(m, Advance(engine, strategy, m, task).0)
  {
    if task.Some? {
      RunKeepsLedger(engine, strategy, m, task.value, 0);
    }
    LedgerFromTheEnd(m, Advance(engine, strategy, m, task).0);
  }

  lemma {:induction false} LedgerFromTheEnd(m: Machine, m': Machine)
    requires m.consumed == [] && Ledger(m') == Ledger(m)
    ensures ConsumedFromTheEnd(m, m')
  {
    hide Remaining;
    assert Ledger(m) == Reversed(Remaining(m.fixture));
    SplitLedger(m'.consumed, Remaining(m'.fixture), Remaining(m.fixture));
  }

  lemma {:induction false} SplitLedger(cs: seq<Consumption>, left: seq<Entry>, stack: seq<Entry>)
    requires Entries(cs) + Reversed(left) == Reversed(stack)
    ensures |stack| == |cs| + |left|
    ensures left == stack[..|left|]
    ensures forall i | 0 <= i < |cs| :: cs[i].entry == stack[|stack| - 1 - i]
  {
    var ledger := Entries(cs) + Reversed(left);
    assert |ledger| == |cs| + |left|;
    forall i | 0 <= i < |cs|
      ensures cs[i].entry == stack[|stack| - 1 - i]
    {
      assert ledger[i] == Reversed(stack)[i];
    }
    forall i | 0 <= i < |left|
      ensures left[i] == stack[i]
    {
      var j := |stack| - 1 - i;
      assert ledger[j] == Reversed(left)[j - |cs|];
    }
  }

  // ---------- which calls are made for an entry ----------

  /** The task needs input from outside the runner: every task class of its own does, but for a start
      event that waits for no message. */
  ghost predicate NeedsInput(t: Task) {
    t.spec.custom && (t.spec.startEvent ==> t.spec.messageEvent)
  }

  /** A timer is fired while it waits, for a force_timer entry with its id; a task is run outside the
      step of an iteration only if it needs input, for an ordinary entry with its id. */
  ghost predicate Fits(engine: Engine, before: seq<Event>, e: Event) {
    match e
    case Step(_, _) => true
    case FireTimer(task, entry) => entry.forceTimer && TimerIn(engine(before), entry.id)(task)
    case RunCheckpoint(task, entry) =>
      && !entry.forceTimer && NeedsInput(engine(before).task(task))
      && entry.id.Some? && engine(before).task(task).spec.bpmnId == entry.id
  }

  /** Entry number `k`, in the order of consumption, was the top when call `i` was made. */
  ghost predicate TopAt(m: Machine, i: nat, k: nat) {
    && k <= |m.consumed|
    && (forall j | 0 <= j < k :: m.consumed[j].at < i)
    && (forall j | k <= j < |m.consumed| :: i <= m.consumed[j].at)
  }

  /** The call was made for the entry that was then the top of the fixture. */
  ghost predicate MadeForTop(m: Machine, i: nat)
    requires i < |m.log|
  {
    m.log[i].Step? || exists k | 0 <= k < |Ledger(m)| :: TopAt(m, i, k) && Ledger(m)[k] == m.log[i].entry
  }

  /** A consumption answers the call it was made for; a task gets its data from the entry. */
  ghost predicate Answers(log: seq<Event>, c: Consumption) {
    (c.byTimer || c.entry.data.Some?) && c.at < |log| && log[c.at] == if c.byTimer then FireTimer(c.task, c.entry) else RunCheckpoint(c.task, c.entry)
  }

  ghost predicate AllJustified(engine: Engine, m: Machine) {
    && (forall i | 0 <= i < |m.log| :: Fits(engine, m.log[..i], m.log[i]) && MadeForTop(m, i))
    && (forall i | 0 <= i < |m.consumed| :: Answers(m.log, m.consumed[i]))
    && (forall i, j | 0 <= i < j < |m.consumed| :: m.consumed[i].at < m.consumed[j].at)
  }

  lemma {:induction false} TopIsNext(m: Machine)
    requires CursorOf(m.fixture).At?
    ensures |m.consumed| < |Ledger(m)| && Ledger(m)[|m.consumed|] == CursorOf(m.fixture).entry
  {
    CursorIsTop(m.fixture);
  }

  lemma {:induction false} CallKeepsJustified(engine: Engine, m: Machine, e: Event)
    requires AllJustified(engine, m) && Fits(engine, m.log, e)
    requires e.Step? || CursorOf(m.fixture) == At(e.entry)
    ensures AllJustified(engine, Call(m, e))
  {
    var m' := Call(m, e);
    if !e.Step? {
      TopIsNext(m);
      assert TopAt(m', |m.log|, |m.consumed|);
    }
    assert Ledger(m') == Ledger(m);
    hide Fits, Ledger;
    forall i | 0 <= i < |m'.log|
      ensures Fits(engine, m'.log[..i], m'.log[i]) && MadeForTop(m', i)
    {
      if i < |m.log| {
        assert m'.log[..i] == m.log[..i];
        assert MadeForTop(m, i);
        if !m.log[i].Step? {
          var k :| 0 <= k < |Ledger(m)| && TopAt(m, i, k) && Ledger(m)[k] == m.log[i].entry;
          assert TopAt(m', i, k);
        }
      } else {
        assert m'.log[..i] == m.log;
      }
    }
  }

  lemma {:induction false} TakeKeepsJustified(engine: Engine, m: Machine, task: TaskId, byTimer: bool)
    requires AllJustified(engine, m) && CursorOf(m.fixture).At? && m.log != []
    requires var entry := CursorOf(m.fixture).entry;
             && m.log[|m.log| - 1] == (if byTimer then FireTimer(task, entry) else RunCheckpoint(task, entry))
             && (byTimer || entry.data.Some?)
    requires forall j | 0 <= j < |m.consumed| :: m.consumed[j].at < |m.log| - 1
    ensures AllJustified(engine, Take(m, CursorOf(m.fixture).entry, task, byTimer))
  {
    var m' := Take(m, CursorOf(m.fixture).entry, task, byTimer);
    TakeKeepsLedger(m, task, byTimer);
    hide Fits, Ledger, Consume;
    forall i | 0 <= i < |m'.log|
      ensures MadeForTop(m', i)
    {
      TakeKeepsTop(m, m', i);
    }
    hide MadeForTop;
  }

  /** A later consumption does not change which entry was the top before. */
  lemma {:induction false} TakeKeepsTop(m: Machine, m': Machine, i: nat)
    requires i < |m.log| && m'.log == m.log && Ledger(m') == Ledger(m) && MadeForTop(m, i)
    requires |m'.consumed| == |m.consumed| + 1 && m'.consumed[..|m.consumed|] == m.consumed
    requires i <= m'.consumed[|m.consumed|].at
    ensures MadeForTop(m', i)
  {
    hide Ledger;
    if !m.log[i].Step? {
      var k :| 0 <= k < |Ledger(m)| && TopAt(m, i, k) && Ledger(m)[k] == m.log[i].entry;
      assert forall j | 0 <= j < |m.consumed| :: m'.consumed[j] == m.consumed[j];
      assert TopAt(m', i, k);
    }
  }

  /** One call made for the top entry, which is consumed when the call succeeds. */
  lemma {:induction false} CallAndTakeKeepJustified(engine: Engine, m: Machine, e: Event)
    requires AllJustified(engine, m) && !e.Step? && CursorOf(m.fixture) == At(e.entry) && Fits(engine, m.log, e)
    ensures AllJustified(engine, Call(m, e))
    ensures e.FireTimer? || e.entry.data.Some? ==> AllJustified(engine, Take(Call(m, e), e.entry, e.task, e.FireTimer?))
  {
    CallKeepsJustified(engine, m, e);
    assert forall j | 0 <= j < |m.consumed| :: Answers(m.log, m.consumed[j]);
    hide AllJustified, Fits;
    if e.FireTimer? || e.entry.data.Some? {
      TakeKeepsJustified(engine, Call(m, e), e.task, e.FireTimer?);
    }
  }

  lemma {:induction false} ReplayTimersJustified(engine: Engine, m: Machine, task: Option<TaskId>)
    requires AllJustified(engine, m)
    ensures var r := ReplayTimers(engine, m, task);
            && AllJustified(engine, r.m)
            && (r.stop.None? && DiagnosesMissing(engine, r.m, r.task) && CursorOf(r.m.fixture).At?
                ==> !CursorOf(r.m.fixture).entry.forceTimer)
    decreases |Remaining(m.fixture)|
  {
    CursorIsTop(m.fixture);
    hide AllJustified;
    var cursor := CursorOf(m.fixture);
    if cursor.At? {
      FirstTimerFinds(engine(m.log), engine(m.log).order, cursor.entry.id);
      var timer := FirstTimer(engine(m.log), engine(m.log).order, cursor.entry.id);
      if cursor.entry.forceTimer && timer.Some? {
        CallAndTakeKeepJustified(engine, m, FireTimer(timer.value, cursor.entry));
      }
    }
    match ReplayTimer(engine, m, DiagnosesMissing(engine, m, task))
    case Fired(m', timer) => ReplayTimersJustified(engine, m', NextReady(engine(m'.log), timer));
    case _ =>
  }

  lemma {:induction false} DispatchJustified(engine: Engine, m: Machine, id: TaskId)
    requires AllJustified(engine, m)
    requires CursorOf(m.fixture).At? && IsCheckpoint(engine(m.log).task(id)) ==> !CursorOf(m.fixture).entry.forceTimer
    ensures AllJustified(engine, Dispatch(engine, UnitTest, m, id).m)
  {
    hide AllJustified;
    if CursorOf(m.fixture).At? && IsCheckpoint(engine(m.log).task(id)) {
      var e := RunCheckpoint(id, CursorOf(m.fixture).entry);
      if e.entry.id.Some? && engine(m.log).task(id).spec.bpmnId == e.entry.id {
        CallAndTakeKeepJustified(engine, m, e);
      }
    }
  }

  lemma {:induction false} TurnJustified(engine: Engine, strategy: Strategy, m: Machine, id: TaskId)
    requires AllJustified(engine, m)
    ensures AllJustified(engine, TurnOf(engine, strategy, m, id).m)
  {
    hide AllJustified;
    var e := Step(id, engine(m.log).task(id).state == Started);
    CallKeepsJustified(engine, m, e);
    var called := Call(m, e);
    if strategy.UnitTest? {
      var next := NextReady(engine(called.log), id);
      ReplayTimersJustified(engine, called, next);
      var r := ReplayTimers(engine, called, next);
      if r.stop.None? && r.task.Some? {
        DispatchJustified(engine, r.m, r.task.value);
      }
    }
  }

  /** Every call a run makes outside its steps, whether it raises or not, is made for the entry then on
      top of the fixture: a waiting timer for a force_timer entry with its id, or a checkpoint for an
      ordinary one with its id. Every consumption answers such a call, one of its own. */
  lemma {:induction false} RunJustified(engine: Engine, strategy: Strategy, m: Machine, id: TaskId, iters: nat)
    requires AllJustified(engine, m)
    ensures AllJustified(engine, Run(engine, strategy, m, id, iters).0)
    decreases MAX_ITERATIONS - iters
  {
    if iters < MAX_ITERATIONS {
      hide TurnOf;
      TurnJustified(engine, strategy, m, id);
      match TurnOf(engine, strategy, m, id)
      case Again(m', next) => RunJustified(engine, strategy, m', next, iters + 1);
      case Halt(_, _) =>
    }
  }
}
