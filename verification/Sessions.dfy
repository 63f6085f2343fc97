// The session caches of the workflow runner (runner.py): the cached workflow of each session and
// its capped step history, with jumps, truncation and clearing.
//
// Workflows are values of an arbitrary type W; the serializer is a parameter.
module Sessions {
  import opened Basics
  import Codec

  type SessionId = string

  const SPEC_KEYS := {"spec", "subprocess_specs"}
  const MINIMAL_KEYS := {"tasks", "subprocesses"}
  const MINIMAL_TASK_KEYS := {"task_spec", "state"}
  const STEP_HISTORY_CAP := 64

  // ---------- hydration ----------

  /** A parsed spec, or the parsed subprocess specs; `serialized` is the dictionary it was parsed from. */
  datatype SpecObject = SpecObject(serialized: Codec.Value)

  /** The `specs` argument once parsed. */
  datatype Specs = BadSpecs | Specs(process: SpecObject, subprocesses: SpecObject)

  /** A workflow as `to_dict` serializes it: nothing but data. */
  type Body = map<string, Codec.Value>

  /** A dictionary that hydration may have completed with spec objects, which equal no data. */
  type Doc = map<string, Field>
  datatype Field = Data(value: Codec.Value) | Object(spec: SpecObject)

  function AsDoc(body: Body): Doc {
    map k | k in body :: Data(body[k])
  }

  /** The `state` argument: None, a dictionary, base64 text (None inside when it does not decode to
      a dictionary), text that starts with a brace, or the empty string. */
  datatype StateArg =
    | NoState
    | Plain(doc: Doc)
    | Packed(content: Option<Body>)
    | RawText
    | EmptyText

  /** What `from_dict` makes of a dictionary (None when it raises) and what it leaves of it. */
  datatype Reading<+W> = Reading(workflow: Option<W>, left: Doc)

  /** `to_dict`, `from_dict` and the workflow constructor. */
  datatype Serializer<!W> = Serializer(
    toDict: W -> Body, fromDict: Doc -> Reading<W>, create: (SpecObject, SpecObject) -> Option<W>)

  predicate IsTruthy(state: StateArg) {
    match state
    case NoState => false
    case Plain(doc) => doc != map[]
    case Packed(_) => true
    case RawText => true
    case EmptyText => false
  }

  predicate IsMinimalTask(task: Codec.Value) {
    task.Dict? && task.fields.Keys == MINIMAL_TASK_KEYS
  }

  /** A dictionary with nothing but the task and subprocess lists used for diagram colours. */
  predicate IsMinimal(doc: Doc) {
    && doc.Keys == MINIMAL_KEYS
    && doc["tasks"].Data? && doc["tasks"].value.Dict?
    && forall id | id in doc["tasks"].value.fields :: IsMinimalTask(doc["tasks"].value.fields[id])
  }

  function Decoded(state: StateArg): Option<Doc> {
    match state
    case Plain(doc) => Some(doc)
    case Packed(Some(content)) => Some(AsDoc(content))
    case _ => None
  }

  function WithSpecs(doc: Doc, specs: Specs): Doc
    requires specs.Specs?
  {
    doc["spec" := Object(specs.process)]["subprocess_specs" := Object(specs.subprocesses)]
  }

  function WithoutSpecs<V>(dict: map<string, V>): map<string, V> {
    dict - SPEC_KEYS
  }

  /** `get_state`, uncompressed. */
  function State<W>(ser: Serializer<W>, w: W): Doc {
    AsDoc(WithoutSpecs(ser.toDict(w)))
  }

  /** `state` is the argument as the call leaves it: a dictionary is completed in place. */
  datatype Hydration<W> =
    | Hydrated(workflow: W, cache: map<SessionId, W>, state: StateArg)
    | HydrationRaised(state: StateArg)

  function Put<W>(cache: map<SessionId, W>, sid: Option<SessionId>, w: W): map<SessionId, W> {
    if Truthy(sid) then cache[sid.value := w] else cache
  }

  function Restore<W>(
      ser: Serializer<W>, cache: map<SessionId, W>, specs: Specs, state: StateArg, doc: Doc,
      sid: Option<SessionId>): Hydration<W>
  {
    if specs.BadSpecs? then HydrationRaised(state)
    else
      var reading := ser.fromDict(WithSpecs(doc, specs));
      var left := if state.Plain? then Plain(reading.left) else state;
      if reading.workflow.None? then HydrationRaised(left)
      else Hydrated(reading.workflow.value, Put(cache, sid, reading.workflow.value), left)
  }

  function Hydrate<W>(
      ser: Serializer<W>, cache: map<SessionId, W>, specs: Specs, state: StateArg,
      sid: Option<SessionId>): Hydration<W>
  {
    if Truthy(sid) && state.NoState? && sid.value in cache then
      Hydrated(cache[sid.value], cache, state)
    else if Truthy(sid) && IsTruthy(state) && sid.value in cache then
      var doc := Decoded(state);
      if doc.None? then HydrationRaised(state)
      else if doc.value == AsDoc(ser.toDict(cache[sid.value])) then Hydrated(cache[sid.value], cache, state)
      else Restore(ser, cache, specs, state, doc.value, sid)
    else if specs.BadSpecs? then HydrationRaised(state)
    else if !IsTruthy(state) || (state.Plain? && IsMinimal(state.doc)) then
      var w := ser.create(specs.process, specs.subprocesses);
      if w.None? then HydrationRaised(state) else Hydrated(w.value, Put(cache, sid, w.value), state)
    else
      var doc := Decoded(state);
      if doc.None? then HydrationRaised(state) else Restore(ser, cache, specs, state, doc.value, sid)
  }

  // ---------- the step history ----------

  type Steps = seq<Option<Doc>>

  datatype Store<W> = Store(workflows: map<SessionId, W>, steps: map<SessionId, Steps>)

  function StepsOf<W>(store: Store<W>, sid: SessionId): Steps {
    if sid in store.steps then store.steps[sid] else []
  }

  /** Adds a step and drops the oldest live one beyond the cap, keeping its index. */
  function AppendStep(steps: Steps, doc: Doc): Steps {
    var longer := steps + [Some(doc)];
    if |longer| > STEP_HISTORY_CAP then longer[|longer| - STEP_HISTORY_CAP - 1 := None] else longer
  }

  function RecordStep<W>(ser: Serializer<W>, store: Store<W>, sid: Option<SessionId>, w: W): Store<W> {
    if Truthy(sid) then
      store.(steps := store.steps[sid.value := AppendStep(StepsOf(store, sid.value), State(ser, w))])
    else store
  }

  // ---------- one call of advance_workflow ----------

  /** How building a response ends: an exception may come before or after the step is stored. */
  datatype Reply = Sent | FailsBeforeStep | FailsAfterStep

  /** What the engine does with the workflow, and how the two attempts to respond end. */
  datatype Progress<W> = Progress(workflow: W, raised: bool, first: Reply, second: Reply)

  datatype Response = StepIdx(idx: nat) | NoSession | ErrorMessage | HydrationError

  /** The store and response after a call; `recorded` are the workflows whose steps were stored. */
  datatype Advanced<W> = Advanced(store: Store<W>, response: Response, recorded: seq<W>)

  function JumpTarget<W>(store: Store<W>, sid: Option<SessionId>, jump: Option<int>): Option<nat> {
    if jump.Some? && Truthy(sid) && sid.value in store.steps && 0 <= jump.value < |store.steps[sid.value]|
    then Some(jump.value)
    else None
  }

  function JumpState<W>(store: Store<W>, state: StateArg, sid: Option<SessionId>, jump: Option<int>): StateArg {
    var target := JumpTarget(store, sid, jump);
    if target.None? then state
    else
      var step := store.steps[sid.value][target.value];
      if step.None? then NoState else Plain(step.value)
  }

  /** The jumped-to dictionary is still the one in the history: what hydration leaves of it is what the
      history then holds. */
  function WriteBack<W>(
      store: Store<W>, sid: Option<SessionId>, jump: Option<int>, left: StateArg): (written: Store<W>)
    ensures written.workflows == store.workflows
  {
    var target := JumpTarget(store, sid, jump);
    if target.Some? && left.Plain? then
      store.(steps := store.steps[sid.value := store.steps[sid.value][target.value := Some(left.doc)]])
    else store
  }

  function LastStep<W>(store: Store<W>, sid: Option<SessionId>): Response {
    if Truthy(sid) && |StepsOf(store, sid.value)| > 0 then StepIdx(|StepsOf(store, sid.value)| - 1) else NoSession
  }

  /** One attempt to build a response: the store it leaves, the response if one was sent, and the
      workflows recorded. */
  function Respond<W>(ser: Serializer<W>, store: Store<W>, sid: Option<SessionId>, w: W, reply: Reply): Advanced<W> {
    if reply.FailsBeforeStep? then Advanced(store, ErrorMessage, [])
    else
      var stored := RecordStep(ser, store, sid, w);
      Advanced(stored, if reply.Sent? then LastStep(stored, sid) else ErrorMessage, if Truthy(sid) then [w] else [])
  }

  function Advance<W>(
      ser: Serializer<W>, store: Store<W>, specs: Specs, state: StateArg, sid: Option<SessionId>,
      jump: Option<int>, engine: W -> Progress<W>): Advanced<W>
  {
    var h := Hydrate(ser, store.workflows, specs, JumpState(store, state, sid, jump), sid);
    var written := WriteBack(store, sid, jump, h.state);
    if h.HydrationRaised? then Advanced(written, HydrationError, [])
    else
      var p := engine(h.workflow);
      var ran := written.(workflows := Put(h.cache, sid, p.workflow));
      if p.raised then Respond(ser, ran, sid, p.workflow, p.second)
      else
        var first := Respond(ser, ran, sid, p.workflow, p.first);
        if p.first.Sent? then first
        else
          var second := Respond(ser, first.store, sid, p.workflow, p.second);
          second.(recorded := first.recorded + second.recorded)
  }

  // ---------- truncating and clearing ----------

  /** `truncate_step_history`, with the number of steps removed. */
  function Truncate<W>(store: Store<W>, sid: Option<SessionId>, idx: Option<int>): (Store<W>, nat) {
    if Truthy(sid) && sid.value in store.steps && idx.Some? && 0 <= idx.value < |store.steps[sid.value]| then
      (store.(steps := store.steps[sid.value := store.steps[sid.value][..idx.value + 1]]),
       |store.steps[sid.value]| - idx.value - 1)
    else (store, 0)
  }

  function Drop<V>(m: map<SessionId, V>, sid: SessionId): map<SessionId, V> {
    m - {sid}
  }

  lemma {:induction false} DropMissing<V>(m: map<SessionId, V>, sid: SessionId)
    requires sid !in m
    ensures Drop(m, sid) == m
  {
  }

  /** `clear_workflow_cache`, with the number of entries cleared. */
  function Clear<W>(store: Store<W>, sid: Option<SessionId>): (Store<W>, nat) {
    if Truthy(sid) then
      (Store(Drop(store.workflows, sid.value), Drop(store.steps, sid.value)),
       (if sid.value in store.workflows then 1 else 0) + (if sid.value in store.steps then 1 else 0))
    else (Store(map[], map[]), |store.workflows| + |store.steps|)
  }

  // ---------- the state sent to the caller ----------

  /** What `get_minimal_state` reads of a workflow: task spec and state by task id. */
  datatype TaskView = TaskView(taskSpec: string, state: int)
  datatype SubprocessView = SubprocessView(spec: string, tasks: map<string, TaskView>)
  datatype WorkflowView = WorkflowView(tasks: map<string, TaskView>, subprocesses: map<string, SubprocessView>)

  function MinimalTask(t: TaskView): Codec.Value {
    Codec.Dict(map["task_spec" := Codec.Text(t.taskSpec), "state" := Codec.Int(t.state)])
  }

  function MinimalTasks(tasks: map<string, TaskView>): Codec.Value {
    Codec.Dict(map id | id in tasks :: MinimalTask(tasks[id]))
  }

  function MinimalSubprocess(sp: SubprocessView): Codec.Value {
    Codec.Dict(map["spec" := Codec.Text(sp.spec), "tasks" := MinimalTasks(sp.tasks)])
  }

  function MinimalState(w: WorkflowView): Body {
    map["tasks" := MinimalTasks(w.tasks),
        "subprocesses" := Codec.Dict(map name | name in w.subprocesses :: MinimalSubprocess(w.subprocesses[name]))]
  }

  /** `get_state` with compression, as `hydrate_workflow` will read it back. */
  function CompressedState<W>(t: Codec.TextForms, ser: Serializer<W>, w: W): StateArg {
    match Codec.RoundTrip(t, Codec.Dict(WithoutSpecs(ser.toDict(w))))
    case Some(Dict(fields)) => Packed(Some(fields))
    case _ => Packed(None)
  }
}
