// What every sequence of advances, jumps, truncations and clears keeps in the session caches.
module SessionProofs {
  import opened Basics
  import opened Sessions
  import Codec

  // ---------- the uncapped history ----------

  /** Every workflow recorded for a session since its start or last truncation; the steps from
      `live` on are still held by the capped history, and those in `touched` were restored from by a
      jump since they were recorded. */
  datatype History<W> = History(full: seq<W>, live: nat, touched: set<int>)

  type Track<W> = map<SessionId, History<W>>

  ghost function Appended<W>(h: History<W>, w: W): History<W> {
    var n := |h.full| + 1;
    h.(full := h.full + [w], live := if n - STEP_HISTORY_CAP > h.live then n - STEP_HISTORY_CAP else h.live)
  }

  ghost function AppendedAll<W>(h: History<W>, ws: seq<W>): History<W> {
    if ws == [] then h else Appended(AppendedAll(h, ws[..|ws| - 1]), ws[|ws| - 1])
  }

  ghost function HistoryOf<W>(g: Track<W>, sid: SessionId): History<W> {
    if sid in g then g[sid] else History([], 0, {})
  }

  ghost function TrackRecorded<W>(g: Track<W>, sid: Option<SessionId>, recorded: seq<W>): Track<W> {
    if Truthy(sid) && recorded != [] then g[sid.value := AppendedAll(HistoryOf(g, sid.value), recorded)] else g
  }

  ghost predicate IsLive<W>(g: Track<W>, sid: SessionId, i: int) {
    sid in g && g[sid].live <= i < |g[sid].full|
  }

  /** A jump restores from the history's own dictionary, unless the step is gone or the specs are bad. */
  ghost function TrackJumped<W>(g: Track<W>, specs: Specs, sid: Option<SessionId>, jump: Option<int>): Track<W> {
    if specs.Specs? && Truthy(sid) && jump.Some? && IsLive(g, sid.value, jump.value) then
      g[sid.value := g[sid.value].(touched := g[sid.value].touched + {jump.value})]
    else g
  }

  ghost function TrackTruncated<W>(g: Track<W>, sid: Option<SessionId>, idx: Option<int>): Track<W> {
    if Truthy(sid) && sid.value in g && idx.Some? && 0 <= idx.value < |g[sid.value].full| then
      var h, n := g[sid.value], idx.value + 1;
      g[sid.value := History(h.full[..n], if h.live < n then h.live else n, set i | i in h.touched && i < n)]
    else g
  }

  ghost function TrackCleared<W>(g: Track<W>, sid: Option<SessionId>): Track<W> {
    if Truthy(sid) then Drop(g, sid.value) else map[]
  }

  // ---------- what restoring leaves of a dictionary ----------

  /** `from_dict` may take the spec entries out of the dictionary it is given, but does nothing else
      to it. Nothing below assumes this unless it says so. */
  ghost predicate LeavesState<W>(ser: Serializer<W>) {
    forall doc :: LeftOf(ser.fromDict(doc).left, doc)
  }

  ghost predicate LeftOf(left: Doc, doc: Doc) {
    && WithoutSpecs(left) == WithoutSpecs(doc)
    && forall k | k in left && k in SPEC_KEYS :: k in doc && left[k] == doc[k]
  }

  /** The task state of `doc` is `state`, and its spec entries, if it has any, are spec objects. */
  ghost predicate Holds(doc: Doc, state: Doc) {
    && WithoutSpecs(doc) == state
    && forall k | k in doc && k in SPEC_KEYS :: doc[k].Object?
  }

  lemma {:induction false} CompletedHolds(doc: Doc, state: Doc, specs: Specs)
    requires specs.Specs? && Holds(doc, state)
    ensures Holds(WithSpecs(doc, specs), state)
    ensures WithSpecs(doc, specs) == WithSpecs(state, specs)
  {
    assert WithoutSpecs(WithSpecs(doc, specs)) == WithoutSpecs(doc);
    forall k
      ensures k in WithSpecs(doc, specs) <==> k in WithSpecs(state, specs)
      ensures k in WithSpecs(doc, specs) ==> WithSpecs(doc, specs)[k] == WithSpecs(state, specs)[k]
    {
      if k !in SPEC_KEYS {
        assert k in doc <==> k in WithoutSpecs(doc);
      }
    }
  }

  lemma {:induction false} StateHolds<W>(ser: Serializer<W>, w: W)
    ensures Holds(State(ser, w), State(ser, w))
  {
    assert WithoutSpecs(State(ser, w)) == State(ser, w);
  }

  /** The dictionary a call of hydration leaves is the one it was given, or what `from_dict` leaves of
      that with the spec objects in it. Then its task state is unchanged if `from_dict` leaves it so. */
  lemma {:induction false} HydrationKeepsTaskState<W>(
      ser: Serializer<W>, cache: map<SessionId, W>, specs: Specs, state: StateArg, sid: Option<SessionId>)
    ensures var left := Hydrate(ser, cache, specs, state, sid).state;
            && (left == state
                || (state.Plain? && specs.Specs? && left == Plain(ser.fromDict(WithSpecs(state.doc, specs)).left)))
            && (LeavesState(ser) && state.Plain? ==>
                  left == state || Holds(left.doc, WithoutSpecs(state.doc)))
  {
    if LeavesState(ser) && state.Plain? && specs.Specs? {
      var full := WithSpecs(state.doc, specs);
      assert WithoutSpecs(full) == WithoutSpecs(state.doc);
      assert LeftOf(ser.fromDict(full).left, full);
    }
  }

  // ---------- how the caches match it ----------

  /** A live step holds exactly the recorded state. Once it was restored from, it holds what `from_dict`
      has left of that: the recorded state and perhaps spec objects, if `from_dict` leaves the state. */
  ghost predicate StepMatches<W>(ser: Serializer<W>, step: Option<Doc>, w: W, touched: bool) {
    && step.Some?
    && (!touched ==> step.value == State(ser, w))
    && (LeavesState(ser) ==> Holds(step.value, State(ser, w)))
  }

  /** As long as the uncapped history; the live steps are a suffix of at most 64, each holding the
      uncapped entry at its index, and all older ones are gone. */
  ghost predicate HistoryMatches<W>(ser: Serializer<W>, steps: Steps, h: History<W>) {
    && |steps| == |h.full|
    && |h.full| - STEP_HISTORY_CAP <= h.live <= |h.full|
    && (forall i | 0 <= i < h.live :: steps[i] == None)
    && (forall i | h.live <= i < |steps| :: StepMatches(ser, steps[i], h.full[i], i in h.touched))
  }

  ghost predicate Matches<W>(ser: Serializer<W>, store: Store<W>, g: Track<W>) {
    && store.steps.Keys == g.Keys
    && store.steps.Keys <= store.workflows.Keys
    && forall sid | sid in g :: g[sid].full != [] && HistoryMatches(ser, store.steps[sid], g[sid])
  }

  lemma {:induction false} AppendMatches<W>(ser: Serializer<W>, steps: Steps, h: History<W>, w: W)
    requires HistoryMatches(ser, steps, h)
    ensures var steps' := AppendStep(steps, State(ser, w));
            && HistoryMatches(ser, steps', Appended(h, w))
            && |steps'| == |steps| + 1 && steps'[|steps|] == Some(State(ser, w))
            && (|steps'| > 64 ==> steps'[|steps'| - 65] == None)
            && forall i | 0 <= i < |steps| && i != |steps'| - 65 :: steps'[i] == steps[i]
  {
    StateHolds(ser, w);
    hide Holds, State, LeavesState;
    var steps', h' := AppendStep(steps, State(ser, w)), Appended(h, w);
    forall i | h'.live <= i < |steps'|
      ensures StepMatches(ser, steps'[i], h'.full[i], i in h'.touched)
    {
      if i < |steps| {
        assert steps'[i] == steps[i];
      }
    }
  }

  lemma {:induction false} AppendOne<W>(h: History<W>, w: W)
    ensures AppendedAll(h, [w]) == Appended(h, w)
  {
    assert [w][..0] == [];
    assert AppendedAll(h, [w][..0]) == h;
  }

  lemma {:induction false} RecordMatches<W>(
      ser: Serializer<W>, store: Store<W>, g: Track<W>, sid: Option<SessionId>, w: W)
    requires Matches(ser, store, g)
    requires Truthy(sid) ==> sid.value in store.workflows
    ensures Matches(ser, RecordStep(ser, store, sid, w), TrackRecorded(g, sid, [w]))
  {
    if Truthy(sid) {
      AppendOne(HistoryOf(g, sid.value), w);
      AppendMatches(ser, StepsOf(store, sid.value), HistoryOf(g, sid.value), w);
    }
  }

  lemma {:induction false} RespondMatches<W>(
      ser: Serializer<W>, store: Store<W>, g: Track<W>, sid: Option<SessionId>, w: W, reply: Reply)
    requires Matches(ser, store, g)
    requires Truthy(sid) ==> sid.value in store.workflows
    ensures var r := Respond(ser, store, sid, w, reply);
            var g' := TrackRecorded(g, sid, r.recorded);
            && Matches(ser, r.store, g') && r.store.workflows == store.workflows
            && (r.response.StepIdx? ==> Truthy(sid) && sid.value in g' && r.response.idx == |g'[sid.value].full| - 1)
            && (reply.Sent? && Truthy(sid) ==> r.response.StepIdx?)
  {
    RecordMatches(ser, store, g, sid, w);
  }

  /** What a jump writes back is matched by marking the step as restored from. */
  lemma {:induction false} WriteBackMatches<W>(
      ser: Serializer<W>, store: Store<W>, g: Track<W>, specs: Specs, state: StateArg, sid: Option<SessionId>,
      jump: Option<int>)
    requires Matches(ser, store, g)
    ensures var h := Hydrate(ser, store.workflows, specs, JumpState(store, state, sid, jump), sid);
            Matches(ser, WriteBack(store, sid, jump, h.state), TrackJumped(g, specs, sid, jump))
  {
    var current := JumpState(store, state, sid, jump);
    var left := Hydrate(ser, store.workflows, specs, current, sid).state;
    HydrationKeepsTaskState(ser, store.workflows, specs, current, sid);
    hide Hydrate, LeavesState, State;
    var target := JumpTarget(store, sid, jump);
    if target.Some? {
      var i, steps, h := target.value, store.steps[sid.value], g[sid.value];
      assert HistoryMatches(ser, steps, h);
      assert IsLive(g, sid.value, i) <==> steps[i].Some?;
      if steps[i].Some? {
        assert StepMatches(ser, steps[i], h.full[i], i in h.touched);
        var h' := if specs.Specs? then h.(touched := h.touched + {i}) else h;
        assert StepMatches(ser, Some(left.doc), h.full[i], i in h'.touched);
        UpdateMatches(ser, steps, h, i, left.doc, h');
        assert TrackJumped(g, specs, sid, jump) == g[sid.value := h'];
      }
    }
  }

  lemma {:induction false} UpdateMatches<W>(
      ser: Serializer<W>, steps: Steps, h: History<W>, i: nat, doc: Doc, h': History<W>)
    requires HistoryMatches(ser, steps, h) && h.live <= i < |steps|
    requires h' == h || h' == h.(touched := h.touched + {i})
    requires StepMatches(ser, Some(doc), h.full[i], i in h'.touched)
    ensures HistoryMatches(ser, steps[i := Some(doc)], h')
  {
    hide StepMatches;
  }

  lemma {:induction false} AppendLast<W>(h: History<W>, first: seq<W>, w: W)
    ensures AppendedAll(AppendedAll(h, first), [w]) == AppendedAll(h, first + [w])
  {
    hide Appended;
    assert (first + [w])[..|first|] == first;
    AppendOne(AppendedAll(h, first), w);
  }

  lemma {:induction false} TrackTwice<W>(g: Track<W>, sid: Option<SessionId>, first: seq<W>, second: seq<W>)
    requires |second| <= 1
    ensures TrackRecorded(TrackRecorded(g, sid, first), sid, second) == TrackRecorded(g, sid, first + second)
  {
    if second == [] {
      assert first + second == first;
    } else if first == [] {
      assert first + second == second;
    } else if Truthy(sid) {
      hide AppendedAll;
      assert second == [second[0]];
      AppendLast(HistoryOf(g, sid.value), first, second[0]);
    }
  }

  /** The uncapped history after a call of advance_workflow that recorded `recorded`. */
  ghost function TrackAdvanced<W>(
      g: Track<W>, specs: Specs, sid: Option<SessionId>, jump: Option<int>, recorded: seq<W>): Track<W>
  {
    TrackRecorded(TrackJumped(g, specs, sid, jump), sid, recorded)
  }

  /** A call of advance_workflow adds to the uncapped history exactly the workflows it recorded, marks
      no step as restored from but the one jumped to, and the index it returns is the last one. */
  lemma {:induction false} AdvanceMatches<W>(
      ser: Serializer<W>, store: Store<W>, g: Track<W>, specs: Specs, state: StateArg, sid: Option<SessionId>,
      jump: Option<int>, engine: W -> Progress<W>)
    requires Matches(ser, store, g)
    ensures var r := Advance(ser, store, specs, state, sid, jump, engine);
            var g' := TrackAdvanced(g, specs, sid, jump, r.recorded);
            && Matches(ser, r.store, g')
            && (r.response.StepIdx? ==> Truthy(sid) && sid.value in g' && r.response.idx == |g'[sid.value].full| - 1)
  {
    var current := JumpState(store, state, sid, jump);
    var h := Hydrate(ser, store.workflows, specs, current, sid);
    WriteBackMatches(ser, store, g, specs, state, sid, jump);
    HydratedIsCached(ser, store.workflows, specs, current, sid);
    hide Hydrate, Respond, JumpState, HistoryMatches, WriteBack, TrackRecorded, TrackJumped;
    var written := WriteBack(store, sid, jump, h.state);
    var g0 := TrackJumped(g, specs, sid, jump);
    TrackNothing(g0, sid);
    if h.Hydrated? {
      var p := engine(h.workflow);
      var ran := written.(workflows := Put(h.cache, sid, p.workflow));
      assert Matches(ser, ran, g0);
      if p.raised {
        RespondMatches(ser, ran, g0, sid, p.workflow, p.second);
      } else {
        RespondMatches(ser, ran, g0, sid, p.workflow, p.first);
        var first := Respond(ser, ran, sid, p.workflow, p.first);
        var g1 := TrackRecorded(g0, sid, first.recorded);
        RespondMatches(ser, first.store, g1, sid, p.workflow, p.second);
        var second := Respond(ser, first.store, sid, p.workflow, p.second);
        RecordsAtMostOne(ser, first.store, sid, p.workflow, p.second);
        TrackTwice(g0, sid, first.recorded, second.recorded);
      }
    }
  }

  /** What a call does with the outcome `h` of its hydration: the engine gets the hydrated workflow and
      no other; the workflow as the engine left it is in the session's cache, and is recorded once for
      each attempt to respond that got as far as storing a step; no other session is touched. Without a
      session, nothing is stored. */
  ghost predicate AdvancesFrom<W>(
      store: Store<W>, sid: Option<SessionId>, engine: W -> Progress<W>, h: Hydration<W>, r: Advanced<W>)
  {
    var session := sid.Some? && sid.value != "";
    && (forall other | !(session && other == sid.value) ::
          && (other in r.store.workflows <==> other in store.workflows)
          && (other in store.workflows ==> r.store.workflows[other] == store.workflows[other])
          && StepsOf(r.store, other) == StepsOf(store, other))
    && (h.HydrationRaised? ==> r.response == HydrationError && r.recorded == [] && r.store.workflows == store.workflows)
    && (h.Hydrated? ==>
          var p := engine(h.workflow);
          var sent := (!p.raised && p.first.Sent?) || p.second.Sent?;
          && (session ==> sid.value in r.store.workflows && r.store.workflows[sid.value] == p.workflow)
          && (forall w | w in r.recorded :: w == p.workflow)
          && |r.recorded| == (if !session || p.raised || p.first.FailsBeforeStep? then 0 else 1)
                             + (if !session || (!p.raised && p.first.Sent?) || p.second.FailsBeforeStep? then 0 else 1)
          && if !sent then r.response == ErrorMessage else if session then r.response.StepIdx? else r.response == NoSession)
  }

  ghost predicate JumpsToStep<W>(store: Store<W>, sid: Option<SessionId>, jump: Option<int>) {
    && jump.Some? && sid.Some? && sid.value != "" && sid.value in store.steps
    && 0 <= jump.value < |store.steps[sid.value]|
  }

  /** A call hydrates from the recorded step if it jumps to one of the session's steps. If there is no
      jump, no session, no history or no such index, it hydrates from the state it was given. */
  lemma {:induction false} AdvanceEffect<W>(
      ser: Serializer<W>, store: Store<W>, specs: Specs, state: StateArg, sid: Option<SessionId>, jump: Option<int>,
      engine: W -> Progress<W>)
    ensures var r := Advance(ser, store, specs, state, sid, jump, engine);
            if !JumpsToStep(store, sid, jump) then
              && AdvancesFrom(store, sid, engine, Hydrate(ser, store.workflows, specs, state, sid), r)
              && (Hydrate(ser, store.workflows, specs, state, sid).HydrationRaised? ==> r.store == store)
            else
              var step := store.steps[sid.value][jump.value];
              AdvancesFrom(
                store, sid, engine,
                Hydrate(ser, store.workflows, specs, if step.Some? then Plain(step.value) else NoState, sid), r)
  {
    AdvanceHydrated(ser, store, specs, state, sid, jump, engine);
    hide Hydrate, Advance, AdvancesFrom;
    assert !JumpsToStep(store, sid, jump) ==> JumpState(store, state, sid, jump) == state;
    if !JumpsToStep(store, sid, jump) && Hydrate(ser, store.workflows, specs, state, sid).HydrationRaised? {
      NothingWrittenBack(ser, store, specs, state, sid, jump, engine);
    }
  }

  lemma {:induction false} NothingWrittenBack<W>(
      ser: Serializer<W>, store: Store<W>, specs: Specs, state: StateArg, sid: Option<SessionId>, jump: Option<int>,
      engine: W -> Progress<W>)
    requires !JumpsToStep(store, sid, jump) && Hydrate(ser, store.workflows, specs, state, sid).HydrationRaised?
    ensures Advance(ser, store, specs, state, sid, jump, engine).store == store
  {
    hide Hydrate;
  }

  lemma {:induction false} AdvanceHydrated<W>(
      ser: Serializer<W>, store: Store<W>, specs: Specs, state: StateArg, sid: Option<SessionId>, jump: Option<int>,
      engine: W -> Progress<W>)
    ensures var h := Hydrate(ser, store.workflows, specs, JumpState(store, state, sid, jump), sid);
            AdvancesFrom(store, sid, engine, h, Advance(ser, store, specs, state, sid, jump, engine))
  {
    var h := Hydrate(ser, store.workflows, specs, JumpState(store, state, sid, jump), sid);
    HydratedIsCached(ser, store.workflows, specs, JumpState(store, state, sid, jump), sid);
    hide Hydrate, JumpState, Respond;
    WritesOwnSteps(store, sid, jump, h.state);
    if h.Hydrated? {
      hide WriteBack, StepsOf;
      var p := engine(h.workflow);
      var ran := WriteBack(store, sid, jump, h.state).(workflows := Put(h.cache, sid, p.workflow));
      RespondEffect(ser, ran, sid, p.workflow, p.first);
      RespondEffect(ser, ran, sid, p.workflow, p.second);
      RespondEffect(ser, Respond(ser, ran, sid, p.workflow, p.first).store, sid, p.workflow, p.second);
    }
  }

  lemma {:induction false} WritesOwnSteps<W>(store: Store<W>, sid: Option<SessionId>, jump: Option<int>, left: StateArg)
    ensures forall other | !(Truthy(sid) && other == sid.value) ::
              StepsOf(WriteBack(store, sid, jump, left), other) == StepsOf(store, other)
  {
  }

  lemma {:induction false} RespondEffect<W>(
      ser: Serializer<W>, store: Store<W>, sid: Option<SessionId>, w: W, reply: Reply)
    ensures var r := Respond(ser, store, sid, w, reply);
            && r.store.workflows == store.workflows
            && (forall other | !(Truthy(sid) && other == sid.value) :: StepsOf(r.store, other) == StepsOf(store, other))
            && r.recorded == (if Truthy(sid) && !reply.FailsBeforeStep? then [w] else [])
            && if !reply.Sent? then r.response == ErrorMessage
               else if Truthy(sid) then r.response.StepIdx? else r.response == NoSession
  {
    hide State;
  }

  lemma {:induction false} TrackNothing<W>(g: Track<W>, sid: Option<SessionId>)
    ensures TrackRecorded(g, sid, []) == g
  {
  }

  lemma {:induction false} RecordsAtMostOne<W>(
      ser: Serializer<W>, store: Store<W>, sid: Option<SessionId>, w: W, reply: Reply)
    ensures |Respond(ser, store, sid, w, reply).recorded| <= 1
  {
  }

  // ---------- hydration and the workflow cache ----------

  /** In every branch with a session, the returned workflow is the one left in the cache. */
  lemma {:induction false} HydratedIsCached<W>(
      ser: Serializer<W>, cache: map<SessionId, W>, specs: Specs, state: StateArg, sid: Option<SessionId>)
    ensures var h := Hydrate(ser, cache, specs, state, sid);
            h.Hydrated? ==> h.cache == Put(cache, sid, h.workflow)
  {
    if Truthy(sid) && sid.value in cache {
      assert cache[sid.value := cache[sid.value]] == cache;
    }
  }

  ghost function NewWorkflow<W>(ser: Serializer<W>, specs: Specs): Option<W> {
    if specs.BadSpecs? then None else ser.create(specs.process, specs.subprocesses)
  }

  ghost function CompletedWorkflow<W>(ser: Serializer<W>, specs: Specs, doc: Doc): Option<W> {
    if specs.BadSpecs? then None
    else ser.fromDict(doc["spec" := Object(specs.process)]["subprocess_specs" := Object(specs.subprocesses)]).workflow
  }

  /** What hydration returns, state by state, with `cached` the session's workflow if there is one. A
      cached workflow is returned for no state and for its own; text that starts with a brace and
      compressed text that cannot be read always fail. */
  lemma {:induction false} HydrationCases<W>(
      ser: Serializer<W>, cache: map<SessionId, W>, specs: Specs, state: StateArg, sid: Option<SessionId>)
    ensures var w := Outcome(Hydrate(ser, cache, specs, state, sid));
            var cached := if sid.Some? && sid.value != "" && sid.value in cache then Some(cache[sid.value]) else None;
            match state
            case NoState => w == if cached.Some? then cached else NewWorkflow(ser, specs)
            case EmptyText => w == NewWorkflow(ser, specs)
            case RawText => w == None
            case Packed(None) => w == None
            case Packed(Some(body)) =>
              w == if cached.Some? && AsDoc(body) == AsDoc(ser.toDict(cached.value)) then cached
                   else CompletedWorkflow(ser, specs, AsDoc(body))
            case Plain(doc) =>
              w == if doc == map[] then NewWorkflow(ser, specs)
                   else if cached.Some? && doc == AsDoc(ser.toDict(cached.value)) then cached
                   else if cached.None? && HoldsOnlyColours(doc) then NewWorkflow(ser, specs)
                   else CompletedWorkflow(ser, specs, doc)
  {
  }

  /** Two entries, and tasks of which nothing but spec and state is known: enough to colour a diagram. */
  ghost predicate HoldsOnlyColours(doc: Doc) {
    && "tasks" in doc && "subprocesses" in doc && doc.Keys <= {"tasks", "subprocesses"}
    && doc["tasks"].Data? && doc["tasks"].value.Dict?
    && forall id | id in doc["tasks"].value.fields ::
         var task := doc["tasks"].value.fields[id];
         task.Dict? && "task_spec" in task.fields && "state" in task.fields && task.fields.Keys <= {"task_spec", "state"}
  }

  /** Whether the dictionaries `specs` was parsed from are those in `body`. */
  ghost predicate HasSpecs(body: Body, specs: Specs) {
    && specs.Specs? && SPEC_KEYS <= body.Keys
    && body["spec"] == specs.process.serialized
    && body["subprocess_specs"] == specs.subprocesses.serialized
  }

  function WithSerialized(doc: Doc, specs: Specs): Doc
    requires specs.Specs?
  {
    doc["spec" := Data(specs.process.serialized)]["subprocess_specs" := Data(specs.subprocesses.serialized)]
  }

  /** What the runner relies on: a serialized workflow has spec entries and workflow internals, without
      which nothing is restored; spec objects and their dictionaries restore the same; and the specs a
      workflow was restored with are the ones it is serialized with. */
  ghost predicate Lawful<W(!new)>(ser: Serializer<W>) {
    && (forall w :: SPEC_KEYS <= ser.toDict(w).Keys && !(ser.toDict(w).Keys <= SPEC_KEYS + MINIMAL_KEYS))
    && (forall doc: Doc :: doc.Keys <= SPEC_KEYS + MINIMAL_KEYS ==> ser.fromDict(doc).workflow == None)
    && (forall doc, specs: Specs | specs.Specs? ::
          ser.fromDict(WithSpecs(doc, specs)).workflow == ser.fromDict(WithSerialized(doc, specs)).workflow)
    && (forall doc, specs: Specs | specs.Specs? :: ser.fromDict(WithSpecs(doc, specs)).workflow.Some? ==>
          HasSpecs(ser.toDict(ser.fromDict(WithSpecs(doc, specs)).workflow.value), specs))
  }

  /** `w` survives being serialized and restored. */
  ghost predicate Faithful<W>(ser: Serializer<W>, w: W) {
    ser.fromDict(AsDoc(ser.toDict(w))).workflow == Some(w)
  }

  /** The workflow a hydration returns, if it returns one. */
  ghost function Outcome<W>(h: Hydration<W>): Option<W> {
    if h.Hydrated? then Some(h.workflow) else None
  }

  /** A recorded state with the specs of its workflow restores what the whole serialized workflow does. */
  lemma {:induction false} OwnSpecsRestore<W(!new)>(ser: Serializer<W>, specs: Specs, w: W)
    requires Lawful(ser) && HasSpecs(ser.toDict(w), specs)
    ensures ser.fromDict(WithSpecs(State(ser, w), specs)).workflow == ser.fromDict(AsDoc(ser.toDict(w))).workflow
  {
    var full, doc := AsDoc(ser.toDict(w)), WithSerialized(State(ser, w), specs);
    forall k
      ensures k in full <==> k in doc
      ensures k in full ==> full[k] == doc[k]
    {
    }
    assert full == doc;
  }

  /** Restoring from a full state that already has the given specs, spec entries included. */
  lemma {:induction false} FullStateRestores<W(!new)>(ser: Serializer<W>, specs: Specs, w: W)
    requires Lawful(ser) && HasSpecs(ser.toDict(w), specs)
    ensures ser.fromDict(WithSpecs(AsDoc(ser.toDict(w)), specs)).workflow == ser.fromDict(AsDoc(ser.toDict(w))).workflow
  {
    assert WithSerialized(AsDoc(ser.toDict(w)), specs) == AsDoc(ser.toDict(w));
  }

  /** A cached session changes nothing for the caller, whatever the state argument, if and only if:
      no state was given and the cached workflow is a new one; or the state is empty; or it is a full
      state and, where it equals the cached one, it comes with the given specs. A minimal state is
      treated as empty only when there is no cached session. */
  lemma {:induction false} CacheIsTransparentIff<W(!new)>(
      ser: Serializer<W>, cache: map<SessionId, W>, specs: Specs, state: StateArg, sid: SessionId)
    requires Lawful(ser) && sid != "" && sid in cache && Faithful(ser, cache[sid]) && specs.Specs?
    requires ser.create(specs.process, specs.subprocesses).Some?
    ensures var cached := ser.toDict(cache[sid]);
            Outcome(Hydrate(ser, cache, specs, state, Some(sid))) == Outcome(Hydrate(ser, map[], specs, state, Some(sid)))
            <==> match state
                 case NoState => Some(cache[sid]) == ser.create(specs.process, specs.subprocesses)
                 case Plain(doc) => doc == map[] || (!IsMinimal(doc) && (doc == AsDoc(cached) ==> HasSpecs(cached, specs)))
                 case Packed(Some(body)) => AsDoc(body) == AsDoc(cached) ==> HasSpecs(cached, specs)
                 case _ => true
  {
    var cached := ser.toDict(cache[sid]);
    var doc := Decoded(state);
    if doc.Some? {
      if doc.value == AsDoc(cached) {
        assert ser.fromDict(WithSpecs(doc.value, specs)).workflow == Some(cache[sid]) <==> HasSpecs(cached, specs) by {
          if HasSpecs(cached, specs) {
            FullStateRestores(ser, specs, cache[sid]);
          }
        }
        assert AsDoc(cached).Keys == cached.Keys;
      }
      if IsMinimal(doc.value) {
        assert WithSpecs(doc.value, specs).Keys == SPEC_KEYS + MINIMAL_KEYS;
        assert AsDoc(cached).Keys == cached.Keys;
      }
    }
    hide AsDoc, IsMinimal, HasSpecs, WithSpecs, Lawful;
  }

  // ---------- compressed state ----------

  lemma {:induction false} RoundTripKeepsKeys(t: Codec.TextForms, body: Body, read: Body)
    requires Codec.RoundTrip(t, Codec.Dict(body)) == Some(Codec.Dict(read))
    ensures read.Keys == body.Keys
  {
    var encoded := Codec.Encode(t, Codec.Dict(body));
    assert read == Codec.Present(Codec.DecodeMembers(t, encoded));
  }

  ghost function Restored<W>(ser: Serializer<W>, body: Body, specs: Specs): Option<W>
    requires specs.Specs?
  {
    ser.fromDict(WithSpecs(AsDoc(body), specs)).workflow
  }

  ghost function RestoredAfterHook<W>(t: Codec.TextForms, ser: Serializer<W>, body: Body, specs: Specs): Option<W>
    requires specs.Specs?
  {
    match Codec.RoundTrip(t, Codec.Dict(body))
    case Some(Dict(read)) => Restored(ser, read, specs)
    case _ => None
  }

  /** `to_dict` tags UUIDs, datetimes and timedeltas, and `from_dict` makes the same of a document
      whether or not the hook has replaced the tagged dictionaries in it; it fails where the hook does.
      Neither knows bare dates: they stay what they are, and none come from documents without them. */
  ghost predicate TagsLikeTheCodec<W(!new)>(t: Codec.TextForms, ser: Serializer<W>) {
    && (forall w :: Codec.Converted(Codec.Dict(WithoutSpecs(ser.toDict(w)))))
    && (forall body: Body, specs: Specs |
          specs.Specs? && body.Keys !! SPEC_KEYS && Codec.Converted(Codec.Dict(body)) && Codec.Undated(Codec.Dict(body)) ::
          Restored(ser, body, specs) == RestoredAfterHook(t, ser, body, specs))
    && (forall body: Body, specs: Specs | specs.Specs? && Codec.Undated(Codec.Dict(body)) && Restored(ser, body, specs).Some? ::
          Codec.Undated(Codec.Dict(WithoutSpecs(ser.toDict(Restored(ser, body, specs).value)))))
  }

  /** A compressed state restores the workflow it was taken from, with the specs it ran with, if and
      only if the state holds no bare date. */
  lemma {:induction false} CompressedStateRestoresIff<W(!new)>(
      t: Codec.TextForms, ser: Serializer<W>, cache: map<SessionId, W>, specs: Specs, w: W, sid: Option<SessionId>)
    requires Lawful(ser) && TagsLikeTheCodec(t, ser)
    requires Faithful(ser, w) && HasSpecs(ser.toDict(w), specs)
    ensures Outcome(Hydrate(ser, cache, specs, CompressedState(t, ser, w), sid)) == Some(w)
            <==> Codec.Undated(Codec.Dict(WithoutSpecs(ser.toDict(w))))
  {
    var body := WithoutSpecs(ser.toDict(w));
    OwnSpecsRestore(ser, specs, w);
    HookKeepsWorkflow(t, ser, specs, w, body);
    hide Codec.RoundTrip, Codec.Undated, Hydrate, TagsLikeTheCodec, Lawful, Restored;
    match Codec.RoundTrip(t, Codec.Dict(body))
    case Some(Dict(read)) =>
      RoundTripKeepsKeys(t, body, read);
      PackedIsRestored(ser, cache, specs, read, sid);
    case _ => UnreadableIsRefused(ser, cache, specs, sid);
  }

  lemma {:induction false} HookKeepsWorkflow<W(!new)>(
      t: Codec.TextForms, ser: Serializer<W>, specs: Specs, w: W, body: Body)
    requires TagsLikeTheCodec(t, ser) && specs.Specs?
    requires body == WithoutSpecs(ser.toDict(w)) && Restored(ser, body, specs) == Some(w)
    ensures RestoredAfterHook(t, ser, body, specs) == Some(w) <==> Codec.Undated(Codec.Dict(body))
  {
    Codec.RoundTripIsUndated(t, Codec.Dict(body));
    assert body.Keys !! SPEC_KEYS;
    assert Codec.Converted(Codec.Dict(body));
    hide Codec.RoundTrip, Codec.Undated, Codec.Converted, Restored;
  }

  lemma {:induction false} UnreadableIsRefused<W>(
      ser: Serializer<W>, cache: map<SessionId, W>, specs: Specs, sid: Option<SessionId>)
    ensures Outcome(Hydrate(ser, cache, specs, Packed(None), sid)) == None
  {
  }

  lemma {:induction false} PackedIsRestored<W(!new)>(
      ser: Serializer<W>, cache: map<SessionId, W>, specs: Specs, read: Body, sid: Option<SessionId>)
    requires Lawful(ser) && specs.Specs? && "spec" !in read
    ensures Outcome(Hydrate(ser, cache, specs, Packed(Some(read)), sid)) == Restored(ser, read, specs)
  {
    forall w
      ensures AsDoc(read) != AsDoc(ser.toDict(w))
    {
      assert "spec" in AsDoc(ser.toDict(w)) && "spec" !in AsDoc(read);
    }
  }

  // ---------- jumps ----------

  /** The step still holds the state that was recorded, as far as that is known. */
  ghost predicate StillHeld<W>(ser: Serializer<W>, g: Track<W>, sid: SessionId, i: int) {
    IsLive(g, sid, i) && (i !in g[sid].touched || LeavesState(ser))
  }

  /** With any specs, a jump to a live step returns exactly what `from_dict` makes of the recorded state
      completed with these specs, and fails exactly where that does; what is cached has no part in it. */
  lemma {:induction false} JumpReadsRecordedState<W(!new)>(
      ser: Serializer<W>, store: Store<W>, g: Track<W>, specs: Specs, state: StateArg, sid: SessionId, i: nat)
    requires Lawful(ser) && Matches(ser, store, g) && sid != "" && StillHeld(ser, g, sid, i)
    ensures Outcome(Hydrate(ser, store.workflows, specs, JumpState(store, state, Some(sid), Some(i)), Some(sid)))
            == if specs.BadSpecs? then None else ser.fromDict(WithSpecs(State(ser, g[sid].full[i]), specs)).workflow
  {
    var w := g[sid].full[i];
    assert StepMatches(ser, store.steps[sid][i], w, i in g[sid].touched);
    StateHolds(ser, w);
    var doc := store.steps[sid][i].value;
    HeldStateIsFull(ser, doc, w, store.workflows[sid]);
    if specs.Specs? {
      CompletedHolds(doc, State(ser, w), specs);
    }
    hide State, AsDoc, WithSpecs, Lawful;
  }

  /** A held state is neither empty nor what any workflow is serialized as. */
  lemma {:induction false} HeldStateIsFull<W(!new)>(ser: Serializer<W>, doc: Doc, w: W, cached: W)
    requires Lawful(ser) && Holds(doc, State(ser, w))
    ensures doc != map[] && doc != AsDoc(ser.toDict(cached))
  {
    var k :| k in ser.toDict(w) && k !in SPEC_KEYS + MINIMAL_KEYS;
    assert k in State(ser, w) && k in doc;
    assert "spec" in SPEC_KEYS && "spec" in ser.toDict(cached);
  }

  /** A jump to an evicted step goes on with the cached workflow; it never starts a new one. */
  lemma {:induction false} JumpToEvictedKeepsCached<W>(
      ser: Serializer<W>, store: Store<W>, g: Track<W>, specs: Specs, state: StateArg, sid: SessionId, i: nat)
    requires Matches(ser, store, g) && sid != "" && sid in g
    requires i < g[sid].live
    ensures sid in store.workflows
    ensures Hydrate(ser, store.workflows, specs, JumpState(store, state, Some(sid), Some(i)), Some(sid))
            == Hydrated(store.workflows[sid], store.workflows, NoState)
  {
    assert store.steps[sid][i] == None;
  }

  // ---------- every run ----------

  datatype Op<!W> =
    | AdvanceOp(specs: Specs, state: StateArg, sid: Option<SessionId>, jump: Option<int>, engine: W -> Progress<W>)
    | TruncateOp(sid: Option<SessionId>, idx: Option<int>)
    | ClearOp(sid: Option<SessionId>)

  function Apply<W>(ser: Serializer<W>, store: Store<W>, op: Op<W>): Store<W> {
    match op
    case AdvanceOp(specs, state, sid, jump, engine) => Advance(ser, store, specs, state, sid, jump, engine).store
    case TruncateOp(sid, idx) => Truncate(store, sid, idx).0
    case ClearOp(sid) => Clear(store, sid).0
  }

  ghost function Follow<W>(ser: Serializer<W>, store: Store<W>, g: Track<W>, op: Op<W>): Track<W> {
    match op
    case AdvanceOp(specs, state, sid, jump, engine) =>
      TrackAdvanced(g, specs, sid, jump, Advance(ser, store, specs, state, sid, jump, engine).recorded)
    case TruncateOp(sid, idx) => TrackTruncated(g, sid, idx)
    case ClearOp(sid) => TrackCleared(g, sid)
  }

  /** Truncating keeps the match and reports exactly the steps the uncapped history loses. */
  lemma {:induction false} TruncateMatches<W>(
      ser: Serializer<W>, store: Store<W>, g: Track<W>, sid: Option<SessionId>, idx: Option<int>)
    requires Matches(ser, store, g)
    ensures Matches(ser, Truncate(store, sid, idx).0, TrackTruncated(g, sid, idx))
    ensures Truncate(store, sid, idx).0.workflows == store.workflows
    ensures Truthy(sid) && sid.value in g ==>
              Truncate(store, sid, idx).1 == |g[sid.value].full| - |TrackTruncated(g, sid, idx)[sid.value].full|
  {
    if Truthy(sid) && sid.value in g && idx.Some? && 0 <= idx.value < |g[sid.value].full| {
      assert HistoryMatches(ser, store.steps[sid.value], g[sid.value]);
      var n := idx.value + 1;
      hide StepMatches;
      assert HistoryMatches(ser, store.steps[sid.value][..n], TrackTruncated(g, sid, idx)[sid.value]);
    }
  }

  lemma {:induction false} ClearMatches<W>(ser: Serializer<W>, store: Store<W>, g: Track<W>, sid: Option<SessionId>)
    requires Matches(ser, store, g)
    ensures Matches(ser, Clear(store, sid).0, TrackCleared(g, sid))
  {
    hide HistoryMatches;
  }

  /** Clearing a session leaves it in neither dictionary and all others as they are; clearing without a
      session leaves nothing. The count is that of the entries that were there. */
  lemma {:induction false} ClearEffect<W>(store: Store<W>, sid: Option<SessionId>)
    ensures var (store', count) := Clear(store, sid);
            if sid.Some? && sid.value != "" then
              && sid.value !in store'.workflows && sid.value !in store'.steps
              && (forall other | other != sid.value ::
                    && (other in store'.workflows <==> other in store.workflows)
                    && (other in store'.workflows ==> store'.workflows[other] == store.workflows[other])
                    && (other in store'.steps <==> other in store.steps)
                    && (other in store'.steps ==> store'.steps[other] == store.steps[other]))
              && count == |store.workflows.Keys * {sid.value}| + |store.steps.Keys * {sid.value}|
            else
              store' == Store(map[], map[]) && count == |store.workflows| + |store.steps|
  {
    if Truthy(sid) {
      OneOrNone(store.workflows.Keys, sid.value);
      OneOrNone(store.steps.Keys, sid.value);
    }
  }

  lemma {:induction false} OneOrNone(keys: set<SessionId>, sid: SessionId)
    ensures |keys * {sid}| == if sid in keys then 1 else 0
  {
    assert keys * {sid} == if sid in keys then {sid} else {};
  }

  lemma {:induction false} ApplyMatches<W>(ser: Serializer<W>, store: Store<W>, g: Track<W>, op: Op<W>)
    requires Matches(ser, store, g)
    ensures Matches(ser, Apply(ser, store, op), Follow(ser, store, g, op))
  {
    hide Matches, Advance, Truncate, Clear;
    match op
    case AdvanceOp(specs, state, sid, jump, engine) => AdvanceMatches(ser, store, g, specs, state, sid, jump, engine);
    case TruncateOp(sid, idx) => TruncateMatches(ser, store, g, sid, idx);
    case ClearOp(sid) => ClearMatches(ser, store, g, sid);
  }

  /** The caches after a sequence of calls, and the uncapped history that goes with them. */
  ghost function AfterRun<W>(ser: Serializer<W>, ops: seq<Op<W>>): (Store<W>, Track<W>) {
    if ops == [] then (Store(map[], map[]), map[])
    else
      var (store, g) := AfterRun(ser, ops[..|ops| - 1]);
      var op := ops[|ops| - 1];
      (Apply(ser, store, op), Follow(ser, store, g, op))
  }

  /** After every sequence of calls the capped history refines the uncapped one, and every session
      with a history has a cached workflow. */
  lemma {:induction false} EveryRunMatches<W>(ser: Serializer<W>, ops: seq<Op<W>>)
    ensures Matches(ser, AfterRun(ser, ops).0, AfterRun(ser, ops).1)
  {
    if ops != [] {
      hide Matches, Apply, Follow;
      EveryRunMatches(ser, ops[..|ops| - 1]);
      var (store, g) := AfterRun(ser, ops[..|ops| - 1]);
      ApplyMatches(ser, store, g, ops[|ops| - 1]);
    }
  }

  /** In every run, a jump to a live step with the specs its workflow ran with restores what the whole
      serialized workflow restores: the very workflow recorded there, if and only if that survives being
      serialized. The step must not have been restored from before, or `from_dict` must leave it intact. */
  lemma {:induction false} JumpRestoresRecordedWorkflow<W(!new)>(
      ser: Serializer<W>, ops: seq<Op<W>>, specs: Specs, state: StateArg, sid: SessionId, i: nat)
    requires Lawful(ser) && sid != ""
    requires var g := AfterRun(ser, ops).1;
             StillHeld(ser, g, sid, i) && HasSpecs(ser.toDict(g[sid].full[i]), specs)
    ensures var (store, g) := AfterRun(ser, ops);
            Outcome(Hydrate(ser, store.workflows, specs, JumpState(store, state, Some(sid), Some(i)), Some(sid)))
            == Some(g[sid].full[i])
            <==> Faithful(ser, g[sid].full[i])
  {
    EveryRunMatches(ser, ops);
    var (store, g) := AfterRun(ser, ops);
    hide AfterRun, Matches, Hydrate, JumpState;
    JumpReadsRecordedState(ser, store, g, specs, state, sid, i);
    OwnSpecsRestore(ser, specs, g[sid].full[i]);
  }
}
