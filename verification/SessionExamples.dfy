// A small serializer with the laws that the session proofs assume, and concrete inputs at which a
// property fails without its condition.
module SessionExamples {
  import opened Basics
  import opened Sessions
  import opened SessionProofs
  import Codec

  // ---------- a serializer with the laws ----------

  /** A workflow with a flag for its state; restoring takes the specs out of the dictionary. */
  datatype Toy = Toy(spec: Codec.Value, subprocesses: Codec.Value, flag: bool)

  function Serialized(field: Field): Codec.Value {
    match field
    case Data(value) => value
    case Object(spec) => spec.serialized
  }

  function ToySerializer(): Serializer<Toy> {
    Serializer(
      (w: Toy) => map["spec" := w.spec, "subprocess_specs" := w.subprocesses, "flag" := Codec.Bool(w.flag)],
      (doc: Doc) => Reading(
        if doc.Keys == SPEC_KEYS + {"flag"} && doc["flag"].Data? && doc["flag"].value.Bool?
        then Some(Toy(Serialized(doc["spec"]), Serialized(doc["subprocess_specs"]), doc["flag"].value.b))
        else None,
        WithoutSpecs(doc)),
      (process: SpecObject, subprocesses: SpecObject) => Some(Toy(process.serialized, subprocesses.serialized, false)))
  }

  lemma {:induction false} ToyIsLawful()
    ensures Lawful(ToySerializer()) && LeavesState(ToySerializer())
    ensures forall w :: Faithful(ToySerializer(), w)
  {
    ToyLeavesState();
    forall w {
      ToyIsFaithful(w);
    }
    forall doc {
      ToyNeedsFlag(doc);
    }
    forall doc: Doc, specs: Specs | specs.Specs? {
      ToyKeepsSpecs(doc, specs);
    }
    hide ToySerializer, WithSpecs, WithSerialized, HasSpecs, Faithful, LeavesState;
  }

  lemma {:induction false} ToyNeedsFlag(doc: Doc)
    ensures doc.Keys <= SPEC_KEYS + MINIMAL_KEYS ==> ToySerializer().fromDict(doc).workflow == None
  {
    assert "flag" !in SPEC_KEYS + MINIMAL_KEYS;
  }

  lemma {:induction false} ToyKeepsSpecs(doc: Doc, specs: Specs)
    requires specs.Specs?
    ensures var w := ToySerializer().fromDict(WithSpecs(doc, specs)).workflow;
            && w == ToySerializer().fromDict(WithSerialized(doc, specs)).workflow
            && (w.Some? ==> HasSpecs(ToySerializer().toDict(w.value), specs))
  {
    assert WithSpecs(doc, specs).Keys == WithSerialized(doc, specs).Keys;
  }

  lemma {:induction false} ToyIsFaithful(w: Toy)
    ensures Faithful(ToySerializer(), w)
    ensures SPEC_KEYS <= ToySerializer().toDict(w).Keys && !(ToySerializer().toDict(w).Keys <= SPEC_KEYS + MINIMAL_KEYS)
  {
    assert AsDoc(ToySerializer().toDict(w)).Keys == ToySerializer().toDict(w).Keys;
    assert "flag" in ToySerializer().toDict(w);
  }

  lemma {:induction false} ToyLeavesState()
    ensures LeavesState(ToySerializer())
  {
    forall doc: Doc
      ensures LeftOf(ToySerializer().fromDict(doc).left, doc)
    {
      assert WithoutSpecs(WithoutSpecs(doc)) == WithoutSpecs(doc);
    }
  }

  /** A minimal state is refused where the session is cached, and starts a new workflow where it is not. */
  lemma {:induction false} MinimalStateIsRefused()
    ensures var doc := AsDoc(MinimalState(WorkflowView(map["1" := TaskView("Start", 16)], map[])));
            var specs := Specs(SpecObject(Codec.Null), SpecObject(Codec.Null));
            var cache := map["session" := Toy(Codec.Null, Codec.Null, true)];
            && IsMinimal(doc) && doc != map[]
            && Hydrate(ToySerializer(), cache, specs, Plain(doc), Some("session")).HydrationRaised?
            && Hydrate(ToySerializer(), map[], specs, Plain(doc), Some("session")).Hydrated?
  {
    var tasks := map["1" := TaskView("Start", 16)];
    var doc := AsDoc(MinimalState(WorkflowView(tasks, map[])));
    assert "tasks" in doc && "flag" !in doc;
    assert doc["tasks"] == Data(MinimalTasks(tasks));
  }

  lemma {:induction false} BooleansRoundTrip(t: Codec.TextForms, v: Codec.Value)
    ensures Codec.RoundTrip(t, v).Some? ==> (Codec.RoundTrip(t, v).value.Bool? <==> v.Bool?)
    ensures v.Bool? ==> Codec.RoundTrip(t, v) == Some(v)
  {
    if v.Uuid? || v.DateTime? || v.Date? || v.Delta? {
      var encoded := Codec.Encode(t, v);
      assert Codec.Decode(t, encoded).Some? ==>
          Codec.Decode(t, encoded) == Codec.Hook(t, Codec.Present(Codec.DecodeMembers(t, encoded)));
    }
  }

  lemma {:induction false} FlagRoundTrip(t: Codec.TextForms, body: Body)
    requires body.Keys == {"flag"}
    ensures match Codec.RoundTrip(t, Codec.Dict(body))
            case Some(Dict(read)) =>
              read.Keys == {"flag"} && (read["flag"].Bool? <==> body["flag"].Bool?)
              && (body["flag"].Bool? ==> read == body)
            case _ => !body["flag"].Bool?
  {
    var encoded := Codec.Encode(t, Codec.Dict(body)).fields;
    BooleansRoundTrip(t, body["flag"]);
    assert encoded["flag"] == Codec.Encode(t, body["flag"]);
    var decoded := Codec.RoundTrip(t, body["flag"]);
    if decoded.Some? {
      Codec.DecodeDict(t, encoded, map["flag" := decoded.value]);
    } else {
      assert Codec.DecodeMembers(t, Codec.Encode(t, Codec.Dict(body)))["flag"] == None;
    }
  }

  lemma {:induction false} ToyTagsLikeTheCodec(t: Codec.TextForms)
    ensures TagsLikeTheCodec(t, ToySerializer())
  {
    var ser := ToySerializer();
    forall w
      ensures Codec.Converted(Codec.Dict(WithoutSpecs(ser.toDict(w))))
      ensures Codec.Undated(Codec.Dict(WithoutSpecs(ser.toDict(w))))
    {
      assert WithoutSpecs(ser.toDict(w)) == map["flag" := Codec.Bool(w.flag)];
    }
    forall body: Body, specs: Specs | specs.Specs? && body.Keys !! SPEC_KEYS
      ensures Restored(ser, body, specs) == RestoredAfterHook(t, ser, body, specs)
    {
      ToyRestores(body, specs);
      if body.Keys == {"flag"} {
        FlagRoundTrip(t, body);
      }
      hide Restored;
      match Codec.RoundTrip(t, Codec.Dict(body))
      case Some(Dict(read)) =>
        RoundTripKeepsKeys(t, body, read);
        ToyRestores(read, specs);
      case _ =>
    }
  }

  lemma {:induction false} ToyRestores(body: Body, specs: Specs)
    requires specs.Specs? && body.Keys !! SPEC_KEYS
    ensures Restored(ToySerializer(), body, specs)
            == if body.Keys == {"flag"} && body["flag"].Bool?
               then Some(Toy(specs.process.serialized, specs.subprocesses.serialized, body["flag"].b))
               else None
  {
    assert WithSpecs(AsDoc(body), specs).Keys == body.Keys + SPEC_KEYS;
    if WithSpecs(AsDoc(body), specs).Keys == SPEC_KEYS + {"flag"} {
      assert body.Keys == {"flag"};
    }
  }

  // ---------- why from_dict must leave the state ----------

  /** The same serializer, but restoring empties the dictionary. */
  function ForgetfulSerializer(): Serializer<Toy> {
    ToySerializer().(fromDict := (doc: Doc) => Reading(ToySerializer().fromDict(doc).workflow, map[]))
  }

  lemma {:induction false} ForgetfulIsLawful()
    ensures Lawful(ForgetfulSerializer()) && forall w :: Faithful(ForgetfulSerializer(), w)
  {
    ToyIsLawful();
    hide AsDoc, WithSpecs, WithSerialized;
    forall w
      ensures Faithful(ForgetfulSerializer(), w)
    {
      assert Faithful(ToySerializer(), w);
    }
  }

  const NULL_SPECS := Specs(SpecObject(Codec.Null), SpecObject(Codec.Null))
  const UP := Toy(Codec.Null, Codec.Null, true)
  const UP_STATE: Doc := map["flag" := Data(Codec.Bool(true))]

  /** An advance of session "s" whose engine raises the flag. */
  function RaiseFlag(w: Toy): Progress<Toy> {
    Progress(w.(flag := true), false, Sent, Sent)
  }

  function AdvanceSession(jump: Option<int>): Op<Toy> {
    AdvanceOp(NULL_SPECS, Plain(map[]), Some("s"), jump, RaiseFlag)
  }

  /** `store` answers with a raised flag, which it records. */
  ghost predicate AdvancesTo(store: Store<Toy>, jump: Option<int>, next: Store<Toy>) {
    var r := Advance(ForgetfulSerializer(), store, NULL_SPECS, Plain(map[]), Some("s"), jump, RaiseFlag);
    r.store == next && r.recorded == [UP]
  }

  lemma {:induction false} AdvanceUp(store: Store<Toy>, jump: Option<int>, w: Toy, cache: map<SessionId, Toy>, left: StateArg)
    requires Hydrate(ForgetfulSerializer(), store.workflows, NULL_SPECS, JumpState(store, Plain(map[]), Some("s"), jump), Some("s"))
             == Hydrated(w, cache, left)
    requires w.(flag := true) == UP
    requires |StepsOf(WriteBack(store, Some("s"), jump, left), "s")| < STEP_HISTORY_CAP
    ensures var steps := WriteBack(store, Some("s"), jump, left).steps;
            AdvancesTo(store, jump, Store(cache["s" := UP], steps["s" := (if "s" in steps then steps["s"] else []) + [Some(UP_STATE)]]))
  {
    assert State(ForgetfulSerializer(), UP) == UP_STATE;
    hide Hydrate, JumpState, WriteBack, State;
  }

  lemma {:induction false} FirstAdvance()
    ensures AdvancesTo(Store(map[], map[]), None, Store(map["s" := UP], map["s" := [Some(UP_STATE)]]))
  {
    var store: Store<Toy>, down := Store(map[], map[]), UP.(flag := false);
    AdvanceUp(store, None, down, map["s" := down], Plain(map[]));
    hide AdvancesTo;
    assert map["s" := down]["s" := UP] == map["s" := UP];
    var steps := WriteBack(store, Some("s"), None, Plain(map[])).steps;
    assert steps == map[] && [] + [Some(UP_STATE)] == [Some(UP_STATE)];
    assert steps["s" := [Some(UP_STATE)]] == map["s" := [Some(UP_STATE)]];
  }

  lemma {:induction false} ForgetfulRestore()
    ensures ForgetfulSerializer().fromDict(WithSpecs(UP_STATE, NULL_SPECS)) == Reading(Some(UP), map[])
  {
  }

  lemma {:induction false} SecondHydration()
    ensures Hydrate(ForgetfulSerializer(), map["s" := UP], NULL_SPECS, Plain(UP_STATE), Some("s"))
            == Hydrated(UP, map["s" := UP], Plain(map[]))
  {
    ForgetfulRestore();
    assert "spec" in AsDoc(ForgetfulSerializer().toDict(UP)) && "spec" !in UP_STATE && "flag" in UP_STATE;
    assert map["s" := UP]["s" := UP] == map["s" := UP];
    hide AsDoc, WithSpecs, ForgetfulSerializer;
  }

  lemma {:induction false} SecondAdvance()
    ensures AdvancesTo(Store(map["s" := UP], map["s" := [Some(UP_STATE)]]), Some(0),
                       Store(map["s" := UP], map["s" := [Some(map[]), Some(UP_STATE)]]))
  {
    var store := Store(map["s" := UP], map["s" := [Some(UP_STATE)]]);
    SecondHydration();
    hide Hydrate, AdvancesTo, ForgetfulSerializer;
    AdvanceUp(store, Some(0), UP, map["s" := UP], Plain(map[]));
    var steps := WriteBack(store, Some("s"), Some(0), Plain(map[])).steps;
    assert steps["s"] + [Some(UP_STATE)] == [Some(map[]), Some(UP_STATE)];
    assert steps["s" := [Some(map[]), Some(UP_STATE)]] == map["s" := [Some(map[]), Some(UP_STATE)]];
    assert map["s" := UP]["s" := UP] == map["s" := UP];
  }

  lemma {:induction false} AfterTwoAdvances()
    ensures var (store, g) := AfterRun(ForgetfulSerializer(), [AdvanceSession(None), AdvanceSession(Some(0))]);
            && store == Store(map["s" := UP], map["s" := [Some(map[]), Some(UP_STATE)]])
            && IsLive(g, "s", 0) && g["s"].full[0] == UP
  {
    FirstAdvance();
    SecondAdvance();
    hide Advance;
    var first, second := AdvanceSession(None), AdvanceSession(Some(0));
    assert [first, second][..1] == [first] && [first][..0] == [];
    AppendOne(History([], 0, {}), UP);
    assert Appended(History([], 0, {}), UP).full == [UP];
    assert AfterRun(ForgetfulSerializer(), [first][..0]) == (Store(map[], map[]), map[]);
    assert AfterRun(ForgetfulSerializer(), [first]).1 == TrackRecorded(map[], Some("s"), [UP]);
    AppendOne(History([UP], 0, {0}), UP);
  }

  /** With a serializer that forgets, a second jump to a step starts a new workflow in its place. */
  lemma {:induction false} SecondJumpNeedsTheState()
    ensures Lawful(ForgetfulSerializer()) && forall w :: Faithful(ForgetfulSerializer(), w)
    ensures var (store, g) := AfterRun(ForgetfulSerializer(), [AdvanceSession(None), AdvanceSession(Some(0))]);
            && IsLive(g, "s", 0) && g["s"].full[0] == UP
            && Outcome(Hydrate(ForgetfulSerializer(), store.workflows, NULL_SPECS, JumpState(store, NoState, Some("s"), Some(0)), Some("s")))
               == Some(UP.(flag := false))
  {
    ForgetfulIsLawful();
    AfterTwoAdvances();
    hide AfterRun, Lawful, Faithful;
  }
}
