// How a test case loads called processes on demand and starts over (tester.py).
module LazyLoading {
  import opened Basics
  import Codec
  import Sessions

  type Id = string

  /** The process definitions in `subprocess_specs`, by id. */
  type Defs = map<Id, Codec.Value>

  /** A spec file of the catalogue: a process and the subprocesses it embeds. */
  datatype SpecFile = SpecFile(spec: Codec.Value, subprocesses: Defs)

  type Catalogue = map<Id, SpecFile>

  // ---------- loading ----------

  function LoadOne(catalogue: Catalogue, loaded: Defs, id: Id): Defs
    requires id in catalogue
  {
    loaded[id := catalogue[id].spec] + catalogue[id].subprocesses
  }

  /** `lazy_load`; None when an id is not in the catalogue. */
  function Load(catalogue: Catalogue, loaded: Defs, ids: seq<Id>): Option<Defs>
    decreases |ids|
  {
    if ids == [] then Some(loaded)
    else if ids[0] !in catalogue then None
    else Load(catalogue, LoadOne(catalogue, loaded, ids[0]), ids[1..])
  }

  lemma {:induction false} LoadPlusOne(catalogue: Catalogue, loaded: Defs, ids: seq<Id>, id: Id)
    requires Load(catalogue, loaded, ids).Some?
    ensures Load(catalogue, loaded, ids + [id])
            == if id in catalogue then Some(LoadOne(catalogue, Load(catalogue, loaded, ids).value, id)) else None
    decreases |ids|
  {
    if ids == [] {
      assert ids + [id] == [id] && [id][1..] == [];
    } else {
      assert (ids + [id])[1..] == ids[1..] + [id];
      LoadPlusOne(catalogue, LoadOne(catalogue, loaded, ids[0]), ids[1..], id);
    }
  }

  /** Whether loading `id` defines `k`, and how: an embedded subprocess over the process itself. */
  ghost predicate Defines(catalogue: Catalogue, id: Id, k: Id) {
    id in catalogue && (k == id || k in catalogue[id].subprocesses)
  }

  ghost function Definition(catalogue: Catalogue, id: Id, k: Id): Codec.Value
    requires Defines(catalogue, id, k)
  {
    if k in catalogue[id].subprocesses then catalogue[id].subprocesses[k] else catalogue[id].spec
  }

  ghost function Elements(ids: seq<Id>): set<Id> {
    set id | id in ids
  }

  /** Loading raises exactly when an id is unknown. */
  lemma {:induction false} LoadNeedsKnownIds(catalogue: Catalogue, loaded: Defs, ids: seq<Id>)
    ensures Load(catalogue, loaded, ids).Some? <==> Elements(ids) <= catalogue.Keys
    decreases |ids|
  {
    if ids != [] {
      assert Elements(ids) == {ids[0]} + Elements(ids[1..]);
      if ids[0] in catalogue {
        LoadNeedsKnownIds(catalogue, LoadOne(catalogue, loaded, ids[0]), ids[1..]);
      }
    }
  }

  /** After loading, an id has the definition that the last file which defines it gives or, if none does,
      the one it had. */
  lemma {:induction false} LastDefinitionWins(catalogue: Catalogue, loaded: Defs, ids: seq<Id>, k: Id)
    requires Elements(ids) <= catalogue.Keys
    ensures Load(catalogue, loaded, ids).Some?
    ensures var all := Load(catalogue, loaded, ids).value;
            && (k in all <==> k in loaded || exists n | 0 <= n < |ids| :: Defines(catalogue, ids[n], k))
            && (forall n | 0 <= n < |ids| && Defines(catalogue, ids[n], k) ::
                  (forall m | n < m < |ids| :: !Defines(catalogue, ids[m], k)) ==> all[k] == Definition(catalogue, ids[n], k))
            && (k in loaded && (forall n | 0 <= n < |ids| :: !Defines(catalogue, ids[n], k)) ==> all[k] == loaded[k])
    decreases |ids|
  {
    LoadNeedsKnownIds(catalogue, loaded, ids);
    if ids != [] {
      var init, last := ids[..|ids| - 1], ids[|ids| - 1];
      assert ids == init + [last];
      LastDefinitionWins(catalogue, loaded, init, k);
      LoadPlusOne(catalogue, loaded, init, last);
      hide Load;
      if Defines(catalogue, last, k) {
        assert Defines(catalogue, ids[|ids| - 1], k);
      }
    }
  }

  /** Every id has one definition, wherever it occurs. */
  ghost predicate OneDefinitionEach(catalogue: Catalogue, defs: Defs) {
    forall id | id in catalogue ::
      && id in defs && catalogue[id].spec == defs[id]
      && Within(catalogue[id].subprocesses, defs)
  }

  ghost predicate Within(some: Defs, defs: Defs) {
    forall k | k in some :: k in defs && some[k] == defs[k]
  }

  /** The ids that loading `ids` brings in. */
  ghost function Brought(catalogue: Catalogue, ids: set<Id>): set<Id> {
    ids + set id, k | id in ids && id in catalogue && k in catalogue[id].subprocesses :: k
  }

  /** Loading takes exactly the listed ids and what their files embed, each with its one definition:
      nothing loaded before changes, and neither the order nor repetitions of the ids matter. */
  lemma {:induction false} LoadAddsDefinitions(catalogue: Catalogue, defs: Defs, loaded: Defs, ids: seq<Id>)
    requires OneDefinitionEach(catalogue, defs) && Within(loaded, defs)
    ensures Load(catalogue, loaded, ids).Some? <==> Elements(ids) <= catalogue.Keys
    ensures Load(catalogue, loaded, ids).Some? ==>
              && Within(Load(catalogue, loaded, ids).value, defs)
              && Load(catalogue, loaded, ids).value.Keys == loaded.Keys + Brought(catalogue, Elements(ids))
    decreases |ids|
  {
    if ids != [] {
      assert Elements(ids) == {ids[0]} + Elements(ids[1..]);
      if ids[0] in catalogue {
        var next := LoadOne(catalogue, loaded, ids[0]);
        assert Within(next, defs);
        assert next.Keys == loaded.Keys + {ids[0]} + catalogue[ids[0]].subprocesses.Keys;
        LoadAddsDefinitions(catalogue, defs, next, ids[1..]);
        BroughtPlusOne(catalogue, ids[0], Elements(ids[1..]));
      }
    }
  }

  lemma {:induction false} BroughtPlusOne(catalogue: Catalogue, id: Id, ids: set<Id>)
    requires id in catalogue
    ensures Brought(catalogue, {id} + ids) == {id} + catalogue[id].subprocesses.Keys + Brought(catalogue, ids)
  {
    forall k | k in catalogue[id].subprocesses
      ensures k in Brought(catalogue, {id} + ids)
    {
      assert id in {id} + ids;
    }
  }

  /** Maps within the same definitions are equal when they define the same ids. */
  lemma {:induction false} SameKeysSameDefs(a: Defs, b: Defs, defs: Defs)
    requires Within(a, defs) && Within(b, defs) && a.Keys == b.Keys
    ensures a == b
  {
    assert forall k | k in a :: a[k] == defs[k] == b[k];
  }

  lemma {:induction false} LoadOrderIrrelevant(
      catalogue: Catalogue, defs: Defs, loaded: Defs, ids: seq<Id>, ids': seq<Id>)
    requires OneDefinitionEach(catalogue, defs) && Within(loaded, defs)
    requires Elements(ids) == Elements(ids')
    ensures Load(catalogue, loaded, ids) == Load(catalogue, loaded, ids')
  {
    LoadAddsDefinitions(catalogue, defs, loaded, ids);
    LoadAddsDefinitions(catalogue, defs, loaded, ids');
    if Elements(ids) <= catalogue.Keys {
      SameKeysSameDefs(Load(catalogue, loaded, ids).value, Load(catalogue, loaded, ids').value, defs);
    }
  }

  // ---------- rounds ----------

  const MAX_ROUNDS := 100

  /** A response of the runner; a completed workflow lists no lazy loads. A round raises when the runner
      cannot hydrate the workflow and when its response carries no state, as its last resort does not. */
  datatype Response = Raises | Response(ok: bool, lazyLoads: seq<Id>)

  datatype Finish =
    | Settled(response: Response)
    | Failed(response: Response)
    | Raised
    | UnknownId
    | OutOfRounds(response: Response)

  /** A response after which the loop goes on. */
  predicate AsksForMore(r: Response) {
    r.Response? && r.ok && r.lazyLoads != []
  }

  /** How the loop is left on any other response. */
  function Last(r: Response): Finish
    requires !AsksForMore(r)
  {
    if r.Raises? then Raised else if !r.ok then Failed(r) else Settled(r)
  }

  /** The loop of `runTest`. Every round runs a fresh workflow, so its response is a function of the
      loaded definitions (see RestartIsFresh). */
  function Rounds(advance: Defs -> Response, catalogue: Catalogue, loaded: Defs, round: nat): (Defs, Finish)
    requires round < MAX_ROUNDS
    decreases MAX_ROUNDS - round
  {
    var r := advance(loaded);
    if !AsksForMore(r) then (loaded, Last(r))
    else
      var next := Load(catalogue, loaded, r.lazyLoads);
      if next.None? then (loaded, UnknownId)
      else if round + 1 == MAX_ROUNDS then (next.value, OutOfRounds(r))
      else Rounds(advance, catalogue, next.value, round + 1)
  }

  /** Loading what is asked for again adds nothing. */
  ghost predicate AtFixpoint(advance: Defs -> Response, catalogue: Catalogue, loaded: Defs) {
    var r := advance(loaded);
    r.Response? && r.ok && r.lazyLoads != [] && Load(catalogue, loaded, r.lazyLoads) == Some(loaded)
  }

  lemma {:induction false} RoundsStay(advance: Defs -> Response, catalogue: Catalogue, loaded: Defs, round: nat)
    requires round < MAX_ROUNDS && AtFixpoint(advance, catalogue, loaded)
    ensures Rounds(advance, catalogue, loaded, round) == (loaded, OutOfRounds(advance(loaded)))
    decreases MAX_ROUNDS - round
  {
    if round + 1 < MAX_ROUNDS {
      RoundsStay(advance, catalogue, loaded, round + 1);
    }
  }

  lemma {:induction false} StrictlyMore(a: Defs, b: Defs, defs: Defs)
    requires Within(a, defs) && Within(b, defs) && a.Keys <= b.Keys && a != b
    ensures |a.Keys| < |b.Keys| <= |defs.Keys|
  {
    if a.Keys == b.Keys {
      SameKeysSameDefs(a, b, defs);
    }
    Larger(a.Keys, b.Keys);
    Larger(b.Keys, defs.Keys);
  }

  lemma {:induction false} Larger(a: set<Id>, b: set<Id>)
    requires a <= b
    ensures |a| <= |b|
    ensures a != b ==> |a| < |b|
  {
    assert b == a + (b - a);
    if b - a == {} {
      assert a == b;
    }
  }

  lemma {:induction false} RoundGrows(catalogue: Catalogue, defs: Defs, loaded: Defs, ids: seq<Id>)
    requires OneDefinitionEach(catalogue, defs) && Within(loaded, defs)
    ensures |loaded.Keys| <= |defs.Keys|
    ensures match Load(catalogue, loaded, ids)
            case None => true
            case Some(next) =>
              Within(next, defs) && loaded.Keys <= next.Keys && (next != loaded ==> |loaded.Keys| < |next.Keys|)
  {
    Larger(loaded.Keys, defs.Keys);
    LoadAddsDefinitions(catalogue, defs, loaded, ids);
    var next := Load(catalogue, loaded, ids);
    if next.Some? && next.value != loaded {
      StrictlyMore(loaded, next.value, defs);
    }
  }

  /** How the rounds end: on the response for the final definitions, which are a fixpoint if the loop
      merely ran out of rounds. */
  ghost predicate EndsWell(advance: Defs -> Response, catalogue: Catalogue, final: Defs, finish: Finish) {
    match finish
    case Settled(r) => r == advance(final) && r.Response? && r.ok && r.lazyLoads == []
    case Failed(r) => r == advance(final) && r.Response? && !r.ok
    case Raised => advance(final).Raises?
    case UnknownId =>
      var r := advance(final);
      r.Response? && r.ok && r.lazyLoads != [] && Load(catalogue, final, r.lazyLoads) == None
    case OutOfRounds(r) => r == advance(final) && AtFixpoint(advance, catalogue, final)
  }

  /** Rounds only add definitions, and no more of them add any than there are ids: with fewer ids left
      than rounds, the loop ends well. */
  lemma {:induction false} RoundsReachFixpoint(
      advance: Defs -> Response, catalogue: Catalogue, defs: Defs, loaded: Defs, round: nat)
    requires OneDefinitionEach(catalogue, defs) && Within(loaded, defs)
    requires round < 100 && |defs.Keys| - |loaded.Keys| < 100 - round
    ensures var (final, finish) := Rounds(advance, catalogue, loaded, round);
            Within(final, defs) && loaded.Keys <= final.Keys && EndsWell(advance, catalogue, final, finish)
    decreases MAX_ROUNDS - round
  {
    hide Load, Within, OneDefinitionEach;
    var r := advance(loaded);
    if AsksForMore(r) {
      RoundGrows(catalogue, defs, loaded, r.lazyLoads);
      var next := Load(catalogue, loaded, r.lazyLoads);
      if next == Some(loaded) {
        RoundsStay(advance, catalogue, loaded, round);
      } else if next.Some? {
        RoundGrows(catalogue, defs, next.value, []);
        RoundsReachFixpoint(advance, catalogue, defs, next.value, round + 1);
      }
    }
  }

  /** The recording test loads the whole catalogue but its own process first; nothing of that is
      ever added again. */
  lemma {:induction false} PreloadedNeverGrows(
      catalogue: Catalogue, defs: Defs, loaded: Defs, preload: seq<Id>, own: Id, ids: seq<Id>)
    requires OneDefinitionEach(catalogue, defs) && Within(loaded, defs)
    requires Elements(preload) == catalogue.Keys - {own}
    requires Elements(ids) <= catalogue.Keys - {own}
    ensures Load(catalogue, loaded, preload).Some?
    ensures var all := Load(catalogue, loaded, preload).value; Load(catalogue, all, ids) == Some(all)
  {
    LoadAddsDefinitions(catalogue, defs, loaded, preload);
    var all := Load(catalogue, loaded, preload).value;
    LoadAddsDefinitions(catalogue, defs, all, ids);
    assert Brought(catalogue, Elements(ids)) <= Brought(catalogue, Elements(preload));
    SameKeysSameDefs(all, Load(catalogue, all, ids).value, defs);
  }

  // ---------- recordings ----------

  /** The runner without a recording: a later round of a recording test passes none. */
  function WithoutRecording(advance: (Defs, bool) -> Response): Defs -> Response {
    (loaded: Defs) => advance(loaded, false)
  }

  /** The loop of a recording test: `advance` also takes whether the recording is passed, which only
      the first round does. */
  function RecordingRounds(
      advance: (Defs, bool) -> Response, catalogue: Catalogue, loaded: Defs, preload: seq<Id>): (Defs, Finish)
  {
    var all := Load(catalogue, loaded, preload);
    if all.None? then (loaded, UnknownId)
    else
      var r := advance(all.value, true);
      if !AsksForMore(r) then (all.value, Last(r))
      else
        var next := Load(catalogue, all.value, r.lazyLoads);
        if next.None? then (all.value, UnknownId)
        else Rounds(WithoutRecording(advance), catalogue, next.value, 1)
  }

  /** The first round of a recording test passes the recording, and decides the test unless it lists
      called processes; then the rounds go on without it, from one on. */
  lemma {:induction false} FirstRoundPassesRecording(
      advance: (Defs, bool) -> Response, catalogue: Catalogue, loaded: Defs, preload: seq<Id>)
    ensures !(Elements(preload) <= catalogue.Keys) ==>
              RecordingRounds(advance, catalogue, loaded, preload) == (loaded, UnknownId)
    ensures Elements(preload) <= catalogue.Keys ==>
              && Load(catalogue, loaded, preload).Some?
              && var all := Load(catalogue, loaded, preload).value;
                 RecordingRounds(advance, catalogue, loaded, preload)
                 == match advance(all, true)
                    case Raises => (all, Raised)
                    case Response(ok, ids) =>
                      if !ok then (all, Failed(Response(ok, ids)))
                      else if ids == [] then (all, Settled(Response(ok, ids)))
                      else if exists id | id in ids :: id !in catalogue then (all, UnknownId)
                      else Rounds(WithoutRecording(advance), catalogue, Load(catalogue, all, ids).GetOr(all), 1)
  {
    LoadNeedsKnownIds(catalogue, loaded, preload);
    var all := Load(catalogue, loaded, preload);
    if all.Some? && advance(all.value, true).Response? {
      var ids := advance(all.value, true).lazyLoads;
      LoadNeedsKnownIds(catalogue, all.value, ids);
      assert Elements(ids) <= catalogue.Keys <==> !exists id | id in ids :: id !in catalogue;
    }
    hide Load, Rounds;
  }

  /** A recording test whose first round still lists called processes, though all are loaded, is decided
      by a run that never saw the recording. */
  lemma {:induction false} LaterRoundsIgnoreRecording(
      advance: (Defs, bool) -> Response, catalogue: Catalogue, defs: Defs, loaded: Defs, preload: seq<Id>, own: Id,
      all: Defs)
    requires OneDefinitionEach(catalogue, defs) && Within(loaded, defs)
    requires Elements(preload) == catalogue.Keys - {own} && Load(catalogue, loaded, preload) == Some(all)
    requires AsksForMore(advance(all, true)) && Elements(advance(all, true).lazyLoads) <= catalogue.Keys - {own}
    requires AsksForMore(advance(all, false)) ==> Elements(advance(all, false).lazyLoads) <= catalogue.Keys - {own}
    ensures var r := advance(all, false);
            RecordingRounds(advance, catalogue, loaded, preload) == (all, if AsksForMore(r) then OutOfRounds(r) else Last(r))
  {
    PreloadedNeverGrows(catalogue, defs, loaded, preload, own, advance(all, true).lazyLoads);
    var again := WithoutRecording(advance);
    assert again(all) == advance(all, false);
    if AsksForMore(again(all)) {
      PreloadedNeverGrows(catalogue, defs, loaded, preload, own, again(all).lazyLoads);
      hide Load;
      RoundsStay(again, catalogue, all, 1);
    }
  }

  // ---------- a test case ----------

  class BpmnTestCase {
    const catalogue: Catalogue
    var loaded: Defs

    constructor (catalogue: Catalogue, loaded: Defs)
      ensures this.catalogue == catalogue && this.loaded == loaded
    {
      this.catalogue := catalogue;
      this.loaded := loaded;
    }

    /** `lazy_load`; `ok` is false where it raises, at the first unknown id, with what was loaded
        before that. */
    method LazyLoad(ids: seq<Id>) returns (ok: bool)
      modifies `loaded
      ensures ok <==> Load(catalogue, old(loaded), ids).Some?
      ensures ok ==> Some(loaded) == Load(catalogue, old(loaded), ids)
      ensures !ok ==> exists n | 0 <= n < |ids| ::
                ids[n] !in catalogue && Load(catalogue, old(loaded), ids[..n]) == Some(loaded)
    {
      for i := 0 to |ids|
        invariant Load(catalogue, old(loaded), ids) == Load(catalogue, loaded, ids[i..])
        invariant Load(catalogue, old(loaded), ids[..i]) == Some(loaded)
      {
        LoadPlusOne(catalogue, old(loaded), ids[..i], ids[i]);
        assert ids[..i + 1] == ids[..i] + [ids[i]];
        if ids[i] !in catalogue {
          return false;
        }
        assert ids[i..][1..] == ids[i + 1..];
        loaded := loaded[ids[i] := catalogue[ids[i]].spec];
        loaded := loaded + catalogue[ids[i]].subprocesses;
      }
      return true;
    }

    /** The loop of `runTest` from a given round, up to the assertions on its last response. */
    method RunRounds(advance: Defs -> Response, first: nat) returns (finish: Finish)
      requires first < MAX_ROUNDS
      modifies `loaded
      ensures finish == Rounds(advance, catalogue, old(loaded), first).1
      ensures !finish.UnknownId? ==> loaded == Rounds(advance, catalogue, old(loaded), first).0
    {
      var round := first;
      while true
        invariant 0 <= round < MAX_ROUNDS
        invariant Rounds(advance, catalogue, old(loaded), first) == Rounds(advance, catalogue, loaded, round)
        decreases MAX_ROUNDS - round
      {
        var r := advance(loaded);
        if r.Raises? {
          return Raised;
        }
        if !r.ok {
          return Failed(r);
        }
        if r.lazyLoads == [] {
          return Settled(r);
        }
        var ok := LazyLoad(r.lazyLoads);
        if !ok {
          return UnknownId;
        }
        round := round + 1;
        if round == MAX_ROUNDS {
          return OutOfRounds(r);
        }
      }
    }

    /** `BpmnTestCase.runTest` */
    method RunTest(advance: Defs -> Response) returns (finish: Finish)
      modifies `loaded
      ensures finish == Rounds(advance, catalogue, old(loaded), 0).1
      ensures !finish.UnknownId? ==> loaded == Rounds(advance, catalogue, old(loaded), 0).0
    {
      finish := RunRounds(advance, 0);
    }

    /** `BpmnRecordingTestCase.runTest`; `preload` lists the catalogue without the test's own process. */
    method RunRecordingTest(advance: (Defs, bool) -> Response, preload: seq<Id>) returns (finish: Finish)
      modifies `loaded
      ensures finish == RecordingRounds(advance, catalogue, old(loaded), preload).1
      ensures !finish.UnknownId? ==> loaded == RecordingRounds(advance, catalogue, old(loaded), preload).0
    {
      var ok := LazyLoad(preload);
      if !ok {
        return UnknownId;
      }
      var r := advance(loaded, true);
      if r.Raises? {
        return Raised;
      }
      if !r.ok {
        return Failed(r);
      }
      if r.lazyLoads == [] {
        return Settled(r);
      }
      ok := LazyLoad(r.lazyLoads);
      if !ok {
        return UnknownId;
      }
      finish := RunRounds(WithoutRecording(advance), 1);
    }
  }

  // ---------- why every round starts afresh ----------

  ghost predicate Survives(v: Codec.Value) {
    Codec.Exact(v) && Codec.Unreserved(v) && Codec.Normal(v)
  }

  lemma {:induction false} DictSurvives(fields: map<string, Codec.Value>)
    requires forall k | k in fields :: Survives(fields[k])
    requires "typename" in fields ==> !fields["typename"].Text?
    ensures Survives(Codec.Dict(fields))
  {
  }

  lemma {:induction false} MinimalTasksSurvive(tasks: map<string, Sessions.TaskView>)
    ensures Survives(Sessions.MinimalTasks(tasks))
  {
    forall id | id in tasks
      ensures Survives(Sessions.MinimalTask(tasks[id]))
    {
      DictSurvives(Sessions.MinimalTask(tasks[id]).fields);
    }
    DictSurvives(Sessions.MinimalTasks(tasks).fields);
  }

  lemma {:induction false} MinimalStateSurvives(w: Sessions.WorkflowView)
    ensures Survives(Codec.Dict(Sessions.MinimalState(w)))
  {
    hide Survives;
    MinimalTasksSurvive(w.tasks);
    forall name | name in w.subprocesses
      ensures Survives(Sessions.MinimalSubprocess(w.subprocesses[name]))
    {
      MinimalTasksSurvive(w.subprocesses[name].tasks);
      assert Survives(Codec.Text(w.subprocesses[name].spec)) by {
        TextSurvives(w.subprocesses[name].spec);
      }
      DictSurvives(Sessions.MinimalSubprocess(w.subprocesses[name]).fields);
    }
    DictSurvives(Sessions.MinimalState(w)["subprocesses"].fields);
    DictSurvives(Sessions.MinimalState(w));
  }

  lemma {:induction false} TextSurvives(s: string)
    ensures Survives(Codec.Text(s))
  {
  }

  lemma {:induction false} MinimalIsRecognised(w: Sessions.WorkflowView)
    ensures Sessions.IsMinimal(Sessions.AsDoc(Sessions.MinimalState(w))) && Sessions.AsDoc(Sessions.MinimalState(w)) != map[]
  {
    assert "tasks" in Sessions.AsDoc(Sessions.MinimalState(w));
  }

  /** The state a test case gets back from any workflow survives the codec and, given to the runner
      without a session, yields the same new workflow as the empty state of its first round. */
  lemma {:induction false} RestartIsFresh<W>(
      t: Codec.TextForms, ser: Sessions.Serializer<W>, cache: map<string, W>, specs: Sessions.Specs, w: Sessions.WorkflowView)
    requires t.Lawful()
    ensures Codec.RoundTrip(t, Codec.Dict(Sessions.MinimalState(w))) == Some(Codec.Dict(Sessions.MinimalState(w)))
    ensures var again := Sessions.Hydrate(ser, cache, specs, Sessions.Plain(Sessions.AsDoc(Sessions.MinimalState(w))), None);
            var first := Sessions.Hydrate(ser, cache, specs, Sessions.Plain(map[]), None);
            && again.Hydrated? == first.Hydrated?
            && (first.Hydrated? ==> again.workflow == first.workflow && again.cache == first.cache == cache)
  {
    MinimalStateSurvives(w);
    Codec.RoundTripIsIdentityIff(t, Codec.Dict(Sessions.MinimalState(w)));
    MinimalIsRecognised(w);
    hide Sessions.MinimalState, Sessions.AsDoc, Sessions.IsMinimal, Codec.RoundTrip;
  }
}
