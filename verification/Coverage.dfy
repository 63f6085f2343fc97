// Task coverage of BPMN specs by a suite of test cases (coverage.py).
module Coverage {
  import opened Basics
  import opened Reachability

  type Id = string

  /** One entry of a spec's `task_specs` dictionary. */
  datatype TaskSpec = TaskSpec(name: string, typename: Option<string>, spec: Option<string>, bpmnId: Option<string>)

  /** `EmptySpec` is the empty dictionary, which the search skips. */
  datatype ProcessSpec = EmptySpec | ProcessSpec(taskSpecs: seq<TaskSpec>)

  type Catalog = map<Id, ProcessSpec>

  /** A serialised spec file: a process and the definitions of its subprocesses. */
  datatype SpecFile = SpecFile(spec: ProcessSpec, subprocesses: Catalog)

  // ---------- the subprocess graph ----------

  predicate Embeds(t: TaskSpec, catalog: Catalog) {
    && t.typename == Some("SubWorkflowTask")
    && Truthy(t.spec)
    && t.spec.value in catalog
    && catalog[t.spec.value].ProcessSpec?
  }

  function Tasks(spec: ProcessSpec): seq<TaskSpec> {
    if spec.EmptySpec? then [] else spec.taskSpecs
  }

  ghost function Children(spec: ProcessSpec, catalog: Catalog): set<Id> {
    set t | t in Tasks(spec) && Embeds(t, catalog) :: t.spec.value
  }

  ghost function Edges(catalog: Catalog): Id -> set<Id> {
    (id: Id) => if id in catalog then Children(catalog[id], catalog) else {}
  }

  /** The subprocesses reached from `spec` by a path that avoids `seen`. */
  ghost function Embedded(spec: ProcessSpec, catalog: Catalog, seen: set<Id>): (ids: set<Id>)
    ensures ids <= catalog.Keys
  {
    set id | id in catalog && Reaches(Children(spec, catalog), Edges(catalog), seen, id)
  }

  lemma {:induction false} ReachedIsKnown(spec: ProcessSpec, catalog: Catalog, seen: set<Id>, id: Id)
    requires Reaches(Children(spec, catalog), Edges(catalog), seen, id)
    ensures id in catalog && catalog[id].ProcessSpec? && id !in seen
    ensures id in Embedded(spec, catalog, seen)
  {
    var p :| IsPath(Children(spec, catalog), Edges(catalog), seen, p) && p[|p| - 1] == id;
    if |p| > 1 {
      assert p[|p| - 1] in Edges(catalog)(p[|p| - 2]);
    }
  }

  /** The reached set is closed: a child of a reached subprocess is reached or was avoided. */
  lemma {:induction false} EmbeddedIsClosed(spec: ProcessSpec, catalog: Catalog, seen: set<Id>)
    ensures Children(spec, catalog) <= seen + Embedded(spec, catalog, seen)
    ensures forall id | id in Embedded(spec, catalog, seen) ::
              Children(catalog[id], catalog) <= seen + Embedded(spec, catalog, seen)
  {
    forall c | c in Children(spec, catalog) && c !in seen
      ensures c in Embedded(spec, catalog, seen)
    {
      RootReached(Children(spec, catalog), Edges(catalog), seen, c);
    }
    forall id, c | id in Embedded(spec, catalog, seen) && c in Children(catalog[id], catalog) && c !in seen
      ensures c in Embedded(spec, catalog, seen)
    {
      StepReached(Children(spec, catalog), Edges(catalog), seen, id, c);
    }
  }

  /** The white-path argument: sound, disjoint from what was seen, and closed means exact. */
  lemma {:induction false} ClosedIsExact(spec: ProcessSpec, catalog: Catalog, seen: set<Id>, found: set<Id>)
    requires found <= Embedded(spec, catalog, seen)
    requires Children(spec, catalog) <= seen + found
    requires forall id | id in found :: Children(catalog[id], catalog) <= seen + found
    ensures found == Embedded(spec, catalog, seen)
  {
    forall id | id in Embedded(spec, catalog, seen)
      ensures id in found
    {
      ClosedHoldsReached(Children(spec, catalog), Edges(catalog), seen, found, id);
    }
  }

  /** A subprocess found late in the search, avoiding more, is reached from the start as well. */
  lemma {:induction false} EmbeddedThroughChild(spec: ProcessSpec, catalog: Catalog, seen: set<Id>, child: Id, seen': set<Id>)
    requires child in Children(spec, catalog) && child !in seen && seen <= seen'
    ensures child in Embedded(spec, catalog, seen)
    ensures Embedded(catalog[child], catalog, seen') <= Embedded(spec, catalog, seen)
  {
    RootReached(Children(spec, catalog), Edges(catalog), seen, child);
    forall id | id in Embedded(catalog[child], catalog, seen')
      ensures id in Embedded(spec, catalog, seen)
    {
      ReachedThrough(Children(spec, catalog), Edges(catalog), seen, child, seen', id);
    }
  }

  method EmbeddedSubprocessIds(spec: ProcessSpec, catalog: Catalog, seen: MutableSet<Id>) returns (embedded: set<Id>)
    requires spec.ProcessSpec?
    modifies seen
    ensures embedded == Embedded(spec, catalog, old(seen.elems))
    ensures seen.elems == old(seen.elems) + embedded
    ensures embedded !! old(seen.elems)
    decreases catalog.Keys - seen.elems
  {
    hide Embedded;
    ghost var seen0 := seen.elems;
    embedded := {};
    for i := 0 to |spec.taskSpecs|
      invariant embedded <= Embedded(spec, catalog, seen0)
      invariant seen.elems == seen0 + embedded
      invariant embedded !! seen0 && embedded <= catalog.Keys
      invariant forall t | t in spec.taskSpecs[..i] && Embeds(t, catalog) :: t.spec.value in seen.elems
      invariant forall id | id in embedded :: Children(catalog[id], catalog) <= seen.elems
    {
      var t := spec.taskSpecs[i];
      if t.typename != Some("SubWorkflowTask") {
        continue;
      }
      if !Truthy(t.spec) || t.spec.value in seen.elems {
        continue;
      }
      var id := t.spec.value;
      if id !in catalog || catalog[id].EmptySpec? {
        continue;
      }
      assert id in Children(spec, catalog);
      seen.elems := seen.elems + {id};
      ghost var seen1 := seen.elems;
      var nested := EmbeddedSubprocessIds(catalog[id], catalog, seen);
      embedded := embedded + {id} + nested;
      EmbeddedThroughChild(spec, catalog, seen0, id, seen1);
      EmbeddedIsClosed(catalog[id], catalog, seen1);
    }
    ClosedIsExact(spec, catalog, seen0, embedded);
  }

  // ---------- the bpmn tasks of a spec ----------

  ghost function BpmnTasks(spec: ProcessSpec): set<string> {
    set t | t in Tasks(spec) && Truthy(t.bpmnId) :: t.name
  }

  ghost function BpmnTasksOf(ids: set<Id>, catalog: Catalog): set<string> {
    set id, name | id in ids && id in catalog && name in BpmnTasks(catalog[id]) :: name
  }

  /** The bpmn tasks of `spec` and of every subprocess it reaches outside `seen`. */
  ghost function AllTasks(spec: ProcessSpec, catalog: Catalog, seen: set<Id>): set<string> {
    BpmnTasks(spec) + BpmnTasksOf(Embedded(spec, catalog, seen), catalog)
  }

  lemma {:induction false} NothingLeftToSee(spec: ProcessSpec, catalog: Catalog, seen: set<Id>)
    requires Children(spec, catalog) <= seen
    ensures Embedded(spec, catalog, seen) == {}
    ensures seen + Embedded(spec, catalog, seen) == seen
    ensures AllTasks(spec, catalog, seen) == BpmnTasks(spec)
  {
    ClosedIsExact(spec, catalog, seen, {});
  }

  lemma {:induction false} BpmnTasksOfOneMore(ids: set<Id>, catalog: Catalog, id: Id, own: set<string>)
    requires id in catalog
    ensures own + BpmnTasksOf(ids + {id}, catalog) == own + BpmnTasksOf(ids, catalog) + BpmnTasks(catalog[id])
  {
    forall name | name in BpmnTasks(catalog[id])
      ensures name in BpmnTasksOf(ids + {id}, catalog)
    {
      assert id in ids + {id};
    }
  }

  lemma {:induction false} MoveOne(all: set<Id>, todo: set<Id>, id: Id)
    requires id in todo && todo <= all
    ensures all - (todo - {id}) == (all - todo) + {id}
  {
  }

  method TaskIds(spec: ProcessSpec, catalog: Catalog, seen: MutableSet<Id>) returns (ids: set<string>)
    requires spec.ProcessSpec?
    modifies seen
    ensures ids == AllTasks(spec, catalog, old(seen.elems))
    ensures seen.elems == old(seen.elems) + Embedded(spec, catalog, old(seen.elems))
    decreases catalog.Keys - seen.elems
  {
    ghost var seen0 := seen.elems;
    ids := set t | t in spec.taskSpecs && Truthy(t.bpmnId) :: t.name;
    var todo := EmbeddedSubprocessIds(spec, catalog, seen);
    ghost var found, seen1 := todo, seen.elems;
    EmbeddedIsClosed(spec, catalog, seen0);
    assert found - todo == {};
    while todo != {}
      invariant todo <= found
      invariant seen.elems == seen1
      invariant ids == BpmnTasks(spec) + BpmnTasksOf(found - todo, catalog)
      decreases todo
    {
      var id :| id in todo;
      ReachedIsKnown(spec, catalog, seen0, id);
      NothingLeftToSee(catalog[id], catalog, seen1);
      BpmnTasksOfOneMore(found - todo, catalog, id, BpmnTasks(spec));
      MoveOne(found, todo, id);
      var more := TaskIds(catalog[id], catalog, seen);
      ids, todo := ids + more, todo - {id};
    }
    assert found - todo == found;
  }

  // ---------- who owns an embedded subprocess ----------

  /** `ctx.specs`, an insertion-ordered dictionary. */
  datatype Entry = Entry(id: Id, file: SpecFile)

  ghost predicate ValidSpecs(specs: seq<Entry>) {
    && (forall i | 0 <= i < |specs| :: specs[i].file.spec.ProcessSpec?)
    && (forall i, j | 0 <= i < j < |specs| :: specs[i].id != specs[j].id)
  }

  ghost function Reached(file: SpecFile): set<Id> {
    Embedded(file.spec, file.subprocesses, {})
  }

  /** Every embedded subprocess and its owner: a later spec overrides an earlier one. */
  ghost function OwnerMap(specs: seq<Entry>): map<Id, Id> {
    if specs == [] then map[]
    else
      var last := specs[|specs| - 1];
      OwnerMap(specs[..|specs| - 1]) + map sub | sub in Reached(last.file) :: last.id
  }

  function Lookup(owners: map<Id, Id>, sub: Id): Id {
    if sub in owners then owners[sub] else sub
  }

  method EmbeddedSubprocessOwners(specs: seq<Entry>) returns (owners: map<Id, Id>)
    requires ValidSpecs(specs)
    ensures owners == OwnerMap(specs)
  {
    owners := map[];
    for i := 0 to |specs|
      invariant owners == OwnerMap(specs[..i])
    {
      var seen := new MutableSet<Id>();
      var embedded := EmbeddedSubprocessIds(specs[i].file.spec, specs[i].file.subprocesses, seen);
      assert specs[..i + 1][..i] == specs[..i];
      owners := owners + map sub | sub in embedded :: specs[i].id;
    }
    assert specs[..|specs|] == specs;
  }

  /** `j` is the last spec in dictionary order that embeds `sub`. */
  ghost predicate LastEmbedder(specs: seq<Entry>, sub: Id, j: int) {
    && 0 <= j < |specs| && sub in Reached(specs[j].file)
    && forall k | j < k < |specs| :: sub !in Reached(specs[k].file)
  }

  lemma {:induction false} LastEmbedderExists(specs: seq<Entry>, sub: Id, i: nat)
    requires i < |specs| && sub in Reached(specs[i].file)
    ensures exists j :: i <= j && LastEmbedder(specs, sub, j)
    decreases |specs| - i
  {
    hide Reached;
    if k :| i < k < |specs| && sub in Reached(specs[k].file) {
      LastEmbedderExists(specs, sub, k);
    } else {
      assert LastEmbedder(specs, sub, i);
    }
  }

  lemma {:induction false} LastEmbedderOwns(specs: seq<Entry>, sub: Id, j: int)
    requires LastEmbedder(specs, sub, j)
    ensures sub in OwnerMap(specs) && OwnerMap(specs)[sub] == specs[j].id
  {
    hide Reached;
    var n := |specs| - 1;
    if j < n {
      assert forall k | 0 <= k < n :: specs[..n][k] == specs[k];
      LastEmbedderOwns(specs[..n], sub, j);
    }
  }

  /** Owned subprocesses are the embedded ones, and the owner is the last spec that embeds it. */
  lemma {:induction false} OwnerIsLastEmbedder(specs: seq<Entry>, sub: Id)
    ensures sub in OwnerMap(specs) <==> exists j :: LastEmbedder(specs, sub, j)
    ensures forall j | LastEmbedder(specs, sub, j) :: sub in OwnerMap(specs) && OwnerMap(specs)[sub] == specs[j].id
  {
    forall j | LastEmbedder(specs, sub, j)
      ensures sub in OwnerMap(specs) && OwnerMap(specs)[sub] == specs[j].id
    {
      LastEmbedderOwns(specs, sub, j);
    }
    if sub in OwnerMap(specs) {
      OwnedIsEmbedded(specs, sub);
    }
  }

  lemma {:induction false} OwnedIsEmbedded(specs: seq<Entry>, sub: Id)
    requires sub in OwnerMap(specs)
    ensures exists j :: LastEmbedder(specs, sub, j)
  {
    hide Reached;
    var n := |specs| - 1;
    if sub in Reached(specs[n].file) {
      LastEmbedderExists(specs, sub, n);
    } else {
      OwnedIsEmbedded(specs[..n], sub);
      var j :| LastEmbedder(specs[..n], sub, j);
      assert specs[..n][j] == specs[j];
      LastEmbedderExists(specs, sub, j);
    }
  }

  // ---------- crediting completed tasks ----------

  const COMPLETED := 64

  datatype RunTask = RunTask(taskSpec: string, state: int)
  datatype RunSubprocess = RunSubprocess(spec: Id, tasks: seq<RunTask>)
  datatype TestCase = TestCase(coverageSpecId: Option<Id>, tasks: seq<RunTask>, subprocesses: seq<RunSubprocess>)

  function Yields(id: Id, tasks: seq<RunTask>): set<(Id, string)> {
    set t | t in tasks && t.state == COMPLETED :: (id, t.taskSpec)
  }

  ghost function SubprocessCredits(owners: map<Id, Id>, subprocesses: seq<RunSubprocess>): set<(Id, string)> {
    set sp, p | sp in subprocesses && p in Yields(Lookup(owners, sp.spec), sp.tasks) :: p
  }

  ghost function CaseCredits(owners: map<Id, Id>, test: TestCase): set<(Id, string)> {
    (if Truthy(test.coverageSpecId) then Yields(test.coverageSpecId.value, test.tasks) else {})
    + SubprocessCredits(owners, test.subprocesses)
  }

  /** The (spec id, task) pairs that a suite of test cases credits. */
  ghost function SuiteCredits(owners: map<Id, Id>, tests: seq<TestCase>): set<(Id, string)> {
    set test, p | test in tests && p in CaseCredits(owners, test) :: p
  }

  lemma {:induction false} SubprocessCreditsPlusOne(owners: map<Id, Id>, subprocesses: seq<RunSubprocess>, i: nat)
    requires i < |subprocesses|
    ensures SubprocessCredits(owners, subprocesses[..i + 1])
            == SubprocessCredits(owners, subprocesses[..i])
               + Yields(Lookup(owners, subprocesses[i].spec), subprocesses[i].tasks)
  {
    assert subprocesses[..i + 1] == subprocesses[..i] + [subprocesses[i]];
  }

  lemma {:induction false} SuiteCreditsPlusOne(owners: map<Id, Id>, tests: seq<TestCase>, i: nat)
    requires i < |tests|
    ensures SuiteCredits(owners, tests[..i + 1]) == SuiteCredits(owners, tests[..i]) + CaseCredits(owners, tests[i])
  {
    hide CaseCredits;
    assert tests[..i + 1] == tests[..i] + [tests[i]];
  }

  method CovTasks(tests: seq<TestCase>, owners: map<Id, Id>) returns (pairs: set<(Id, string)>)
    ensures pairs == SuiteCredits(owners, tests)
  {
    pairs := {};
    for i := 0 to |tests|
      invariant pairs == SuiteCredits(owners, tests[..i])
    {
      var test := tests[i];
      var top := {};
      if Truthy(test.coverageSpecId) {
        top := Yields(test.coverageSpecId.value, test.tasks);
      }
      var below := {};
      for k := 0 to |test.subprocesses|
        invariant below == SubprocessCredits(owners, test.subprocesses[..k])
      {
        var sp := test.subprocesses[k];
        SubprocessCreditsPlusOne(owners, test.subprocesses, k);
        below := below + Yields(Lookup(owners, sp.spec), sp.tasks);
      }
      assert test.subprocesses[..|test.subprocesses|] == test.subprocesses;
      SuiteCreditsPlusOne(owners, tests, i);
      pairs := pairs + (top + below);
    }
    assert tests[..|tests|] == tests;
  }

  // ---------- coverage ----------

  datatype Cov = Cov(all: map<Id, set<string>>, completed: map<Id, set<string>>, missing: map<Id, set<string>>)

  ghost function SpecTasks(file: SpecFile): set<string> {
    AllTasks(file.spec, file.subprocesses, {})
  }

  ghost function CreditedTo(pairs: set<(Id, string)>, id: Id): set<string> {
    set p | p in pairs && p.0 == id :: p.1
  }

  /** The covered tasks of a spec: those of its own tasks that some test case completed for it. */
  ghost function Completed(specs: seq<Entry>, tests: seq<TestCase>, e: Entry): set<string> {
    CreditedTo(SuiteCredits(OwnerMap(specs), tests), e.id) * SpecTasks(e.file)
  }

  ghost predicate IsGrouping(completed: map<Id, set<string>>, pairs: set<(Id, string)>) {
    && (forall p | p in pairs :: p.0 in completed)
    && (forall id | id in completed :: completed[id] == CreditedTo(pairs, id))
  }

  lemma {:induction false} CreditedPlusOne(pairs: set<(Id, string)>, p: (Id, string), id: Id)
    ensures CreditedTo(pairs + {p}, id) == CreditedTo(pairs, id) + if p.0 == id then {p.1} else {}
  {
    forall name | name in CreditedTo(pairs, id) + if p.0 == id then {p.1} else {}
      ensures name in CreditedTo(pairs + {p}, id)
    {
      assert (id, name) in pairs + {p};
    }
  }

  method GroupBySpec(pairs: set<(Id, string)>) returns (completed: map<Id, set<string>>)
    ensures IsGrouping(completed, pairs)
  {
    completed := map[];
    var todo := pairs;
    ghost var done := {};
    while todo != {}
      invariant done == pairs - todo && todo <= pairs
      invariant IsGrouping(completed, done)
      decreases todo
    {
      var p :| p in todo;
      var (id, name) := p;
      forall other {
        CreditedPlusOne(done, p, other);
      }
      if id !in completed {
        completed := completed[id := {}];
      }
      completed := completed[id := completed[id] + {name}];
      todo, done := todo - {p}, done + {p};
    }
    assert done == pairs;
  }

  /** The coverage of one spec, given the credited pairs. */
  ghost predicate CoversEntry(cov: Cov, pairs: set<(Id, string)>, e: Entry) {
    && e.id in cov.all && cov.all[e.id] == SpecTasks(e.file)
    && e.id in cov.completed && cov.completed[e.id] == CreditedTo(pairs, e.id) * SpecTasks(e.file)
    && e.id in cov.missing && cov.missing[e.id] == SpecTasks(e.file) - CreditedTo(pairs, e.id)
  }

  ghost predicate UntouchedEntry(completed: map<Id, set<string>>, pairs: set<(Id, string)>, e: Entry) {
    CreditedTo(pairs, e.id) == if e.id in completed then completed[e.id] else {}
  }

  ghost function Ids(specs: seq<Entry>): set<Id> {
    set e | e in specs :: e.id
  }

  lemma {:induction false} IdsPlusOne(specs: seq<Entry>, i: nat)
    requires i < |specs|
    ensures Ids(specs[..i + 1]) == Ids(specs[..i]) + {specs[i].id}
  {
    assert specs[..i + 1] == specs[..i] + [specs[i]];
  }

  lemma {:induction false} GroupingIsUntouched(completed: map<Id, set<string>>, pairs: set<(Id, string)>, specs: seq<Entry>)
    requires IsGrouping(completed, pairs)
    ensures forall k | 0 <= k < |specs| :: UntouchedEntry(completed, pairs, specs[k])
  {
  }

  /** One pass of the second loop of `task_coverage`. */
  method CoverSpec(e: Entry, cov: Cov, ghost pairs: set<(Id, string)>) returns (cov': Cov)
    requires e.file.spec.ProcessSpec?
    requires UntouchedEntry(cov.completed, pairs, e)
    ensures CoversEntry(cov', pairs, e)
    ensures cov'.all == cov.all[e.id := SpecTasks(e.file)]
    ensures cov'.completed == cov.completed[e.id := CreditedTo(pairs, e.id) * SpecTasks(e.file)]
    ensures cov'.missing == cov.missing[e.id := SpecTasks(e.file) - CreditedTo(pairs, e.id)]
  {
    hide Embedded, CreditedTo;
    var completed := cov.completed;
    if e.id !in completed {
      completed := completed[e.id := {}];
    }
    var seen := new MutableSet<Id>();
    var ids := TaskIds(e.file.spec, e.file.subprocesses, seen);
    completed := completed[e.id := completed[e.id] * ids];
    cov' := Cov(cov.all[e.id := ids], completed, cov.missing[e.id := ids - completed[e.id]]);
  }

  method TaskCoverage(specs: seq<Entry>, tests: seq<TestCase>) returns (cov: Cov)
    requires ValidSpecs(specs)
    ensures cov.all.Keys == cov.missing.Keys == Ids(specs)
    ensures forall i | 0 <= i < |specs| :: CoversEntry(cov, SuiteCredits(OwnerMap(specs), tests), specs[i])
  {
    hide SpecTasks, SuiteCredits, CreditedTo, Ids, OwnerMap;
    var owners := EmbeddedSubprocessOwners(specs);
    var pairs := CovTasks(tests, owners);
    var completed := GroupBySpec(pairs);
    GroupingIsUntouched(completed, pairs, specs);
    cov := Cov(map[], completed, map[]);
    assert cov.all.Keys == Ids(specs[..0]) by { IdsOfNone(specs); }
    for i := 0 to |specs|
      invariant cov.all.Keys == cov.missing.Keys == Ids(specs[..i])
      invariant forall k | 0 <= k < i :: CoversEntry(cov, pairs, specs[k])
      invariant forall k | i <= k < |specs| :: UntouchedEntry(cov.completed, pairs, specs[k])
    {
      IdsPlusOne(specs, i);
      cov := CoverSpec(specs[i], cov, pairs);
    }
    assert specs[..|specs|] == specs;
  }

  lemma {:induction false} IdsOfNone(specs: seq<Entry>)
    ensures Ids(specs[..0]) == {}
  {
  }

  // ---------- what coverage promises ----------

  lemma {:induction false} ReachedTasksBelong(file: SpecFile, sub: Id, name: string)
    requires sub in Reached(file) && name in BpmnTasks(file.subprocesses[sub])
    ensures name in SpecTasks(file)
  {
    assert name in BpmnTasksOf(Reached(file), file.subprocesses);
  }

  ghost function Defined(file: SpecFile, id: Id): ProcessSpec {
    if id in file.subprocesses then file.subprocesses[id] else EmptySpec
  }

  /** `from` has a task that runs the subprocess `id` of the file, which is defined and not empty. */
  ghost predicate Runs(from: ProcessSpec, file: SpecFile, id: Id) {
    && id != "" && Defined(file, id).ProcessSpec? && from.ProcessSpec?
    && exists t | t in from.taskSpecs :: t.typename == Some("SubWorkflowTask") && t.spec == Some(id)
  }

  ghost function Before(file: SpecFile, ids: seq<Id>, i: nat): ProcessSpec
    requires i < |ids|
  {
    if i == 0 then file.spec else Defined(file, ids[i - 1])
  }

  /** Subprocesses of the file, each run by the one before, the first by its process. */
  ghost predicate Chain(file: SpecFile, ids: seq<Id>) {
    forall i | 0 <= i < |ids| :: Runs(Before(file, ids, i), file, ids[i])
  }

  ghost predicate HasBpmnTask(spec: ProcessSpec, name: string) {
    spec.ProcessSpec? && exists t | t in spec.taskSpecs :: t.name == name && t.bpmnId.Some? && t.bpmnId.value != ""
  }

  /** The tasks of a spec are exactly those with a bpmn id, in its process or at the end of a chain of
      subprocesses that run each other. */
  lemma {:induction false} SpecTasksExactly(file: SpecFile, name: string)
    ensures name in SpecTasks(file) <==>
            || HasBpmnTask(file.spec, name)
            || exists ids :: ids != [] && Chain(file, ids) && HasBpmnTask(Defined(file, ids[|ids| - 1]), name)
  {
    hide Chain, Embedded;
    if name in SpecTasks(file) && name !in BpmnTasks(file.spec) {
      var id :| id in Reached(file) && name in BpmnTasks(file.subprocesses[id]);
      ReachedByChain(file, id);
    }
    if ids :| ids != [] && Chain(file, ids) && HasBpmnTask(Defined(file, ids[|ids| - 1]), name) {
      ChainReaches(file, ids);
      ReachedTasksBelong(file, ids[|ids| - 1], name);
    }
  }

  lemma {:induction false} ChildIsRun(from: ProcessSpec, file: SpecFile, id: Id)
    ensures id in Children(from, file.subprocesses) <==> Runs(from, file, id)
  {
  }

  lemma {:induction false} ReachedByChain(file: SpecFile, id: Id)
    requires id in Reached(file)
    ensures exists ids :: ids != [] && Chain(file, ids) && ids[|ids| - 1] == id
  {
    var roots, succ := Children(file.spec, file.subprocesses), Edges(file.subprocesses);
    var p :| IsPath(roots, succ, {}, p) && p[|p| - 1] == id;
    hide Runs, Children;
    forall i | 0 <= i < |p|
      ensures Runs(Before(file, p, i), file, p[i])
    {
      if i > 0 {
        assert p[i] in succ(p[i - 1]);
      }
      ChildIsRun(Before(file, p, i), file, p[i]);
    }
    assert Chain(file, p);
  }

  lemma {:induction false} ChainReaches(file: SpecFile, ids: seq<Id>)
    requires ids != [] && Chain(file, ids)
    ensures ids[|ids| - 1] in Reached(file)
  {
    var roots, succ := Children(file.spec, file.subprocesses), Edges(file.subprocesses);
    forall i | 0 <= i < |ids|
      ensures ids[i] in file.subprocesses
      ensures ids[i] in Children(Before(file, ids, i), file.subprocesses)
    {
      assert Runs(Before(file, ids, i), file, ids[i]);
      ChildIsRun(Before(file, ids, i), file, ids[i]);
    }
    hide Runs, Children;
    assert ids[0] in roots by {
      assert Before(file, ids, 0) == file.spec;
    }
    forall i | 0 < i < |ids|
      ensures ids[i] in succ(ids[i - 1])
    {
      assert ids[i - 1] in file.subprocesses;
    }
    assert IsPath(roots, succ, {}, ids);
  }

  /** A completed bpmn task of an embedded subprocess counts for exactly one spec, the last that
      embeds it. */
  lemma {:induction false} NoEmbeddedTaskLost(
      specs: seq<Entry>, tests: seq<TestCase>, test: TestCase, sp: RunSubprocess, t: RunTask, i: nat)
    requires ValidSpecs(specs)
    requires test in tests && sp in test.subprocesses && t in sp.tasks && t.state == COMPLETED
    requires i < |specs| && sp.spec in Reached(specs[i].file)
    requires t.taskSpec in BpmnTasks(specs[i].file.subprocesses[sp.spec])
    requires forall j | 0 <= j < |specs| && sp.spec in Reached(specs[j].file) ::
               specs[j].file.subprocesses[sp.spec] == specs[i].file.subprocesses[sp.spec]
    ensures exists o | i <= o < |specs| ::
              && LastEmbedder(specs, sp.spec, o)
              && t.taskSpec in Completed(specs, tests, specs[o])
              && (forall p | p in Yields(Lookup(OwnerMap(specs), sp.spec), sp.tasks) :: p.0 == specs[o].id)
  {
    hide Embedded, OwnerMap;
    var owners := OwnerMap(specs);
    LastEmbedderExists(specs, sp.spec, i);
    var o :| i <= o && LastEmbedder(specs, sp.spec, o);
    OwnerIsLastEmbedder(specs, sp.spec);
    var pair := (specs[o].id, t.taskSpec);
    assert pair in Yields(Lookup(owners, sp.spec), sp.tasks);
    assert pair in CaseCredits(owners, test);
    assert pair in SuiteCredits(owners, tests);
    ReachedTasksBelong(specs[o].file, sp.spec, t.taskSpec);
    assert t.taskSpec in Completed(specs, tests, specs[o]);
  }

  /** A run of an embedded subprocess counts for a spec that embeds it if and only if no later
      spec embeds it too: earlier embedding specs get no credit for it. */
  lemma {:induction false} OnlyLastEmbedderIsCredited(specs: seq<Entry>, sp: RunSubprocess, t: RunTask, o: nat)
    requires ValidSpecs(specs)
    requires o < |specs| && sp.spec in Reached(specs[o].file)
    requires t in sp.tasks && t.state == COMPLETED
    requires t.taskSpec in BpmnTasks(specs[o].file.subprocesses[sp.spec])
    ensures t.taskSpec in Completed(specs, [TestCase(None, [], [sp])], specs[o])
            <==> LastEmbedder(specs, sp.spec, o)
  {
    hide Embedded, OwnerMap;
    var owners, test := OwnerMap(specs), TestCase(None, [], [sp]);
    LastEmbedderExists(specs, sp.spec, o);
    OwnerIsLastEmbedder(specs, sp.spec);
    SubprocessCreditsPlusOne(owners, [sp], 0);
    SuiteCreditsPlusOne(owners, [test], 0);
    assert [sp][..1] == [sp] && [test][..1] == [test];
    assert (owners[sp.spec], t.taskSpec) in Yields(owners[sp.spec], sp.tasks);
    ReachedTasksBelong(specs[o].file, sp.spec, t.taskSpec);
  }

  /** A process with one subprocess, which has one task. */
  function SharingFile(): SpecFile {
    SpecFile(ProcessSpec([TaskSpec("call", Some("SubWorkflowTask"), Some("sub"), None)]),
             map["sub" := ProcessSpec([TaskSpec("approve", None, None, Some("Approve"))])])
  }

  /** Two specs embed the same subprocess, whose one task was completed: the first gets no credit. */
  lemma {:induction false} FirstEmbedderGetsNoCredit()
    ensures var specs := [Entry("a", SharingFile()), Entry("b", SharingFile())];
            var tests := [TestCase(None, [], [RunSubprocess("sub", [RunTask("approve", 64)])])];
            && ValidSpecs(specs)
            && "approve" in SpecTasks(specs[0].file) && "approve" !in Completed(specs, tests, specs[0])
            && "approve" in Completed(specs, tests, specs[1])
  {
    var file, specs := SharingFile(), [Entry("a", SharingFile()), Entry("b", SharingFile())];
    var sp, task := RunSubprocess("sub", [RunTask("approve", 64)]), RunTask("approve", 64);
    SharingFileReaches();
    LastOfTwo(Entry("a", file), Entry("b", file), "sub");
    ValidPair(Entry("a", file), Entry("b", file));
    assert task in sp.tasks;
    hide *;
    ReachedTasksBelong(file, "sub", "approve");
    OnlyLastEmbedderIsCredited(specs, sp, task, 0);
    OnlyLastEmbedderIsCredited(specs, sp, task, 1);
  }

  lemma {:induction false} ValidPair(a: Entry, b: Entry)
    requires a.file.spec.ProcessSpec? && b.file.spec.ProcessSpec? && a.id != b.id
    ensures ValidSpecs([a, b])
  {
  }

  lemma {:induction false} LastOfTwo(a: Entry, b: Entry, sub: Id)
    requires sub in Reached(b.file)
    ensures LastEmbedder([a, b], sub, 1) && !LastEmbedder([a, b], sub, 0)
  {
    hide Reached;
    assert sub in Reached([a, b][1].file);
  }

  lemma {:induction false} SharingFileReaches()
    ensures var file := SharingFile();
            "sub" in Reached(file) && "approve" in BpmnTasks(file.subprocesses["sub"])
  {
    var file := SharingFile();
    var call, approve := file.spec.taskSpecs[0], file.subprocesses["sub"].taskSpecs[0];
    assert Embeds(call, file.subprocesses) && call in Tasks(file.spec);
    assert approve in Tasks(file.subprocesses["sub"]);
    EmbeddedIsClosed(file.spec, file.subprocesses, {});
  }

  /** Some run of `name` counts for the spec `e`: in the main process of a test case made for it, or in
      a subprocess that `e` is the last to embed or, if none embeds it, that is `e` itself. */
  ghost predicate CountsFor(specs: seq<Entry>, test: TestCase, e: Entry, name: string) {
    || (test.coverageSpecId == Some(e.id) && e.id != "" && RunTask(name, 64) in test.tasks)
    || (exists sp | sp in test.subprocesses ::
          && RunTask(name, 64) in sp.tasks
          && if exists j :: LastEmbedder(specs, sp.spec, j)
             then exists j :: LastEmbedder(specs, sp.spec, j) && specs[j].id == e.id
             else sp.spec == e.id)
  }

  lemma {:induction false} CreditedOwner(specs: seq<Entry>, sp: RunSubprocess, id: Id, name: string)
    ensures (id, name) in Yields(Lookup(OwnerMap(specs), sp.spec), sp.tasks)
            <==> && RunTask(name, COMPLETED) in sp.tasks
                 && if exists j :: LastEmbedder(specs, sp.spec, j)
                    then exists j :: LastEmbedder(specs, sp.spec, j) && specs[j].id == id
                    else sp.spec == id
  {
    OwnerIsLastEmbedder(specs, sp.spec);
    hide OwnerMap, Reached;
    YieldsIff(Lookup(OwnerMap(specs), sp.spec), sp.tasks, id, name);
    if j :| LastEmbedder(specs, sp.spec, j) {
      assert OwnerMap(specs)[sp.spec] == specs[j].id;
    }
  }

  lemma {:induction false} YieldsIff(owner: Id, tasks: seq<RunTask>, id: Id, name: string)
    ensures (id, name) in Yields(owner, tasks) <==> id == owner && RunTask(name, COMPLETED) in tasks
  {
    if RunTask(name, COMPLETED) in tasks {
      assert (owner, name) in Yields(owner, tasks);
    }
  }

  /** A task of a spec is covered exactly when some test case completed it in a run that counts for
      the spec. */
  lemma {:induction false} CompletedExactly(specs: seq<Entry>, tests: seq<TestCase>, e: Entry, name: string)
    ensures name in Completed(specs, tests, e)
            <==> name in SpecTasks(e.file) && exists test | test in tests :: CountsFor(specs, test, e, name)
  {
    hide SpecTasks, CountsFor, OwnerMap;
    forall test
      ensures (e.id, name) in CaseCredits(OwnerMap(specs), test) <==> CountsFor(specs, test, e, name)
    {
      CaseCreditsIff(specs, test, e, name);
    }
    hide CaseCredits;
    assert name in CreditedTo(SuiteCredits(OwnerMap(specs), tests), e.id)
           <==> (e.id, name) in SuiteCredits(OwnerMap(specs), tests);
  }

  lemma {:induction false} CaseCreditsIff(specs: seq<Entry>, test: TestCase, e: Entry, name: string)
    ensures (e.id, name) in CaseCredits(OwnerMap(specs), test) <==> CountsFor(specs, test, e, name)
  {
    hide OwnerMap, LastEmbedder, Yields;
    forall sp {
      CreditedOwner(specs, sp, e.id, name);
    }
    if Truthy(test.coverageSpecId) {
      YieldsIff(test.coverageSpecId.value, test.tasks, e.id, name);
    }
  }

  lemma {:induction false} CompletedAndMissingPartition(specs: seq<Entry>, tests: seq<TestCase>, cov: Cov, e: Entry)
    requires CoversEntry(cov, SuiteCredits(OwnerMap(specs), tests), e)
    ensures cov.completed[e.id] == Completed(specs, tests, e)
    ensures cov.completed[e.id] + cov.missing[e.id] == cov.all[e.id]
    ensures cov.completed[e.id] !! cov.missing[e.id]
  {
    hide SuiteCredits, SpecTasks, CreditedTo;
  }

  /** Coverage depends on which test cases ran, not on their order, and more tests cover more. */
  lemma {:induction false} MoreTestsCoverMore(specs: seq<Entry>, fewer: seq<TestCase>, more: seq<TestCase>, e: Entry)
    requires forall test | test in fewer :: test in more
    ensures Completed(specs, fewer, e) <= Completed(specs, more, e)
    ensures (forall test | test in more :: test in fewer) ==> Completed(specs, fewer, e) == Completed(specs, more, e)
  {
    hide SpecTasks, CaseCredits, OwnerMap;
    var owners := OwnerMap(specs);
    assert SuiteCredits(owners, fewer) <= SuiteCredits(owners, more);
    if forall test | test in more :: test in fewer {
      assert SuiteCredits(owners, more) <= SuiteCredits(owners, fewer);
    }
  }

  // ---------- tally ----------

  datatype Tally = Tally(completed: nat, all: nat, percent: real)
  datatype CovTally = CovTally(result: Tally, breakdown: map<Id, Tally>)
  datatype TallyError = DivisionByZero

  ghost predicate Tallies(cov: Cov, ids: seq<Id>) {
    forall id | id in ids :: id in cov.all && id in cov.completed
  }

  ghost function Hits(cov: Cov, ids: seq<Id>): nat
    requires Tallies(cov, ids)
  {
    if ids == [] then 0
    else
      var id := ids[|ids| - 1];
      Hits(cov, ids[..|ids| - 1]) + |cov.completed[id] * cov.all[id]|
  }

  ghost function Size(cov: Cov, ids: seq<Id>): nat
    requires Tallies(cov, ids)
  {
    if ids == [] then 0 else Size(cov, ids[..|ids| - 1]) + |cov.all[ids[|ids| - 1]]|
  }

  /** `t` counts `c` of `a` tasks and gives their exact percentage. */
  ghost predicate Counts(t: Tally, c: nat, a: nat) {
    t.completed == c && t.all == a && a > 0 && t.percent * a as real == c as real * 100.0
  }

  lemma {:induction false} PercentageCounts(c: nat, a: nat)
    requires a > 0
    ensures Counts(Tally(c, a, c as real / a as real * 100.0), c, a)
  {
  }

  /** Takes the keys of `cov.all` in dictionary order. */
  method TallyCoverage(cov: Cov, ids: seq<Id>) returns (r: Result<CovTally, TallyError>)
    requires Tallies(cov, ids)
    ensures r.Err? <==> ids == [] || exists id | id in ids :: cov.all[id] == {}
    ensures r.Ok? ==> forall id :: id in r.value.breakdown <==> id in ids
    ensures r.Ok? ==> forall id | id in ids ::
              id in r.value.breakdown
              && Counts(r.value.breakdown[id], |cov.completed[id] * cov.all[id]|, |cov.all[id]|)
    ensures r.Ok? ==> Counts(r.value.result, Hits(cov, ids), Size(cov, ids))
  {
    hide Counts;
    var completed, all := 0, 0;
    var breakdown := map[];
    for i := 0 to |ids|
      invariant completed == Hits(cov, ids[..i]) && all == Size(cov, ids[..i])
      invariant forall id :: id in breakdown <==> id in ids[..i]
      invariant forall id | id in ids[..i] :: cov.all[id] != {} && id in breakdown
                  && Counts(breakdown[id], |cov.completed[id] * cov.all[id]|, |cov.all[id]|)
      invariant i > 0 ==> all > 0
    {
      var id := ids[i];
      assert ids[..i + 1] == ids[..i] + [id];
      assert ids[..i + 1][..i] == ids[..i];
      var c, a := |cov.completed[id] * cov.all[id]|, |cov.all[id]|;
      if a == 0 {
        return Err(DivisionByZero);
      }
      PercentageCounts(c, a);
      breakdown := breakdown[id := Tally(c, a, c as real / a as real * 100.0)];
      completed, all := completed + c, all + a;
    }
    assert ids[..|ids|] == ids;
    if all == 0 {
      return Err(DivisionByZero);
    }
    PercentageCounts(completed, all);
    r := Ok(CovTally(Tally(completed, all, completed as real / all as real * 100.0), breakdown));
  }

  /** The ratio of `c` to `a`, as a percentage, lies between `lo` and `hi`. */
  ghost predicate Within(lo: real, c: nat, a: nat, hi: real) {
    lo * a as real <= c as real * 100.0 <= hi * a as real
  }

  lemma {:induction false} PercentWithin(t: Tally, c: nat, a: nat, lo: real, hi: real)
    requires Counts(t, c, a)
    ensures lo <= t.percent <= hi <==> Within(lo, c, a, hi)
  {
    Cross(lo, t.percent, hi, a as real, c as real * 100.0);
  }

  lemma {:induction false} Cross(lo: real, p: real, hi: real, k: real, c: real)
    requires k > 0.0 && p * k == c
    ensures lo <= p <= hi <==> lo * k <= c <= hi * k
  {
    Scale(lo, p, k);
    Scale(p, hi, k);
  }

  lemma {:induction false} Scale(x: real, y: real, k: real)
    requires k > 0.0
    ensures x <= y <==> x * k <= y * k
  {
    assert (y - x) * k == y * k - x * k;
    if x <= y {
      assert (y - x) * k >= 0.0;
    } else {
      assert (x - y) * k > 0.0;
    }
  }

  lemma {:induction false} WithinAdds(lo: real, c: nat, a: nat, c': nat, a': nat, hi: real)
    requires Within(lo, c, a, hi) && Within(lo, c', a', hi)
    ensures Within(lo, c + c', a + a', hi)
  {
    assert lo * (a + a') as real == lo * a as real + lo * a' as real;
    assert hi * (a + a') as real == hi * a as real + hi * a' as real;
  }

  lemma {:induction false} TotalsWithin(cov: Cov, ids: seq<Id>, lo: real, hi: real)
    requires Tallies(cov, ids)
    requires forall id | id in ids :: Within(lo, |cov.completed[id] * cov.all[id]|, |cov.all[id]|, hi)
    ensures Within(lo, Hits(cov, ids), Size(cov, ids), hi)
  {
    if ids != [] {
      hide Within;
      var id := ids[|ids| - 1];
      TotalsWithin(cov, ids[..|ids| - 1], lo, hi);
      WithinAdds(lo, Hits(cov, ids[..|ids| - 1]), Size(cov, ids[..|ids| - 1]),
                 |cov.completed[id] * cov.all[id]|, |cov.all[id]|, hi);
    }
  }

  /** Any bounds on the percentages of the breakdown bound the overall percentage. */
  lemma {:induction false} OverallBetweenBreakdowns(cov: Cov, ids: seq<Id>, t: CovTally, lo: real, hi: real)
    requires Tallies(cov, ids)
    requires forall id | id in ids ::
               && id in t.breakdown
               && Counts(t.breakdown[id], |cov.completed[id] * cov.all[id]|, |cov.all[id]|)
               && lo <= t.breakdown[id].percent <= hi
    requires Counts(t.result, Hits(cov, ids), Size(cov, ids))
    ensures lo <= t.result.percent <= hi
  {
    hide Within, Counts;
    forall id | id in ids
      ensures Within(lo, |cov.completed[id] * cov.all[id]|, |cov.all[id]|, hi)
    {
      PercentWithin(t.breakdown[id], |cov.completed[id] * cov.all[id]|, |cov.all[id]|, lo, hi);
    }
    TotalsWithin(cov, ids, lo, hi);
    PercentWithin(t.result, Hits(cov, ids), Size(cov, ids), lo, hi);
  }

  lemma {:induction false} HitsNeverFall(cov: Cov, cov': Cov, ids: seq<Id>)
    requires Tallies(cov, ids) && Tallies(cov', ids)
    requires forall id | id in ids :: cov'.all[id] == cov.all[id] && cov.completed[id] <= cov'.completed[id]
    ensures Size(cov', ids) == Size(cov, ids) && Hits(cov, ids) <= Hits(cov', ids) <= Size(cov, ids)
  {
    if ids != [] {
      var id := ids[|ids| - 1];
      HitsNeverFall(cov, cov', ids[..|ids| - 1]);
      SmallerSubset(cov.completed[id] * cov.all[id], cov'.completed[id] * cov.all[id]);
      SmallerSubset(cov'.completed[id] * cov.all[id], cov.all[id]);
    }
  }

  lemma {:induction false} SmallerSubset<T>(a: set<T>, b: set<T>)
    requires a <= b
    ensures |a| <= |b|
  {
    assert b == a + (b - a);
  }

  lemma {:induction false} PercentOrder(t: Tally, t': Tally, c: nat, c': nat, a: nat)
    requires Counts(t, c, a) && Counts(t', c', a) && c <= c' <= a
    ensures t.percent <= t'.percent <= 100.0
  {
    assert Within(t.percent, c', a, 100.0) by {
      hide Within;
      PercentWithin(t, c, a, t.percent, t.percent);
      WithinMore(t.percent, c, c', a);
    }
    PercentWithin(t', c', a, t.percent, 100.0);
  }

  lemma {:induction false} WithinMore(lo: real, c: nat, c': nat, a: nat)
    requires Within(lo, c, a, lo) && c <= c' <= a
    ensures Within(lo, c', a, 100.0)
  {
  }

  /** The ids in dictionary order. */
  ghost function IdList(specs: seq<Entry>): seq<Id> {
    seq(|specs|, i requires 0 <= i < |specs| => specs[i].id)
  }

  /** Adding test cases never lowers the overall percentage, and it never passes 100. */
  lemma {:induction false} PercentNeverFalls(
      specs: seq<Entry>, fewer: seq<TestCase>, more: seq<TestCase>, cov: Cov, cov': Cov, t: Tally, t': Tally)
    requires forall test | test in fewer :: test in more
    requires forall i | 0 <= i < |specs| :: CoversEntry(cov, SuiteCredits(OwnerMap(specs), fewer), specs[i])
    requires forall i | 0 <= i < |specs| :: CoversEntry(cov', SuiteCredits(OwnerMap(specs), more), specs[i])
    requires Tallies(cov, IdList(specs)) && Tallies(cov', IdList(specs))
    requires Counts(t, Hits(cov, IdList(specs)), Size(cov, IdList(specs)))
    requires Counts(t', Hits(cov', IdList(specs)), Size(cov', IdList(specs)))
    ensures t.percent <= t'.percent <= 100.0
  {
    hide SuiteCredits, SpecTasks, CreditedTo, OwnerMap, Counts;
    var ids := IdList(specs);
    forall id | id in ids
      ensures cov'.all[id] == cov.all[id] && cov.completed[id] <= cov'.completed[id]
    {
      var i :| 0 <= i < |specs| && specs[i].id == id;
      MoreTestsCoverMore(specs, fewer, more, specs[i]);
      CompletedAndMissingPartition(specs, fewer, cov, specs[i]);
      CompletedAndMissingPartition(specs, more, cov', specs[i]);
    }
    HitsNeverFall(cov, cov', ids);
    PercentOrder(t, t', Hits(cov, ids), Hits(cov', ids), Size(cov, ids));
  }
}
