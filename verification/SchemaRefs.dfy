// The schemas an OpenAPI operation refers to, directly or through other schemas
// (bin/openapi/extract_openapi_operation_info.py).
module SchemaRefs {
  import opened Basics
  import opened Json
  import opened Reachability
  import opened Strings

  const SCHEMA_PREFIX := "#/components/schemas/"

  // ---------- local references ----------

  /** Evaluates reference tokens one by one; None where a lookup raises. */
  function Walk(current: Json, parts: seq<string>): Option<Json> {
    if parts == [] then Some(current)
    else if current.Dict? && parts[0] in current.fields then Walk(current.fields[parts[0]], parts[1..])
    else None
  }

  predicate IsLocal(ref: string) {
    "#/" <= ref
  }

  function Resolve(spec: Json, ref: string): Option<Json> {
    if IsLocal(ref) then Walk(spec, Split(ref, '/')[1..]) else None
  }

  /** `resolve_ref`; None where it raises. */
  method ResolveRef(spec: Json, ref: string) returns (found: Option<Json>)
    ensures found == Resolve(spec, ref)
  {
    if !("#/" <= ref) {
      return None;
    }
    var parts := Split(ref, '/')[1..];
    var current := spec;
    for i := 0 to |parts|
      invariant Walk(spec, parts) == Walk(current, parts[i..])
    {
      if !(current.Dict? && parts[i] in current.fields) {
        return None;
      }
      assert parts[i..][1..] == parts[i + 1..];
      current := current.fields[parts[i]];
    }
    return Some(current);
  }

  /** A reference written from its tokens is evaluated token by token: JSON Pointer evaluation
      (section 4 of RFC 6901) for tokens without a slash, and the name is the last token. */
  lemma {:induction false} ResolvePointer(spec: Json, tokens: seq<string>)
    requires tokens != [] && forall p | p in tokens :: '/' !in p
    ensures Resolve(spec, "#/" + Join(tokens, '/')) == Walk(spec, tokens)
    ensures SchemaName("#/" + Join(tokens, '/')) == tokens[|tokens| - 1]
  {
    var ref := "#/" + Join(tokens, '/');
    assert ref == "#" + ['/'] + Join(tokens, '/');
    SplitFirst("#", Join(tokens, '/'), '/');
    SplitJoin(tokens, '/');
    assert ref[..2] == "#/";
  }

  function KeyPath(parts: seq<string>): seq<Step> {
    seq(|parts|, i requires 0 <= i < |parts| => Key(parts[i]))
  }

  /** Evaluating tokens follows their path of dictionary keys. */
  lemma {:induction false} WalkIsPath(current: Json, parts: seq<string>)
    ensures Walk(current, parts) == At(current, KeyPath(parts))
    decreases |parts|
  {
    if parts != [] {
      assert KeyPath(parts)[1..] == KeyPath(parts[1..]);
      if current.Dict? && parts[0] in current.fields {
        WalkIsPath(current.fields[parts[0]], parts[1..]);
      }
    }
  }

  /** A reference that starts with "#/" leads where the path of its other segments leads; no other
      reference is resolved. */
  lemma {:induction false} ResolveFollowsPath(spec: Json, ref: string)
    ensures Resolve(spec, ref)
            == if |ref| >= 2 && ref[0] == '#' && ref[1] == '/' then At(spec, KeyPath(Split(ref, '/')[1..])) else None
  {
    WalkIsPath(spec, Split(ref, '/')[1..]);
  }

  // ---------- references inside a document ----------

  /** Only what Python can hash goes into a set: adding a list or a dictionary raises. */
  predicate Hashable(j: Json) {
    !j.List? && !j.Dict?
  }

  /** Every "$ref" in `j` can be added to a set. */
  ghost predicate HashableRefs(j: Json) {
    match j
    case List(items) => forall i | 0 <= i < |items| :: HashableRefs(items[i])
    case Dict(fields) => ("$ref" in fields ==> Hashable(fields["$ref"])) && forall k | k in fields :: HashableRefs(fields[k])
    case _ => true
  }

  function OwnRef(fields: map<string, Json>): set<Json> {
    if "$ref" in fields && Hashable(fields["$ref"]) then {fields["$ref"]} else {}
  }

  /** The references in a document, strings or not. */
  ghost function Refs(j: Json): set<Json> {
    match j
    case List(items) => set i, r | 0 <= i < |items| && r in Refs(items[i]) :: r
    case Dict(fields) => OwnRef(fields) + set k, r | k in fields && r in Refs(fields[k]) :: r
    case _ => {}
  }

  /** The path leads to a dictionary with a "$ref". */
  ghost predicate HasRefAt(j: Json, path: seq<Step>) {
    At(j, path).Some? && At(j, path).value.Dict? && "$ref" in At(j, path).value.fields
  }

  ghost predicate RefAt(j: Json, path: seq<Step>, r: Json) {
    HasRefAt(j, path) && At(j, path).value.fields["$ref"] == r && !r.List? && !r.Dict?
  }

  lemma {:induction false} RefBelow(j: Json, step: Step, child: Json, path: seq<Step>)
    requires At(j, [step]) == Some(child)
    ensures At(j, [step] + path) == At(child, path)
  {
    assert ([step] + path)[1..] == path && [step][1..] == [];
  }

  /** The references of a document are exactly what its dictionaries hold under "$ref", at any depth,
      but for lists and dictionaries. */
  lemma {:induction false} RefsAtPaths(j: Json, r: Json)
    ensures r in Refs(j) <==> exists path :: RefAt(j, path, r)
  {
    if r in Refs(j) {
      RefHasPath(j, r);
    }
    if path :| RefAt(j, path, r) {
      PathHasRef(j, path, r);
    }
  }

  lemma {:induction false} RefHasPath(j: Json, r: Json)
    requires r in Refs(j)
    ensures exists path :: RefAt(j, path, r)
  {
    match j
    case Dict(fields) =>
      if r in OwnRef(fields) {
        assert RefAt(j, [], r);
      } else {
        var k :| k in fields && r in Refs(fields[k]);
        RefHasPath(fields[k], r);
        var path :| RefAt(fields[k], path, r);
        RefBelow(j, Key(k), fields[k], path);
        assert RefAt(j, [Key(k)] + path, r);
      }
    case List(items) =>
      var i :| 0 <= i < |items| && r in Refs(items[i]);
      RefHasPath(items[i], r);
      var path :| RefAt(items[i], path, r);
      RefBelow(j, Index(i), items[i], path);
      assert RefAt(j, [Index(i)] + path, r);
  }

  lemma {:induction false} PathHasRef(j: Json, path: seq<Step>, r: Json)
    requires RefAt(j, path, r)
    ensures r in Refs(j)
    decreases |path|
  {
    if path != [] {
      match path[0]
      case Key(k) =>
        assert RefAt(j.fields[k], path[1..], r);
        PathHasRef(j.fields[k], path[1..], r);
      case Index(i) =>
        assert RefAt(j.items[i], path[1..], r);
        PathHasRef(j.items[i], path[1..], r);
    }
  }

  /** Extraction raises exactly where some dictionary, at any depth, has a list or a dictionary for its
      "$ref". */
  lemma {:induction false} HashableAtPaths(j: Json)
    ensures !HashableRefs(j) <==>
            exists path | HasRefAt(j, path) :: At(j, path).value.fields["$ref"].List? || At(j, path).value.fields["$ref"].Dict?
  {
    if !HashableRefs(j) {
      BadRefHasPath(j);
    }
    if path :| HasRefAt(j, path) && !Hashable(At(j, path).value.fields["$ref"]) {
      PathHasBadRef(j, path);
    }
  }

  lemma {:induction false} BadRefHasPath(j: Json)
    requires !HashableRefs(j)
    ensures exists path | HasRefAt(j, path) :: !Hashable(At(j, path).value.fields["$ref"])
  {
    match j
    case Dict(fields) =>
      if "$ref" in fields && !Hashable(fields["$ref"]) {
        assert HasRefAt(j, []);
      } else {
        var k :| k in fields && !HashableRefs(fields[k]);
        BadRefHasPath(fields[k]);
        var path :| HasRefAt(fields[k], path) && !Hashable(At(fields[k], path).value.fields["$ref"]);
        RefBelow(j, Key(k), fields[k], path);
        assert HasRefAt(j, [Key(k)] + path);
      }
    case List(items) =>
      var i :| 0 <= i < |items| && !HashableRefs(items[i]);
      BadRefHasPath(items[i]);
      var path :| HasRefAt(items[i], path) && !Hashable(At(items[i], path).value.fields["$ref"]);
      RefBelow(j, Index(i), items[i], path);
      assert HasRefAt(j, [Index(i)] + path);
  }

  lemma {:induction false} PathHasBadRef(j: Json, path: seq<Step>)
    requires HasRefAt(j, path) && !Hashable(At(j, path).value.fields["$ref"])
    ensures !HashableRefs(j)
    decreases |path|
  {
    if path != [] {
      match path[0]
      case Key(k) => PathHasBadRef(j.fields[k], path[1..]);
      case Index(i) => PathHasBadRef(j.items[i], path[1..]);
    }
  }

  ghost function MemberRefs(fields: map<string, Json>, keys: set<string>): set<Json> {
    set k, r | k in keys && k in fields && r in Refs(fields[k]) :: r
  }

  ghost function ItemRefs(items: seq<Json>, n: nat): set<Json>
    requires n <= |items|
  {
    set i, r | 0 <= i < n && r in Refs(items[i]) :: r
  }

  lemma {:induction false} MemberRefsPlusOne(fields: map<string, Json>, keys: set<string>, k: string)
    requires k in fields
    ensures MemberRefs(fields, keys + {k}) == MemberRefs(fields, keys) + Refs(fields[k])
  {
    hide Refs;
    forall r | r in Refs(fields[k])
      ensures r in MemberRefs(fields, keys + {k})
    {
      assert k in keys + {k};
    }
  }

  lemma {:induction false} ItemRefsPlusOne(items: seq<Json>, n: nat)
    requires n < |items|
    ensures ItemRefs(items, n + 1) == ItemRefs(items, n) + Refs(items[n])
  {
    hide Refs;
    forall r | r in Refs(items[n])
      ensures r in ItemRefs(items, n + 1)
    {
      assert 0 <= n < n + 1;
    }
  }

  lemma {:induction false} RefsOfDict(fields: map<string, Json>)
    ensures Refs(Dict(fields)) == OwnRef(fields) + MemberRefs(fields, fields.Keys)
  {
  }

  lemma {:induction false} RefsOfList(items: seq<Json>)
    ensures Refs(List(items)) == ItemRefs(items, |items|)
  {
  }

  /** `extract_schema_refs`: adds every reference in `obj` to the caller's set. */
  method ExtractSchemaRefs(obj: Json, refs: MutableSet<Json>) returns (ok: bool)
    modifies refs
    ensures ok <==> HashableRefs(obj)
    ensures ok ==> refs.elems == old(refs.elems) + Refs(obj)
    decreases obj
  {
    hide Refs;
    ghost var before := refs.elems;
    if obj.Dict? {
      var fields := obj.fields;
      if "$ref" in fields {
        if !Hashable(fields["$ref"]) {
          return false;
        }
        refs.elems := refs.elems + {fields["$ref"]};
      }
      RefsOfDict(fields);
      var todo := fields.Keys;
      ghost var done := {};
      while todo != {}
        invariant todo <= fields.Keys && done == fields.Keys - todo
        invariant refs.elems == before + OwnRef(fields) + MemberRefs(fields, done)
        invariant forall k | k in done :: HashableRefs(fields[k])
        decreases todo
      {
        var k :| k in todo;
        MemberRefsPlusOne(fields, done, k);
        ok := ExtractSchemaRefs(fields[k], refs);
        if !ok {
          return;
        }
        todo, done := todo - {k}, done + {k};
      }
      assert done == fields.Keys;
    } else if obj.List? {
      RefsOfList(obj.items);
      for i := 0 to |obj.items|
        invariant refs.elems == before + ItemRefs(obj.items, i)
        invariant forall k | 0 <= k < i :: HashableRefs(obj.items[k])
      {
        ItemRefsPlusOne(obj.items, i);
        ok := ExtractSchemaRefs(obj.items[i], refs);
        if !ok {
          return;
        }
      }
    } else {
      assert Refs(obj) == {} by {
        NoRefs(obj);
      }
    }
    ok := true;
  }

  lemma {:induction false} NoRefs(obj: Json)
    requires !obj.Dict? && !obj.List?
    ensures Refs(obj) == {}
  {
  }

  // ---------- the closure ----------

  predicate IsSchemaRef(ref: string) {
    SCHEMA_PREFIX <= ref
  }

  /** `ref.split("/")[-1]` */
  function SchemaName(ref: string): string {
    Split(ref, '/')[|Split(ref, '/')| - 1]
  }

  /** The references that a component schema reference leads to; other references lead nowhere. */
  ghost function Leads(spec: Json, ref: Json): set<Json> {
    if ref.Text? && IsSchemaRef(ref.s) && Resolve(spec, ref.s).Some? then Refs(Resolve(spec, ref.s).value) else {}
  }

  ghost function RefEdges(spec: Json): Json -> set<Json> {
    (ref: Json) => Leads(spec, ref)
  }

  /** `ref` is reached from the initial references. */
  ghost predicate Found(spec: Json, initial: set<Json>, ref: Json) {
    Reaches(initial, RefEdges(spec), {}, ref)
  }

  /** `ref` is a component schema reference reached from the initial ones. */
  ghost predicate Referenced(spec: Json, initial: set<Json>, ref: string) {
    IsSchemaRef(ref) && Found(spec, initial, Text(ref))
  }

  /** The reference resolves, to a schema whose own references can be added to a set. */
  ghost predicate Resolves(spec: Json, ref: string) {
    Resolve(spec, ref).Some? && HashableRefs(Resolve(spec, ref).value)
  }

  /** Processing `ref` does not raise: it is a string and, if it names a component schema, resolves. */
  ghost predicate Usable(spec: Json, ref: Json) {
    ref.Text? && (IsSchemaRef(ref.s) ==> Resolves(spec, ref.s))
  }

  /** The references of a resolved part are references of the whole document. */
  lemma {:induction false} WalkedRefs(current: Json, parts: seq<string>)
    requires Walk(current, parts).Some?
    ensures Refs(Walk(current, parts).value) <= Refs(current)
    decreases |parts|
  {
    if parts != [] {
      var child := current.fields[parts[0]];
      WalkedRefs(child, parts[1..]);
      assert Refs(child) <= Refs(current) by {
        hide Walk;
        forall r | r in Refs(child)
          ensures r in Refs(current)
        {
          assert parts[0] in current.fields;
        }
      }
    }
  }

  lemma {:induction false} LeadsInside(spec: Json, ref: Json)
    ensures Leads(spec, ref) <= Refs(spec)
  {
    if ref.Text? && IsSchemaRef(ref.s) && Resolve(spec, ref.s).Some? {
      WalkedRefs(spec, Split(ref.s, '/')[1..]);
    }
  }

  /** `ref` names a component schema that has the reference `r` somewhere. */
  ghost predicate RefersTo(spec: Json, ref: string, r: Json) {
    && "#/components/schemas/" <= ref
    && var schema := At(spec, KeyPath(Split(ref, '/')[1..]));
       schema.Some? && exists path :: RefAt(schema.value, path, r)
  }

  lemma {:induction false} LeadsWhereItRefers(spec: Json, ref: Json, r: Json)
    ensures r in Leads(spec, ref) <==> ref.Text? && RefersTo(spec, ref.s, r)
  {
    if ref.Text? && IsSchemaRef(ref.s) {
      assert IsLocal(ref.s) by {
        assert SCHEMA_PREFIX[..2] == ref.s[..2];
      }
      WalkIsPath(spec, Split(ref.s, '/')[1..]);
      if Resolve(spec, ref.s).Some? {
        RefsAtPaths(Resolve(spec, ref.s).value, r);
      }
    }
  }

  /** The found references are the initial ones and those that the schemas they name refer to. */
  lemma {:induction false} FoundThroughSchemas(spec: Json, initial: set<Json>, r: Json)
    ensures Found(spec, initial, r) <==>
            r in initial || exists ref :: Found(spec, initial, Text(ref)) && RefersTo(spec, ref, r)
  {
    hide Leads, RefersTo;
    if Found(spec, initial, r) && r !in initial {
      var p :| IsPath(initial, RefEdges(spec), {}, p) && p[|p| - 1] == r;
      var ref, q := p[|p| - 2], p[..|p| - 1];
      assert IsPath(initial, RefEdges(spec), {}, q) && q[|q| - 1] == ref;
      assert Found(spec, initial, ref);
      LeadsWhereItRefers(spec, ref, r);
    }
    if r in initial {
      RootReached(initial, RefEdges(spec), {}, r);
    }
    if ref :| Found(spec, initial, Text(ref)) && RefersTo(spec, ref, r) {
      LeadsWhereItRefers(spec, Text(ref), r);
      StepReached(initial, RefEdges(spec), {}, Text(ref), r);
    }
  }

  /** `schemas` holds, under the last path segment, exactly the schemas of `refs`. */
  ghost predicate HoldsExactly(schemas: map<string, Json>, spec: Json, refs: set<Json>) {
    && (forall ref | Text(ref) in refs && IsSchemaRef(ref) :: SchemaName(ref) in schemas)
    && (forall name | name in schemas :: exists ref | Text(ref) in refs && IsSchemaRef(ref) ::
          SchemaName(ref) == name && Resolve(spec, ref) == Some(schemas[name]))
  }

  lemma {:induction false} EmptyHolds(spec: Json)
    ensures HoldsExactly(map[], spec, {})
  {
  }

  lemma {:induction false} HoldsOneMore(schemas: map<string, Json>, spec: Json, refs: set<Json>, ref: string)
    requires HoldsExactly(schemas, spec, refs)
    requires IsSchemaRef(ref) ==> Resolve(spec, ref).Some?
    ensures var schemas' := if IsSchemaRef(ref) then schemas[SchemaName(ref) := Resolve(spec, ref).value] else schemas;
            HoldsExactly(schemas', spec, refs + {Text(ref)})
  {
    hide SchemaName, Resolve, IsSchemaRef;
    var schemas' := if IsSchemaRef(ref) then schemas[SchemaName(ref) := Resolve(spec, ref).value] else schemas;
    forall name | name in schemas'
      ensures exists r | Text(r) in refs + {Text(ref)} && IsSchemaRef(r) ::
                SchemaName(r) == name && Resolve(spec, r) == Some(schemas'[name])
    {
      if IsSchemaRef(ref) && name == SchemaName(ref) {
        assert Text(ref) in refs + {Text(ref)};
      } else {
        var r :| Text(r) in refs && IsSchemaRef(r) && SchemaName(r) == name && Resolve(spec, r) == Some(schemas[name]);
        assert Text(r) in refs + {Text(ref)};
      }
    }
  }

  /** What the worklist has found so far: reached references, closed under the processed ones. */
  ghost predicate Explored(spec: Json, initial: set<Json>, todo: set<Json>, processed: set<Json>) {
    && todo !! processed
    && initial <= todo + processed
    && todo + processed <= initial + Refs(spec)
    && (forall ref | ref in todo + processed :: Found(spec, initial, ref))
    && (forall ref | ref in processed :: Leads(spec, ref) <= todo + processed)
    && (forall ref | ref in processed :: Usable(spec, ref))
  }

  lemma {:induction false} StartExplored(spec: Json, initial: set<Json>)
    ensures Explored(spec, initial, initial, {})
  {
    forall ref | ref in initial
      ensures Found(spec, initial, ref)
    {
      RootReached(initial, RefEdges(spec), {}, ref);
    }
  }

  lemma {:induction false} ExploredOneMore(
      spec: Json, initial: set<Json>, todo: set<Json>, processed: set<Json>, ref: Json)
    requires Explored(spec, initial, todo, processed) && ref in todo && Usable(spec, ref)
    ensures Explored(spec, initial, (todo - {ref}) + (Leads(spec, ref) - (processed + {ref})), processed + {ref})
  {
    hide Leads, Usable, Refs, Reaches;
    LeadsInside(spec, ref);
    forall r | r in Leads(spec, ref)
      ensures Found(spec, initial, r)
    {
      assert Found(spec, initial, ref);
      StepReached(initial, RefEdges(spec), {}, ref, r);
    }
    hide RefEdges, Found;
    Enqueue(todo, processed, ref, Leads(spec, ref));
  }

  lemma {:induction false} Enqueue(todo: set<Json>, processed: set<Json>, ref: Json, found: set<Json>)
    requires todo !! processed && ref in todo
    ensures var todo' := (todo - {ref}) + (found - (processed + {ref}));
            todo' !! (processed + {ref}) && todo' + (processed + {ref}) == todo + processed + found
  {
  }

  lemma {:induction false} ExploredMember(
      spec: Json, initial: set<Json>, todo: set<Json>, processed: set<Json>, ref: Json)
    requires Explored(spec, initial, todo, processed) && ref in todo
    ensures ref !in processed && ref in initial + Refs(spec)
    ensures Found(spec, initial, ref)
  {
    hide Leads, Usable, Refs, Found;
  }

  /** When nothing is left to do, the processed references are exactly the reached ones. */
  lemma {:induction false} ExploredAll(spec: Json, initial: set<Json>, processed: set<Json>, ref: Json)
    requires Explored(spec, initial, {}, processed)
    ensures Found(spec, initial, ref) <==> ref in processed
    ensures Found(spec, initial, ref) ==> Usable(spec, ref)
  {
    hide Leads, Usable, Refs;
    if Found(spec, initial, ref) {
      ClosedHoldsReached(initial, RefEdges(spec), {}, processed, ref);
    }
  }

  datatype RefError = BadReference(ref: Json)

  /** `get_all_referenced_schemas`. Whatever order the references are popped in, the call raises if
      and only if some reached reference is unusable, and otherwise returns under the last path
      segment exactly the referenced schemas. */
  method GetAllReferencedSchemas(spec: Json, initial: set<Json>) returns (r: Result<map<string, Json>, RefError>)
    ensures r.Err? ==> Found(spec, initial, r.error.ref) && !Usable(spec, r.error.ref)
    ensures r.Ok? ==> forall ref | Found(spec, initial, ref) :: Usable(spec, ref)
    ensures r.Ok? ==> forall ref | Referenced(spec, initial, ref) :: SchemaName(ref) in r.value
    ensures r.Ok? ==> forall name | name in r.value ::
              exists ref :: Referenced(spec, initial, ref) && SchemaName(ref) == name && Resolve(spec, ref) == Some(r.value[name])
  {
    hide Leads, Usable, IsSchemaRef, Refs, SchemaName, Resolve, Explored, Found, HoldsExactly;
    var schemas: map<string, Json> := map[];
    var todo, processed := initial, {};
    StartExplored(spec, initial);
    EmptyHolds(spec);
    while todo != {}
      invariant Explored(spec, initial, todo, processed)
      invariant HoldsExactly(schemas, spec, processed)
      decreases initial + Refs(spec) - processed
    {
      var ref :| ref in todo;
      ExploredMember(spec, initial, todo, processed, ref);
      // a reference to process was never processed before: the `continue` is never taken
      assert ref !in processed;
      ghost var todo0, processed0, schemas0 := todo, processed, schemas;
      todo := todo - {ref};
      processed := processed + {ref};
      UsableIf(spec, ref);
      LeadsTo(spec, ref);
      if !ref.Text? {
        return Err(BadReference(ref));
      }
      if IsSchemaRef(ref.s) {
        var found := ResolveRef(spec, ref.s);
        if found.None? {
          return Err(BadReference(ref));
        }
        schemas := schemas[SchemaName(ref.s) := found.value];
        var nested := new MutableSet<Json>();
        var ok := ExtractSchemaRefs(found.value, nested);
        if !ok {
          return Err(BadReference(ref));
        }
        todo := todo + (nested.elems - processed);
      }
      ExploredOneMore(spec, initial, todo0, processed0, ref);
      HoldsOneMore(schemas0, spec, processed0, ref.s);
      assert todo == (todo0 - {ref}) + (Leads(spec, ref) - (processed0 + {ref}));
    }
    ResultIsExact(spec, initial, processed, schemas);
    r := Ok(schemas);
  }

  lemma {:induction false} ResultIsExact(
      spec: Json, initial: set<Json>, processed: set<Json>, schemas: map<string, Json>)
    requires Explored(spec, initial, {}, processed) && HoldsExactly(schemas, spec, processed)
    ensures forall ref | Found(spec, initial, ref) :: Usable(spec, ref)
    ensures forall ref | Referenced(spec, initial, ref) :: SchemaName(ref) in schemas
    ensures forall name | name in schemas ::
              exists ref :: Referenced(spec, initial, ref) && SchemaName(ref) == name && Resolve(spec, ref) == Some(schemas[name])
  {
    hide Leads, Usable, IsSchemaRef, Refs, SchemaName, Resolve, Explored, Found;
    forall ref {
      ExploredAll(spec, initial, processed, ref);
    }
  }

  lemma {:induction false} UsableIf(spec: Json, ref: Json)
    ensures ref.Text? && !IsSchemaRef(ref.s) ==> Usable(spec, ref)
    ensures ref.Text? && IsSchemaRef(ref.s) ==> (Usable(spec, ref) <==> Resolves(spec, ref.s))
    ensures Usable(spec, ref) ==> ref.Text?
  {
  }

  lemma {:induction false} LeadsTo(spec: Json, ref: Json)
    ensures !ref.Text? || !IsSchemaRef(ref.s) ==> Leads(spec, ref) == {}
    ensures ref.Text? && IsSchemaRef(ref.s) && Resolve(spec, ref.s).Some? ==> Leads(spec, ref) == Refs(Resolve(spec, ref.s).value)
  {
  }

  /** With distinct names, the result does not depend on the order of the pops at all. */
  lemma {:induction false} ResultIsUnique(spec: Json, initial: set<Json>, a: map<string, Json>, b: map<string, Json>)
    requires forall r, r' | Referenced(spec, initial, r) && Referenced(spec, initial, r') && SchemaName(r) == SchemaName(r') :: r == r'
    requires forall ref | Referenced(spec, initial, ref) :: SchemaName(ref) in a && SchemaName(ref) in b
    requires forall name | name in a ::
               exists ref :: Referenced(spec, initial, ref) && SchemaName(ref) == name && Resolve(spec, ref) == Some(a[name])
    requires forall name | name in b ::
               exists ref :: Referenced(spec, initial, ref) && SchemaName(ref) == name && Resolve(spec, ref) == Some(b[name])
    ensures a == b
  {
    hide Referenced, SchemaName, Resolve;
    forall name | name in a
      ensures name in b && a[name] == b[name]
    {
      var ref :| Referenced(spec, initial, ref) && SchemaName(ref) == name && Resolve(spec, ref) == Some(a[name]);
      var ref' :| Referenced(spec, initial, ref') && SchemaName(ref') == name && Resolve(spec, ref') == Some(b[name]);
      assert ref == ref';
    }
    forall name | name in b
      ensures name in a
    {
      var ref :| Referenced(spec, initial, ref) && SchemaName(ref) == name && Resolve(spec, ref) == Some(b[name]);
      assert SchemaName(ref) in a;
    }
  }
}
