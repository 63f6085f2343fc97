// Redacting request parameters before they are logged (connector-proxies/async-http/main.py).
module Redaction {
  import opened Basics
  import opened Json
  import opened FieldNames

  const MARK := Text("***REDACTED***")
  const DESCRIPTORS := ["id", "name", "field", "field_name", "key"]

  /** `str(value)`: `repr` gives the text of everything but strings. */
  function Str(repr: Json -> string, v: Json): string {
    if v.Text? then v.s else repr(v)
  }

  function DescriptorText(repr: Json -> string, fields: map<string, Json>, descriptor: string): string {
    if descriptor in fields then Str(repr, fields[descriptor]) else ""
  }

  predicate IsSensitiveValueField(repr: Json -> string, key: string, fields: map<string, Json>) {
    && Normalized(key) == "value"
    && (("type" in fields && fields["type"] == Text("password"))
        || exists d | d in DESCRIPTORS :: IsSensitive(DescriptorText(repr, fields, d)))
  }

  /** The value under `key` is replaced. */
  predicate Hides(repr: Json -> string, fields: map<string, Json>, key: string) {
    IsSensitive(key) || IsSensitiveValueField(repr, key, fields)
  }

  function Redacted(repr: Json -> string, v: Json): Json {
    match v
    case Dict(fields) =>
      Dict(map key | key in fields :: if Hides(repr, fields, key) then MARK else Redacted(repr, fields[key]))
    case List(items) => List(seq(|items|, i requires 0 <= i < |items| => Redacted(repr, items[i])))
    case _ => v
  }

  /** `redacted`, filling the new dictionary key by key. */
  method Redact(repr: Json -> string, v: Json) returns (r: Json)
    ensures r == Redacted(repr, v)
    decreases v
  {
    if v.Dict? {
      var fields: map<string, Json> := map[];
      var todo := v.fields.Keys;
      while todo != {}
        invariant todo <= v.fields.Keys && fields.Keys == v.fields.Keys - todo
        invariant forall k | k in fields ::
                    fields[k] == if Hides(repr, v.fields, k) then MARK else Redacted(repr, v.fields[k])
        decreases todo
      {
        var key :| key in todo;
        if Hides(repr, v.fields, key) {
          fields := fields[key := MARK];
        } else {
          var child := Redact(repr, v.fields[key]);
          fields := fields[key := child];
        }
        todo := todo - {key};
      }
      assert fields == Redacted(repr, v).fields;
      return Dict(fields);
    }
    if v.List? {
      var items := [];
      for i := 0 to |v.items|
        invariant |items| == i
        invariant forall k | 0 <= k < i :: items[k] == Redacted(repr, v.items[k])
      {
        var item := Redact(repr, v.items[i]);
        items := items + [item];
      }
      assert items == Redacted(repr, v).items;
      return List(items);
    }
    return v;
  }

  // ---------- what is hidden and what is kept ----------

  /** One of the name's tokens is a sensitive word. */
  ghost predicate NamesSecret(name: string) {
    exists t | t in NameTokens(name) :: t in SENSITIVE_TOKENS
  }

  ghost predicate DescribesSecret(repr: Json -> string, fields: map<string, Json>, descriptor: string) {
    descriptor in fields && NamesSecret(if fields[descriptor].Text? then fields[descriptor].s else repr(fields[descriptor]))
  }

  /** The value under a key is replaced exactly when the key names a secret, or the key is the single
      token "value" and the dictionary says that it holds a password or names a secret. */
  lemma {:induction false} HidesExactly(repr: Json -> string, fields: map<string, Json>, key: string)
    ensures Hides(repr, fields, key) <==>
            || NamesSecret(key)
            || (&& NameTokens(key) == ["value"]
                && (|| ("type" in fields && fields["type"] == Text("password"))
                    || DescribesSecret(repr, fields, "id") || DescribesSecret(repr, fields, "name")
                    || DescribesSecret(repr, fields, "field") || DescribesSecret(repr, fields, "field_name")
                    || DescribesSecret(repr, fields, "key")))
  {
    SensitiveIffToken(key);
    ValueIsOneToken(key);
    SensitiveIffToken("");
    EmptyNameHasNoTokens();
    forall d | d in DESCRIPTORS
      ensures IsSensitive(DescriptorText(repr, fields, d)) <==> DescribesSecret(repr, fields, d)
    {
      SensitiveIffToken(DescriptorText(repr, fields, d));
    }
    hide IsSensitive, DescribesSecret, NamesSecret, DescriptorText;
    assert forall d :: d in DESCRIPTORS <==> d == "id" || d == "name" || d == "field" || d == "field_name" || d == "key";
  }

  lemma {:induction false} ValueIsOneToken(key: string)
    ensures Normalized(key) == "value" <==> NameTokens(key) == ["value"]
  {
    hide NameTokens, Normalized;
    NormalizedJoinsTokens(key);
    ValueToken();
    assert Joined(["value"]) == "value";
  }

  lemma {:induction false} ValueToken()
    ensures NameTokens("value") == ["value"]
  {
    hide NameTokens;
    NotSplitElsewhere("value");
    assert Lower("value") == "value";
  }

  /** Some step of `path` in `v` goes to a value that is replaced. */
  ghost predicate PassesHidden(repr: Json -> string, v: Json, path: seq<Step>)
    decreases |path|
  {
    && path != []
    && match path[0]
       case Key(key) =>
         v.Dict? && key in v.fields && (Hides(repr, v.fields, key) || PassesHidden(repr, v.fields[key], path[1..]))
       case Index(i) => v.List? && i < |v.items| && PassesHidden(repr, v.items[i], path[1..])
  }

  /** The same scalar, a dictionary with the same keys or a list of the same length. */
  ghost predicate SameOutside(a: Json, b: Json) {
    match a
    case Dict(fields) => b.Dict? && b.fields.Keys == fields.Keys
    case List(items) => b.List? && |b.items| == |items|
    case _ => b == a
  }

  /** Along a path that no replacement touches, the redacted document has the shape and the scalars of
      the original, and no path that the original lacks. */
  lemma {:induction false} KeepsTheRest(repr: Json -> string, v: Json, path: seq<Step>)
    requires !PassesHidden(repr, v, path)
    ensures At(Redacted(repr, v), path).Some? <==> At(v, path).Some?
    ensures At(v, path).Some? ==> SameOutside(At(v, path).value, At(Redacted(repr, v), path).value)
    decreases |path|
  {
    hide Hides;
    if path != [] {
      match path[0]
      case Key(key) =>
        if v.Dict? && key in v.fields {
          KeepsTheRest(repr, v.fields[key], path[1..]);
        }
      case Index(i) =>
        if v.List? && i < |v.items| {
          KeepsTheRest(repr, v.items[i], path[1..]);
        }
    }
  }

  /** Nothing of a replaced value survives: a path that passes one ends in the mark if its last step
      is the first that is replaced, and leads nowhere otherwise. */
  lemma {:induction false} NothingHiddenSurvives(repr: Json -> string, v: Json, path: seq<Step>)
    requires PassesHidden(repr, v, path)
    ensures At(Redacted(repr, v), path)
            == if PassesHidden(repr, v, path[..|path| - 1]) then None else Some(Text("***REDACTED***"))
    decreases |path|
  {
    hide Hides;
    var init := path[..|path| - 1];
    match path[0]
    case Key(key) =>
      if Hides(repr, v.fields, key) {
        if |path| > 1 {
          assert init[0] == path[0];
        }
      } else {
        NothingHiddenSurvives(repr, v.fields[key], path[1..]);
        assert |path| > 1 && init[0] == path[0] && init[1..] == path[1..][..|path| - 2];
      }
    case Index(i) =>
      NothingHiddenSurvives(repr, v.items[i], path[1..]);
      assert |path| > 1 && init[0] == path[0] && init[1..] == path[1..][..|path| - 2];
  }

  // ---------- redacting twice ----------

  /** In every dictionary of `v`, redacting a field that names what a value is for does not make its text
      sensitive. Strings and numbers do not change; for lists and dictionaries it is a matter of `repr`. */
  ghost predicate SteadyDescriptors(repr: Json -> string, v: Json) {
    match v
    case Dict(fields) =>
      && (forall d | d in DESCRIPTORS && d in fields ::
            IsSensitive(Str(repr, Redacted(repr, fields[d]))) ==> IsSensitive(Str(repr, fields[d])))
      && forall k | k in fields :: SteadyDescriptors(repr, fields[k])
    case List(items) => forall i | 0 <= i < |items| :: SteadyDescriptors(repr, items[i])
    case _ => true
  }

  /** Fields that name what a value is for hold no lists or dictionaries, in every dictionary of `v`. */
  ghost predicate PlainDescriptors(v: Json) {
    match v
    case Dict(fields) =>
      && (forall d | d in DESCRIPTORS && d in fields :: !fields[d].Dict? && !fields[d].List?)
      && forall k | k in fields :: PlainDescriptors(fields[k])
    case List(items) => forall i | 0 <= i < |items| :: PlainDescriptors(items[i])
    case _ => true
  }

  lemma {:induction false} PlainIsSteady(repr: Json -> string, v: Json)
    requires PlainDescriptors(v)
    ensures SteadyDescriptors(repr, v)
  {
    hide IsSensitive;
    match v
    case Dict(fields) =>
      forall k | k in fields
        ensures SteadyDescriptors(repr, fields[k])
      {
        PlainIsSteady(repr, fields[k]);
      }
    case List(items) =>
      forall i | 0 <= i < |items|
        ensures SteadyDescriptors(repr, items[i])
      {
        PlainIsSteady(repr, items[i]);
      }
    case _ =>
  }

  ghost function RedactedFields(repr: Json -> string, fields: map<string, Json>): map<string, Json> {
    Redacted(repr, Dict(fields)).fields
  }

  lemma {:induction false} MarkIsHarmless()
    ensures !IsSensitive(MARK.s)
  {
    hide IsSensitive, Normalized, Tokens, CamelSpaced;
    SensitiveIffToken(MARK.s);
    OnlyCapitals(MARK.s);
    assert Lower(MARK.s) == "***" + "redacted" + "***";
    OneToken("***", "redacted", "***");
  }

  lemma {:induction false} TypeIsKept()
    ensures Normalized("type") == "type" && !IsSensitive("type")
  {
    hide IsSensitive, Normalized, Tokens, CamelSpaced, Lower;
    SensitiveIffToken("type");
    NormalizedJoinsTokens("type");
    NoCapitals("type");
    OneToken("", "type", "");
    assert "" + "type" + "" == "type";
  }

  /** After one pass, a value that was kept is not replaced by the next. */
  lemma {:induction false} KeptStaysKept(repr: Json -> string, fields: map<string, Json>, key: string)
    requires SteadyDescriptors(repr, Dict(fields)) && key in fields && !Hides(repr, fields, key)
    ensures !Hides(repr, RedactedFields(repr, fields), key)
  {
    hide IsSensitive, Normalized, NameTokens;
    var fields' := RedactedFields(repr, fields);
    if Normalized(key) == "value" {
      TypeIsKept();
      assert "type" in fields ==> fields'["type"] == Redacted(repr, fields["type"]);
      assert !("type" in fields' && fields'["type"] == Text("password"));
      forall d | d in DESCRIPTORS
        ensures !IsSensitive(DescriptorText(repr, fields', d))
      {
        MarkIsHarmless();
        assert !IsSensitive(DescriptorText(repr, fields, d));
        if d in fields {
          assert fields'[d] == if Hides(repr, fields, d) then MARK else Redacted(repr, fields[d]);
        }
      }
    }
  }

  /** Redacting is idempotent where descriptors are steady; so it is, for one, where they are plain. */
  lemma {:induction false} RedactedTwice(repr: Json -> string, v: Json)
    requires SteadyDescriptors(repr, v)
    ensures Redacted(repr, Redacted(repr, v)) == Redacted(repr, v)
  {
    match v
    case Dict(fields) =>
      var fields' := RedactedFields(repr, fields);
      forall key | key in fields
        ensures RedactedFields(repr, fields')[key] == fields'[key]
      {
        if !Hides(repr, fields, key) {
          KeptStaysKept(repr, fields, key);
          RedactedTwice(repr, fields[key]);
        }
      }
      assert RedactedFields(repr, fields') == fields';
    case List(items) =>
      forall i | 0 <= i < |items|
        ensures Redacted(repr, Redacted(repr, items[i])) == Redacted(repr, items[i])
      {
        RedactedTwice(repr, items[i]);
      }
      assert Redacted(repr, Redacted(repr, v)).items == Redacted(repr, v).items;
    case _ =>
  }
}
