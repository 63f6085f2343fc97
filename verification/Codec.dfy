// The tagged JSON codec for workflow state (SpiffJsonEncoder and spiff_json_object_hook, runner.py).
module Codec {
  import opened Basics
  import J = Json

  const MAX_DELTA_DAYS := 999_999_999

  /** The Python values a workflow state is built from. A datetime is a day and a time of day in
      microseconds; a timedelta is normalised, as Python normalises it. */
  datatype Value =
    | Null
    | Bool(b: bool)
    | Int(n: int)
    | Text(s: string)
    | List(items: seq<Value>)
    | Dict(fields: map<string, Value>)
    | Uuid(id: nat)
    | DateTime(day: int, micros: int)
    | Date(date: int)
    | Delta(days: int, seconds: int, fraction: int)

  /** The text forms of UUIDs and dates. Parsing a bare date gives its midnight. */
  datatype TextForms = TextForms(
    uuidText: nat -> string,
    parseUuid: string -> Option<nat>,
    dateTimeText: (int, int) -> string,
    dateText: int -> string,
    parseDateTime: string -> Option<(int, int)>)
  {
    ghost predicate Lawful() {
      && (forall id: nat :: parseUuid(uuidText(id)) == Some(id))
      && (forall day, micros :: parseDateTime(dateTimeText(day, micros)) == Some((day, micros)))
      && (forall day :: parseDateTime(dateText(day)) == Some((day, 0)))
    }
  }

  // ---------- encoding ----------

  function Tagged(typename: string, text: string): map<string, J.Json> {
    map["typename" := J.Text(typename), "value" := J.Text(text)]
  }

  function Encode(t: TextForms, v: Value): J.Json {
    match v
    case Null => J.Null
    case Bool(b) => J.Bool(b)
    case Int(n) => J.Int(n)
    case Text(s) => J.Text(s)
    case List(items) => J.List(seq(|items|, i requires 0 <= i < |items| => Encode(t, items[i])))
    case Dict(fields) => J.Dict(map k | k in fields :: Encode(t, fields[k]))
    case Uuid(id) => J.Dict(Tagged("UUID", t.uuidText(id)))
    case DateTime(day, micros) => J.Dict(Tagged("datetime", t.dateTimeText(day, micros)))
    case Date(date) => J.Dict(Tagged("datetime", t.dateText(date)))
    case Delta(days, seconds, _) =>
      J.Dict(map["typename" := J.Text("timedelta"), "days" := J.Int(days), "seconds" := J.Int(seconds)])
  }

  // ---------- decoding ----------

  function AsInt(fields: map<string, Value>, key: string): Option<int> {
    if key !in fields then None
    else
      match fields[key]
      case Int(n) => Some(n)
      case Bool(b) => Some(if b then 1 else 0)
      case _ => None
  }

  function AsText(fields: map<string, Value>, key: string): Option<string> {
    if key in fields && fields[key].Text? then Some(fields[key].s) else None
  }

  /** A timedelta of whole days and seconds; too many days overflow. */
  function MakeDelta(days: int, seconds: int): Option<Value> {
    var d := days + seconds / 86400;
    if -MAX_DELTA_DAYS <= d <= MAX_DELTA_DAYS then Some(Delta(d, seconds % 86400, 0)) else None
  }

  /** `spiff_json_object_hook`; None where it raises. */
  function Hook(t: TextForms, fields: map<string, Value>): Option<Value> {
    var typename := AsText(fields, "typename");
    if typename == Some("UUID") then
      var text := AsText(fields, "value");
      if text.None? then None
      else
        var id := t.parseUuid(text.value);
        if id.None? then None else Some(Uuid(id.value))
    else if typename == Some("datetime") then
      var text := AsText(fields, "value");
      if text.None? then None
      else
        var at := t.parseDateTime(text.value);
        if at.None? then None else Some(DateTime(at.value.0, at.value.1))
    else if typename == Some("timedelta") then
      var days, seconds := AsInt(fields, "days"), AsInt(fields, "seconds");
      if days.None? || seconds.None? then None else MakeDelta(days.value, seconds.value)
    else Some(Dict(fields))
  }

  /** `json.loads` with the hook, which sees every dictionary after its members. */
  function Decode(t: TextForms, j: J.Json): Option<Value>
    decreases j, 1
  {
    match j
    case Null => Some(Null)
    case Bool(b) => Some(Bool(b))
    case Int(n) => Some(Int(n))
    case Text(s) => Some(Text(s))
    case List(items) =>
      if forall i | 0 <= i < |items| :: Decode(t, items[i]).Some?
      then Some(List(seq(|items|, i requires 0 <= i < |items| => Decode(t, items[i]).value)))
      else None
    case Dict(_) =>
      var members := DecodeMembers(t, j);
      if AllPresent(members) then Hook(t, Present(members)) else None
  }

  function DecodeMembers(t: TextForms, j: J.Json): map<string, Option<Value>>
    requires j.Dict?
    decreases j, 0
  {
    map k | k in j.fields :: Decode(t, j.fields[k])
  }

  predicate AllPresent(members: map<string, Option<Value>>) {
    forall k | k in members :: members[k].Some?
  }

  function Present(members: map<string, Option<Value>>): map<string, Value>
    requires AllPresent(members)
  {
    map k | k in members :: members[k].value
  }

  // ---------- what a round trip does ----------

  const TYPENAMES := {"UUID", "datetime", "timedelta"}

  /** No dictionary in `v` carries a typename that the hook reserves. */
  ghost predicate Unreserved(v: Value) {
    match v
    case List(items) => forall i | 0 <= i < |items| :: Unreserved(items[i])
    case Dict(fields) =>
      && (AsText(fields, "typename").Some? ==> AsText(fields, "typename").value !in TYPENAMES)
      && forall k | k in fields :: Unreserved(fields[k])
    case _ => true
  }

  /** No bare date and no timedelta with a fraction of a second anywhere in `v`. */
  ghost predicate Exact(v: Value) {
    match v
    case List(items) => forall i | 0 <= i < |items| :: Exact(items[i])
    case Dict(fields) => forall k | k in fields :: Exact(fields[k])
    case Date(_) => false
    case Delta(_, _, fraction) => fraction == 0
    case _ => true
  }

  /** Python's own normal form: what `timedelta` objects always satisfy. */
  ghost predicate Normal(v: Value) {
    match v
    case List(items) => forall i | 0 <= i < |items| :: Normal(items[i])
    case Dict(fields) => forall k | k in fields :: Normal(fields[k])
    case Delta(days, seconds, fraction) =>
      -999_999_999 <= days <= 999_999_999 && 0 <= seconds < 86400 && 0 <= fraction < 1_000_000
    case _ => true
  }

  /** Dates become midnights and timedeltas lose their fraction; everything else stays. */
  ghost function Rounded(v: Value): Value {
    match v
    case List(items) => List(seq(|items|, i requires 0 <= i < |items| => Rounded(items[i])))
    case Dict(fields) => Dict(map k | k in fields :: Rounded(fields[k]))
    case Date(date) => DateTime(date, 0)
    case Delta(days, seconds, _) => Delta(days, seconds, 0)
    case _ => v
  }

  function RoundTrip(t: TextForms, v: Value): Option<Value> {
    Decode(t, Encode(t, v))
  }

  ghost function RoundedFields(fields: map<string, Value>): map<string, Value> {
    map k | k in fields :: Rounded(fields[k])
  }

  lemma {:induction false} RoundedIsUnreserved(t: TextForms, fields: map<string, Value>)
    requires Unreserved(Dict(fields))
    ensures Hook(t, RoundedFields(fields)) == Some(Dict(RoundedFields(fields)))
  {
    if "typename" in fields {
      assert Rounded(fields["typename"]).Text? <==> fields["typename"].Text?;
    }
  }

  /** Decoding a dictionary: its members first, then the hook. */
  lemma {:induction false} DecodeDict(t: TextForms, fields: map<string, J.Json>, decoded: map<string, Value>)
    requires decoded.Keys == fields.Keys
    requires forall k | k in fields :: Decode(t, fields[k]) == Some(decoded[k])
    ensures Decode(t, J.Dict(fields)) == Hook(t, decoded)
  {
    hide Hook;
    assert Present(DecodeMembers(t, J.Dict(fields))) == decoded;
  }

  lemma {:induction false} DecodeList(t: TextForms, items: seq<J.Json>, decoded: seq<Value>)
    requires |decoded| == |items|
    requires forall i | 0 <= i < |items| :: Decode(t, items[i]) == Some(decoded[i])
    ensures Decode(t, J.List(items)) == Some(List(decoded))
  {
    assert Decode(t, J.List(items)).value.items == decoded;
  }

  /** A value without reserved dictionaries comes back with its dates and timedeltas rounded. */
  lemma {:induction false} RoundTripRounds(t: TextForms, v: Value)
    requires t.Lawful() && Normal(v) && Unreserved(v)
    ensures RoundTrip(t, v) == Some(Rounded(v))
  {
    match v
    case List(items) =>
      forall i | 0 <= i < |items|
        ensures RoundTrip(t, items[i]) == Some(Rounded(items[i]))
      {
        RoundTripRounds(t, items[i]);
      }
      DecodeList(t, Encode(t, v).items, Rounded(v).items);
    case Dict(fields) =>
      forall k | k in fields
        ensures RoundTrip(t, fields[k]) == Some(Rounded(fields[k]))
      {
        RoundTripRounds(t, fields[k]);
      }
      hide Hook;
      DecodeDict(t, Encode(t, v).fields, RoundedFields(fields));
      RoundedIsUnreserved(t, fields);
    case _ =>
      hide *;
      TaggedRoundTrip(t, v);
  }

  lemma {:induction false} DecodeTagged(t: TextForms, typename: string, text: string)
    ensures Decode(t, J.Dict(Tagged(typename, text)))
            == Hook(t, map["typename" := Text(typename), "value" := Text(text)])
  {
    DecodeDict(t, Tagged(typename, text), map["typename" := Text(typename), "value" := Text(text)]);
  }

  lemma {:induction false} DecodeDelta(t: TextForms, days: int, seconds: int)
    requires -MAX_DELTA_DAYS <= days <= MAX_DELTA_DAYS && 0 <= seconds < 86400
    ensures Decode(t, J.Dict(map["typename" := J.Text("timedelta"), "days" := J.Int(days), "seconds" := J.Int(seconds)]))
            == Some(Delta(days, seconds, 0))
  {
    var fields := map["typename" := Text("timedelta"), "days" := Int(days), "seconds" := Int(seconds)];
    DecodeDict(t, map["typename" := J.Text("timedelta"), "days" := J.Int(days), "seconds" := J.Int(seconds)], fields);
    assert Hook(t, fields) == MakeDelta(days, seconds);
    assert seconds / 86400 == 0 && seconds % 86400 == seconds;
  }

  lemma {:induction false} TaggedRoundTrip(t: TextForms, v: Value)
    requires t.Lawful() && Normal(v) && !v.List? && !v.Dict?
    ensures RoundTrip(t, v) == Some(Rounded(v))
  {
    match v
    case Uuid(id) => DecodeTagged(t, "UUID", t.uuidText(id));
    case DateTime(day, micros) => DecodeTagged(t, "datetime", t.dateTimeText(day, micros));
    case Date(date) => DecodeTagged(t, "datetime", t.dateText(date));
    case Delta(days, seconds, _) => DecodeDelta(t, days, seconds);
    case _ =>
  }

  /** The numbers that Python takes for days and seconds. */
  ghost function Number(j: J.Json): Option<int> {
    match j
    case Int(n) => Some(n)
    case Bool(b) => Some(if b then 1 else 0)
    case _ => None
  }

  /** A tagged timedelta with any days and seconds is read as their sum, in whole days and the seconds
      that remain; it raises where one of them is no number and where the days do not fit. */
  lemma {:induction false} TimedeltaIsSum(t: TextForms, days: J.Json, seconds: J.Json)
    ensures var read := Decode(t, J.Dict(map["typename" := J.Text("timedelta"), "days" := days, "seconds" := seconds]));
            if Number(days).None? || Number(seconds).None? then read == None
            else
              var total := 86400 * Number(days).value + Number(seconds).value;
              read == if -999_999_999 <= total / 86400 <= 999_999_999 then Some(Delta(total / 86400, total % 86400, 0)) else None
  {
    var fields := map["typename" := J.Text("timedelta"), "days" := days, "seconds" := seconds];
    var d, s := Decode(t, days), Decode(t, seconds);
    NumberIsRead(t, days);
    NumberIsRead(t, seconds);
    if d.None? || s.None? {
      assert DecodeMembers(t, J.Dict(fields))["days"] == d && DecodeMembers(t, J.Dict(fields))["seconds"] == s;
    } else {
      hide Decode, Hook, AsInt, Number;
      var decoded := map["typename" := Text("timedelta"), "days" := d.value, "seconds" := s.value];
      DecodeDict(t, fields, decoded);
      HookedDelta(t, d.value, s.value);
      WholeDays(AsInt(map["n" := d.value], "n").GetOr(0), AsInt(map["n" := s.value], "n").GetOr(0));
    }
  }

  lemma {:induction false} HookedDelta(t: TextForms, days: Value, seconds: Value)
    ensures var d, s := AsInt(map["n" := days], "n"), AsInt(map["n" := seconds], "n");
            Hook(t, map["typename" := Text("timedelta"), "days" := days, "seconds" := seconds])
            == if d.None? || s.None? then None else MakeDelta(d.value, s.value)
  {
  }

  lemma {:induction false} NumberIsRead(t: TextForms, j: J.Json)
    ensures Decode(t, j).Some? ==> AsInt(map["n" := Decode(t, j).value], "n") == Number(j)
    ensures Number(j).Some? ==> Decode(t, j).Some?
  {
    if j.Dict? {
      var members := DecodeMembers(t, j);
      assert Decode(t, j) == if AllPresent(members) then Hook(t, Present(members)) else None;
    }
  }

  lemma {:induction false} WholeDays(days: int, seconds: int)
    ensures (86400 * days + seconds) / 86400 == days + seconds / 86400
    ensures (86400 * days + seconds) % 86400 == seconds % 86400
  {
    assert 86400 * days + seconds == 86400 * (days + seconds / 86400) + seconds % 86400;
  }

  // ---------- exactly when a round trip changes nothing ----------

  lemma {:induction false} RoundedExact(v: Value)
    requires Exact(v)
    ensures Rounded(v) == v
  {
    match v
    case List(items) =>
      forall i | 0 <= i < |items|
        ensures Rounded(items[i]) == items[i]
      {
        RoundedExact(items[i]);
      }
      assert Rounded(v).items == items;
    case Dict(fields) =>
      forall k | k in fields
        ensures Rounded(fields[k]) == fields[k]
      {
        RoundedExact(fields[k]);
      }
      assert Rounded(v).fields == fields;
    case _ =>
  }

  lemma {:induction false} UnchangedListMembers(t: TextForms, items: seq<Value>)
    requires RoundTrip(t, List(items)) == Some(List(items))
    ensures forall i | 0 <= i < |items| :: RoundTrip(t, items[i]) == Some(items[i])
  {
    var encoded := Encode(t, List(items)).items;
    forall i | 0 <= i < |items|
      ensures RoundTrip(t, items[i]) == Some(items[i])
    {
      assert encoded[i] == Encode(t, items[i]);
      assert Decode(t, J.List(encoded)).value.items[i] == Decode(t, encoded[i]).value;
    }
  }

  lemma {:induction false} UnchangedDictMembers(t: TextForms, fields: map<string, Value>)
    requires RoundTrip(t, Dict(fields)) == Some(Dict(fields))
    ensures AsText(fields, "typename").Some? ==> AsText(fields, "typename").value !in TYPENAMES
    ensures forall k | k in fields :: RoundTrip(t, fields[k]) == Some(fields[k])
  {
    var encoded := Encode(t, Dict(fields));
    var members := DecodeMembers(t, encoded);
    assert Hook(t, Present(members)) == Some(Dict(Present(members)));
    forall k | k in fields
      ensures RoundTrip(t, fields[k]) == Some(fields[k])
    {
      assert encoded.fields[k] == Encode(t, fields[k]);
      assert Present(members)[k] == members[k].value;
    }
  }

  /** A round trip is the identity on exactly the values without bare dates, sub-second timedeltas
      and reserved dictionaries. */
  lemma {:induction false} RoundTripIsIdentityIff(t: TextForms, v: Value)
    requires t.Lawful() && Normal(v)
    ensures RoundTrip(t, v) == Some(v) <==> Exact(v) && Unreserved(v)
  {
    if Exact(v) && Unreserved(v) {
      RoundTripRounds(t, v);
      RoundedExact(v);
    }
    if RoundTrip(t, v) == Some(v) {
      IdentityMeansExact(t, v);
    }
  }

  lemma {:induction false} IdentityMeansExact(t: TextForms, v: Value)
    requires t.Lawful() && Normal(v) && RoundTrip(t, v) == Some(v)
    ensures Exact(v) && Unreserved(v)
  {
    match v
    case List(items) =>
      UnchangedListMembers(t, items);
      forall i | 0 <= i < |items|
        ensures Exact(items[i]) && Unreserved(items[i])
      {
        IdentityMeansExact(t, items[i]);
      }
    case Dict(fields) =>
      UnchangedDictMembers(t, fields);
      forall k | k in fields
        ensures Exact(fields[k]) && Unreserved(fields[k])
      {
        IdentityMeansExact(t, fields[k]);
      }
    case _ => TaggedRoundTrip(t, v);
  }

  lemma {:induction false} RoundedIsStable(v: Value)
    requires Normal(v) && Unreserved(v)
    ensures Normal(Rounded(v)) && Unreserved(Rounded(v)) && Exact(Rounded(v))
  {
    match v
    case List(items) =>
      forall i | 0 <= i < |items|
        ensures Normal(Rounded(items[i])) && Unreserved(Rounded(items[i])) && Exact(Rounded(items[i]))
      {
        RoundedIsStable(items[i]);
      }
    case Dict(fields) =>
      forall k | k in fields
        ensures Normal(Rounded(fields[k])) && Unreserved(Rounded(fields[k])) && Exact(Rounded(fields[k]))
      {
        RoundedIsStable(fields[k]);
      }
      if "typename" in fields {
        assert Rounded(fields["typename"]).Text? <==> fields["typename"].Text?;
      }
    case _ =>
  }

  /** A second round trip changes nothing more. */
  lemma {:induction false} RoundTripIsIdempotent(t: TextForms, v: Value)
    requires t.Lawful() && Normal(v) && Unreserved(v)
    ensures RoundTrip(t, v).Some? && RoundTrip(t, RoundTrip(t, v).value) == RoundTrip(t, v)
  {
    RoundTripRounds(t, v);
    RoundedIsStable(v);
    RoundTripIsIdentityIff(t, Rounded(v));
  }

  // ---------- bare dates ----------

  /** No bare date anywhere in `v`. */
  ghost predicate Undated(v: Value) {
    match v
    case List(items) => forall i | 0 <= i < |items| :: Undated(items[i])
    case Dict(fields) => forall k | k in fields :: Undated(fields[k])
    case Date(_) => false
    case _ => true
  }

  /** UUIDs, datetimes and timedeltas are tagged dictionaries already. */
  ghost predicate Converted(v: Value) {
    match v
    case List(items) => forall i | 0 <= i < |items| :: Converted(items[i])
    case Dict(fields) => forall k | k in fields :: Converted(fields[k])
    case _ => !v.Uuid? && !v.DateTime? && !v.Delta?
  }

  lemma {:induction false} DecodeIsUndated(t: TextForms, j: J.Json)
    ensures Decode(t, j).Some? ==> Undated(Decode(t, j).value)
  {
    match j
    case List(items) =>
      forall i | 0 <= i < |items|
        ensures Decode(t, items[i]).Some? ==> Undated(Decode(t, items[i]).value)
      {
        DecodeIsUndated(t, items[i]);
      }
    case Dict(fields) =>
      forall k | k in fields
        ensures Decode(t, fields[k]).Some? ==> Undated(Decode(t, fields[k]).value)
      {
        DecodeIsUndated(t, fields[k]);
      }
      HookIsUndated(t, DecodeMembers(t, j));
    case _ =>
  }

  lemma {:induction false} HookIsUndated(t: TextForms, members: map<string, Option<Value>>)
    requires forall k | k in members :: members[k].Some? ==> Undated(members[k].value)
    ensures AllPresent(members) && Hook(t, Present(members)).Some? ==> Undated(Hook(t, Present(members)).value)
  {
  }

  /** Reading back never yields a bare date. */
  lemma {:induction false} RoundTripIsUndated(t: TextForms, v: Value)
    ensures RoundTrip(t, v).Some? ==> Undated(RoundTrip(t, v).value)
  {
    DecodeIsUndated(t, Encode(t, v));
  }
}
