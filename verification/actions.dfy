/** The action object the decision step returns, read from its JSON fields. A
    field the executor only compares or prints is read as a string; the
    fields whose non-string values change what happens (`label`, `locator`,
    `direction`) keep the JSON value, so that a `null` is not mistaken for a
    missing key. */
module Actions {
  import opened Wrappers
  import opened JsonValues

  /** The `locator` field: an object (a missing field reads as `{}`), whose
      string entries are the ones the branches test, or any other JSON value,
      on which the branch tests misbehave. */
  datatype LocatorField =
    | LocObject(entries: map<string, string>)
    | LocOther(raw: Json)

  /** One decided step. `kind` is the `type` field. `labelField` and
      `direction` are `None` only when the key is missing. */
  datatype Action = Action(
    kind: Option<string>,
    labelField: Option<Json>,
    locator: LocatorField,
    text: Option<string>,
    value: Option<string>,
    url: Option<string>,
    direction: Option<Json>)
  {
    predicate IsDone() {
      kind == Some("done")
    }
  }

  /** The types that type text into a field. */
  predicate IsFillKind(a: Action) {
    a.kind == Some("fill") || a.kind == Some("type")
  }

  /** The string-valued entries of a JSON object. */
  function StringEntries(m: map<string, Json>): map<string, string> {
    map k | k in m && m[k].JString? :: m[k].s
  }

  /** The locator an action carries: `{}` when the key is missing, the string
      entries of an object, and any other value (`null` included) as it is. */
  function LocatorOf(fields: map<string, Json>): (r: LocatorField)
    ensures "locator" !in fields ==> r == LocObject(map[])
    ensures r.LocOther? <==> "locator" in fields && !fields["locator"].JObject?
    ensures r.LocOther? ==> r.raw == fields["locator"]
    ensures r.LocObject? ==> forall k :: k in r.entries ==> Field(fields["locator"].fields, k) == Some(JString(r.entries[k]))
  {
    if "locator" !in fields then LocObject(map[])
    else match fields["locator"]
      case JObject(m) => LocObject(StringEntries(m))
      case other => LocOther(other)
  }

  /** The fields `_do_action` and the goal loop read from a decided object. */
  function ActionOf(fields: map<string, Json>): Action {
    Action(
      StringField(fields, "type"),
      Field(fields, "label"),
      LocatorOf(fields),
      StringField(fields, "text"),
      StringField(fields, "value"),
      StringField(fields, "url"),
      Field(fields, "direction"))
  }

  /** A string field written as a JSON string. */
  function AsJson(v: Option<string>): (r: Option<Json>)
    ensures v.None? <==> r.None?
    ensures v.Some? ==> r == Some(JString(v.value))
  {
    match v
    case Some(s) => Some(JString(s))
    case None => None
  }

  /** Writes `key` when the field is present and leaves the object alone
      otherwise. */
  function Put(m: map<string, Json>, key: string, v: Option<Json>): (r: map<string, Json>)
    ensures v.None? ==> r == m
    ensures v.Some? ==> key in r && r[key] == v.value
  {
    if v.Some? then m[key := v.value] else m
  }

  /** A `Put` under another key leaves every other entry as it was. */
  lemma PutElsewhere(m: map<string, Json>, key: string, v: Option<Json>, k: string)
    requires k != key
    ensures Field(Put(m, key, v), k) == Field(m, k)
  {
  }

  /** A locator written as a JSON object of strings. */
  function LocatorJson(loc: map<string, string>): map<string, Json> {
    map k | k in loc :: JString(loc[k])
  }

  function LocatorValue(l: LocatorField): Json {
    match l
    case LocObject(m) => JObject(LocatorJson(m))
    case LocOther(j) => j
  }

  /** The object the decision step is asked to produce for an action. */
  function ActionToJson(a: Action): map<string, Json> {
    Layers(a)[6]
  }

  /** The object after each of the field writes of `ActionToJson`, in order. */
  function Layers(a: Action): (ms: seq<map<string, Json>>)
    ensures |ms| == 7
  {
    var m0 := map["locator" := LocatorValue(a.locator)];
    var m1 := Put(m0, "type", AsJson(a.kind));
    var m2 := Put(m1, "label", a.labelField);
    var m3 := Put(m2, "text", AsJson(a.text));
    var m4 := Put(m3, "value", AsJson(a.value));
    var m5 := Put(m4, "url", AsJson(a.url));
    [m0, m1, m2, m3, m4, m5, Put(m5, "direction", a.direction)]
  }

  /** A locator that is not an object is never written as one. */
  predicate WellFormedAction(a: Action) {
    a.locator.LocOther? ==> !a.locator.raw.JObject?
  }

  lemma LocatorRoundTrip(a: Action)
    requires WellFormedAction(a)
    ensures LocatorOf(ActionToJson(a)) == a.locator
  {
    var ms := Layers(a);
    var k := "locator";
    assert Field(ms[6], k) == Some(LocatorValue(a.locator)) by {
      PutElsewhere(ms[0], "type", AsJson(a.kind), k);
      PutElsewhere(ms[1], "label", a.labelField, k);
      PutElsewhere(ms[2], "text", AsJson(a.text), k);
      PutElsewhere(ms[3], "value", AsJson(a.value), k);
      PutElsewhere(ms[4], "url", AsJson(a.url), k);
      PutElsewhere(ms[5], "direction", a.direction, k);
    }
    if a.locator.LocObject? {
      assert StringEntries(LocatorJson(a.locator.entries)) == a.locator.entries;
    }
  }

  lemma FieldsRoundTrip(a: Action)
    ensures Field(ActionToJson(a), "type") == AsJson(a.kind)
    ensures Field(ActionToJson(a), "label") == a.labelField
    ensures Field(ActionToJson(a), "text") == AsJson(a.text)
    ensures Field(ActionToJson(a), "value") == AsJson(a.value)
    ensures Field(ActionToJson(a), "url") == AsJson(a.url)
    ensures Field(ActionToJson(a), "direction") == a.direction
  {
    var ms := Layers(a);
    assert Field(ms[6], "type") == AsJson(a.kind) by {
      PutElsewhere(ms[1], "label", a.labelField, "type");
      PutElsewhere(ms[2], "text", AsJson(a.text), "type");
      PutElsewhere(ms[3], "value", AsJson(a.value), "type");
      PutElsewhere(ms[4], "url", AsJson(a.url), "type");
      PutElsewhere(ms[5], "direction", a.direction, "type");
    }
    assert Field(ms[6], "label") == a.labelField by {
      PutElsewhere(ms[2], "text", AsJson(a.text), "label");
      PutElsewhere(ms[3], "value", AsJson(a.value), "label");
      PutElsewhere(ms[4], "url", AsJson(a.url), "label");
      PutElsewhere(ms[5], "direction", a.direction, "label");
    }
    assert Field(ms[6], "text") == AsJson(a.text) by {
      PutElsewhere(ms[3], "value", AsJson(a.value), "text");
      PutElsewhere(ms[4], "url", AsJson(a.url), "text");
      PutElsewhere(ms[5], "direction", a.direction, "text");
    }
    assert Field(ms[6], "value") == AsJson(a.value) by {
      PutElsewhere(ms[4], "url", AsJson(a.url), "value");
      PutElsewhere(ms[5], "direction", a.direction, "value");
    }
    assert Field(ms[6], "url") == AsJson(a.url) by {
      PutElsewhere(ms[5], "direction", a.direction, "url");
    }
  }

  /** Reading a string field back from its JSON form. */
  lemma StringFieldOfJson(m: map<string, Json>, key: string, v: Option<string>)
    requires Field(m, key) == AsJson(v)
    ensures StringField(m, key) == v
  {
  }

  /** Every well-formed action survives being written as JSON and read back,
      `null` fields included. */
  lemma ActionRoundTrip(a: Action)
    requires WellFormedAction(a)
    ensures ActionOf(ActionToJson(a)) == a
  {
    var m := ActionToJson(a);
    LocatorRoundTrip(a);
    FieldsRoundTrip(a);
    StringFieldOfJson(m, "type", a.kind);
    StringFieldOfJson(m, "text", a.text);
    StringFieldOfJson(m, "value", a.value);
    StringFieldOfJson(m, "url", a.url);
  }

  /** The text to type or choose: `text` when it is a non-empty string,
      otherwise `value`. */
  function TextOrValue(a: Action): (r: Option<string>)
    ensures a.text.Some? && a.text.value != [] ==> r == a.text
    ensures (a.text.None? || a.text.value == []) ==> r == a.value
  {
    if a.text.Some? && a.text.value != [] then a.text else a.value
  }

  /** The wheel turns down when the direction is missing (the default) or is
      the string `down`; any other value, `null` included, turns it up. */
  predicate ScrollsDown(a: Action) {
    a.direction.None? || a.direction == Some(JString("down"))
  }

  /** A scroll whose direction is `null` turns the wheel up, unlike one whose
      direction is missing. */
  lemma NullDirectionScrollsUp(fields: map<string, Json>)
    requires "direction" in fields && fields["direction"] == JNull
    ensures !ScrollsDown(ActionOf(fields))
    ensures ScrollsDown(ActionOf(fields - {"direction"}))
  {
  }
}
