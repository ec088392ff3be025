/** Log redaction (src/cimd_proxy/logging_setup.py). */
module Redaction {
  import opened Wrappers

  const SECRET_FIELDS := {
    "access_token", "refresh_token", "code", "code_verifier", "client_secret", "PROXY_SECRET_KEY", "secret_key",
    "upstream_refresh_token", "upstream_code", "upstream_verifier", "subject_token", "assertion", "token" }

  /** A value in a log payload; `Other` stands for any object that is neither text nor a container. */
  datatype Value =
    | Text(text: string)
    | Other(id: int)
    | Dict(fields: seq<Field>)
    | List(items: seq<Value>)
    | Tuple(items: seq<Value>)

  datatype Field = Field(key: string, value: Value)

  const MARK := "\U{2026}"

  /** `_redact_string`, of the text `str` makes of the value. */
  function Cut(text: string): string {
    if |text| <= 6 then MARK else text[..6] + MARK
  }

  /** `redact`; `str` turns any value into text. */
  function Redact(str: Value -> string, v: Value): Value {
    match v
    case Dict(fields) =>
      Dict(seq(|fields|, i requires 0 <= i < |fields| => RedactField(str, fields[i])))
    case List(items) =>
      List(seq(|items|, i requires 0 <= i < |items| => Redact(str, items[i])))
    case Tuple(items) =>
      List(seq(|items|, i requires 0 <= i < |items| => Redact(str, items[i])))
    case Text(_) => v
    case Other(_) => v
  }

  function RedactField(str: Value -> string, f: Field): Field {
    Field(f.key, if f.key in SECRET_FIELDS then Text(Cut(str(f.value))) else Redact(str, f.value))
  }

  // ----- what a redacted payload tells ------------------------------------------

  /** Both at most six characters long, or both longer with the same first six. */
  predicate SameCut(a: string, b: string) {
    if |a| <= 6 then |b| <= 6 else |b| > 6 && a[..6] == b[..6]
  }

  lemma CutExactly(a: string, b: string)
    ensures Cut(a) == Cut(b) <==> SameCut(a, b)
  {
    hide MARK;
    assert |MARK| == 1 by { MarkIsOneCharacter(); }
    if |a| > 6 { assert Cut(a)[..6] == a[..6] && |Cut(a)| == 7; }
    if |b| > 6 { assert Cut(b)[..6] == b[..6] && |Cut(b)| == 7; }
  }

  lemma MarkIsOneCharacter()
    ensures |MARK| == 1
  {
  }

  /** The payloads differ, if at all, under secret names, and there in nothing that `Cut` shows; a list and a
      tuple count as the same. */
  predicate Alike(str: Value -> string, a: Value, b: Value)
    decreases a
  {
    match a
    case Dict(fields) =>
      && b.Dict? && |b.fields| == |fields|
      && forall i | 0 <= i < |fields| :: AlikeFields(str, fields[i], b.fields[i])
    case List(items) =>
      && (b.List? || b.Tuple?) && |b.items| == |items|
      && forall i | 0 <= i < |items| :: Alike(str, items[i], b.items[i])
    case Tuple(items) =>
      && (b.List? || b.Tuple?) && |b.items| == |items|
      && forall i | 0 <= i < |items| :: Alike(str, items[i], b.items[i])
    case Text(_) => a == b
    case Other(_) => a == b
  }

  predicate AlikeFields(str: Value -> string, f: Field, g: Field)
    decreases f
  {
    && f.key == g.key
    && if f.key in SECRET_FIELDS then SameCut(str(f.value), str(g.value)) else Alike(str, f.value, g.value)
  }

  /** Non-interference, both ways: two payloads redact to the same output exactly when they are alike. */
  lemma {:induction false} RedactExactly(str: Value -> string, a: Value, b: Value)
    ensures Redact(str, a) == Redact(str, b) <==> Alike(str, a, b)
    decreases a
  {
    hide SECRET_FIELDS;
    var (x, y) := (Redact(str, a), Redact(str, b));
    if a.Dict? && b.Dict? && |a.fields| == |b.fields| {
      forall i | 0 <= i < |a.fields|
        ensures x.fields[i] == y.fields[i] <==> AlikeFields(str, a.fields[i], b.fields[i])
      {
        RedactFieldExactly(str, a.fields[i], b.fields[i]);
      }
      assert x.fields == y.fields <==> forall i | 0 <= i < |a.fields| :: x.fields[i] == y.fields[i];
    } else if (a.List? || a.Tuple?) && (b.List? || b.Tuple?) && |a.items| == |b.items| {
      forall i | 0 <= i < |a.items| ensures x.items[i] == y.items[i] <==> Alike(str, a.items[i], b.items[i]) {
        RedactExactly(str, a.items[i], b.items[i]);
      }
      assert x.items == y.items <==> forall i | 0 <= i < |a.items| :: x.items[i] == y.items[i];
    }
  }

  lemma {:induction false} RedactFieldExactly(str: Value -> string, f: Field, g: Field)
    ensures RedactField(str, f) == RedactField(str, g) <==> AlikeFields(str, f, g)
    decreases f
  {
    hide SECRET_FIELDS;
    CutExactly(str(f.value), str(g.value));
    hide Cut, SameCut;
    if f.key !in SECRET_FIELDS { RedactExactly(str, f.value, g.value); }
  }

  lemma CutTwice(text: string)
    ensures Cut(Cut(text)) == Cut(text)
  {
    hide MARK;
    MarkIsOneCharacter();
    if |text| > 6 { assert Cut(text)[..6] == text[..6]; }
  }

  /** Redacting again changes nothing. */
  lemma {:induction false} RedactIdempotent(str: Value -> string, v: Value)
    requires forall s :: str(Text(s)) == s
    ensures Redact(str, Redact(str, v)) == Redact(str, v)
    decreases v
  {
    hide SECRET_FIELDS, Cut;
    var once := Redact(str, v);
    var twice := Redact(str, once);
    match v
    case Dict(fields) =>
      forall i | 0 <= i < |fields| ensures twice.fields[i] == once.fields[i] {
        RedactFieldIdempotent(str, fields[i]);
      }
      assert twice.fields == once.fields;
    case List(items) =>
      forall i | 0 <= i < |items| ensures twice.items[i] == once.items[i] { RedactIdempotent(str, items[i]); }
      assert twice.items == once.items;
    case Tuple(items) =>
      forall i | 0 <= i < |items| ensures twice.items[i] == once.items[i] { RedactIdempotent(str, items[i]); }
      assert twice.items == once.items;
    case _ =>
  }

  lemma {:induction false} RedactFieldIdempotent(str: Value -> string, f: Field)
    requires forall s :: str(Text(s)) == s
    ensures RedactField(str, RedactField(str, f)) == RedactField(str, f)
    decreases f
  {
    hide SECRET_FIELDS, Cut;
    if f.key in SECRET_FIELDS {
      CutTwice(str(f.value));
    } else {
      RedactIdempotent(str, f.value);
    }
  }

  // ----- at any depth -----------------------------------------------------------

  /** The value at a path of positions. */
  function At(v: Value, path: seq<nat>): Option<Value>
    decreases |path|
  {
    if path == [] then Some(v) else
      match v
      case Dict(fields) => if path[0] < |fields| then At(fields[path[0]].value, path[1..]) else None
      case List(items) => if path[0] < |items| then At(items[path[0]], path[1..]) else None
      case Tuple(items) => if path[0] < |items| then At(items[path[0]], path[1..]) else None
      case _ => None
  }

  /** The path passes no secret name. */
  predicate IsOpen(v: Value, path: seq<nat>)
    decreases |path|
  {
    path == [] ||
    match v
    case Dict(fields) =>
      path[0] < |fields| ==> fields[path[0]].key !in SECRET_FIELDS && IsOpen(fields[path[0]].value, path[1..])
    case List(items) => path[0] < |items| ==> IsOpen(items[path[0]], path[1..])
    case Tuple(items) => path[0] < |items| ==> IsOpen(items[path[0]], path[1..])
    case _ => true
  }

  /** Along a path without a secret name, redaction commutes with looking up: however deep, a plain value
      stays as it is, and a dictionary has its secret fields cut. */
  lemma {:induction false} RedactAt(str: Value -> string, v: Value, path: seq<nat>)
    requires IsOpen(v, path)
    ensures At(Redact(str, v), path) == match At(v, path) case None => None case Some(w) => Some(Redact(str, w))
    decreases |path|
  {
    hide SECRET_FIELDS, Cut;
    if path != [] {
      var i := path[0];
      match v
      case Dict(fields) => if i < |fields| { RedactAt(str, fields[i].value, path[1..]); }
      case List(items) => if i < |items| { RedactAt(str, items[i], path[1..]); }
      case Tuple(items) => if i < |items| { RedactAt(str, items[i], path[1..]); }
      case _ =>
    }
  }

  // ----- the filter on log records ------------------------------------------------

  type Attributes = map<string, Value>

  predicate IsPayload(key: string) { key == "msg" || key == "fields" }

  function FilteredValue(str: Value -> string, key: string, v: Value): Value {
    if key in SECRET_FIELDS then Text(Cut(str(v)))
    else if IsPayload(key) && v.Dict? then Redact(str, v)
    else v
  }

  function Filtered(str: Value -> string, attributes: Attributes): Attributes {
    map key | key in attributes :: FilteredValue(str, key, attributes[key])
  }

  function CutIfSecret(str: Value -> string, key: string, v: Value): Value {
    if key in SECRET_FIELDS then Text(Cut(str(v))) else v
  }

  lemma PayloadsAreNotSecret()
    ensures "msg" !in SECRET_FIELDS && "fields" !in SECRET_FIELDS && "msg" != "fields"
  {
  }

  class LogRecord {
    var attributes: Attributes

    constructor (attributes: Attributes)
      ensures this.attributes == attributes
    {
      this.attributes := attributes;
    }

    /** The loop over a snapshot of the names. */
    method CutSecrets(str: Value -> string)
      modifies this
      ensures attributes.Keys == old(attributes.Keys)
      ensures forall key | key in attributes :: attributes[key] == CutIfSecret(str, key, old(attributes)[key])
    {
      hide SECRET_FIELDS, Cut;
      var rest := attributes.Keys;
      while rest != {}
        invariant rest <= attributes.Keys == old(attributes.Keys)
        invariant forall key | key in rest :: attributes[key] == old(attributes)[key]
        invariant forall key | key in attributes.Keys - rest :: attributes[key] == CutIfSecret(str, key, old(attributes)[key])
        decreases |rest|
      {
        var attr :| attr in rest;
        rest := rest - {attr};
        if attr in SECRET_FIELDS { attributes := attributes[attr := Text(Cut(str(attributes[attr])))]; }
      }
    }

    /** `RedactionFilter.filter`. */
    method Filter(str: Value -> string) returns (pass: bool)
      modifies this
      ensures pass && attributes == Filtered(str, old(attributes))
    {
      hide SECRET_FIELDS, Cut, Redact;
      PayloadsAreNotSecret();
      CutSecrets(str);
      if "msg" in attributes && attributes["msg"].Dict? {
        attributes := attributes["msg" := Redact(str, attributes["msg"])];
      }
      if "fields" in attributes && attributes["fields"].Dict? {
        attributes := attributes["fields" := Redact(str, attributes["fields"])];
      }
      pass := true;
    }
  }

  /** What two records may differ in without their filtered forms differing. */
  predicate AlikeValues(str: Value -> string, key: string, v: Value, w: Value) {
    if key in SECRET_FIELDS then SameCut(str(v), str(w))
    else if IsPayload(key) && v.Dict? && w.Dict? then Alike(str, v, w)
    else v == w
  }

  lemma FilteredExactly(str: Value -> string, a: Attributes, b: Attributes)
    ensures Filtered(str, a) == Filtered(str, b) <==>
      a.Keys == b.Keys && forall key | key in a :: AlikeValues(str, key, a[key], b[key])
  {
    hide SECRET_FIELDS, Cut, SameCut, Alike, Redact;
    if a.Keys == b.Keys {
      forall key | key in a
        ensures FilteredValue(str, key, a[key]) == FilteredValue(str, key, b[key]) <==> AlikeValues(str, key, a[key], b[key])
      {
        FilteredValueExactly(str, key, a[key], b[key]);
      }
    } else {
      assert Filtered(str, a).Keys == a.Keys && Filtered(str, b).Keys == b.Keys;
    }
    hide FilteredValue, AlikeValues;
    var (x, y) := (Filtered(str, a), Filtered(str, b));
    if x == y { assert forall key | key in a :: x[key] == y[key]; }
  }

  lemma FilteredValueExactly(str: Value -> string, key: string, v: Value, w: Value)
    ensures FilteredValue(str, key, v) == FilteredValue(str, key, w) <==> AlikeValues(str, key, v, w)
  {
    CutExactly(str(v), str(w));
    RedactExactly(str, v, w);
    hide SECRET_FIELDS, Cut, SameCut, Alike;
    assert v.Dict? == Redact(str, v).Dict? && w.Dict? == Redact(str, w).Dict?;
  }

  // ----- line breaks --------------------------------------------------------------

  /** `s.replace(c, t)` for one character. */
  function Replace(s: string, c: char, t: string): string {
    if s == "" then "" else Replace(s[..|s| - 1], c, t) + (if s[|s| - 1] == c then t else [s[|s| - 1]])
  }

  function Sanitize(s: string): string {
    Replace(Replace(Replace(s, '\r', "\\r"), '\n', "\\n"), '\0', "\\0")
  }

  lemma {:induction false} ReplaceRemoves(s: string, c: char, t: string, d: char)
    requires c !in t && d !in t
    ensures c !in Replace(s, c, t)
    ensures d != c ==> (d in Replace(s, c, t) <==> d in s)
    ensures c !in s ==> Replace(s, c, t) == s
  {
    if s != "" {
      ReplaceRemoves(s[..|s| - 1], c, t, d);
      assert s == s[..|s| - 1] + [s[|s| - 1]];
    }
  }

  /** No line break or NUL survives, and a value without them is left alone. */
  lemma SanitizeExactly(s: string)
    ensures '\r' !in Sanitize(s) && '\n' !in Sanitize(s) && '\0' !in Sanitize(s)
    ensures Sanitize(s) == s <==> '\r' !in s && '\n' !in s && '\0' !in s
  {
    hide Replace;
    var a := Replace(s, '\r', "\\r");
    var b := Replace(a, '\n', "\\n");
    ReplaceRemoves(s, '\r', "\\r", '\n');
    ReplaceRemoves(s, '\r', "\\r", '\0');
    ReplaceRemoves(a, '\n', "\\n", '\r');
    ReplaceRemoves(a, '\n', "\\n", '\0');
    ReplaceRemoves(b, '\0', "\\0", '\r');
    ReplaceRemoves(b, '\0', "\\0", '\n');
  }

  // ----- the names and the mark ----------------------------------------------------

  /** The thirteen names, and no other, are secret. */
  lemma SecretsExactly(key: string)
    ensures key in SECRET_FIELDS <==>
      || key == "access_token" || key == "refresh_token" || key == "code" || key == "code_verifier"
      || key == "client_secret" || key == "PROXY_SECRET_KEY" || key == "secret_key"
      || key == "upstream_refresh_token" || key == "upstream_code" || key == "upstream_verifier"
      || key == "subject_token" || key == "assertion" || key == "token"
  {
  }

  /** What is left of a value: nothing, or its first six characters, and an ellipsis. */
  lemma CutIs(text: string)
    ensures Cut(text) == (if |text| <= 6 then "" else text[..6]) + "\U{2026}"
  {
    assert "" + "\U{2026}" == "\U{2026}";
  }

  /** At any depth below names that are not secret, a field under one of the thirteen names is cut. */
  lemma SecretsAreCut(str: Value -> string, v: Value, path: seq<nat>, i: nat)
    requires IsOpen(v, path) && At(v, path).Some? && At(v, path).value.Dict? && i < |At(v, path).value.fields|
    requires At(v, path).value.fields[i].key in {
               "access_token", "refresh_token", "code", "code_verifier", "client_secret", "PROXY_SECRET_KEY", "secret_key",
               "upstream_refresh_token", "upstream_code", "upstream_verifier", "subject_token", "assertion", "token" }
    ensures
      var (f, r) := (At(v, path).value.fields[i], At(Redact(str, v), path));
      && r.Some? && r.value.Dict? && i < |r.value.fields|
      && r.value.fields[i] == Field(f.key, Text((if |str(f.value)| <= 6 then "" else str(f.value)[..6]) + "\U{2026}"))
  {
    var f := At(v, path).value.fields[i];
    SecretsExactly(f.key);
    CutIs(str(f.value));
    hide SECRET_FIELDS, Cut, IsOpen, At;
    RedactAt(str, v, path);
  }

  lemma ReplaceLast(s: string, x: char, c: char, t: string)
    ensures Replace(s + [x], c, t) == Replace(s, c, t) + (if x == c then t else [x])
  {
    assert (s + [x])[..|s|] == s;
  }

  lemma {:induction false} ReplaceAppend(s: string, x: string, c: char, t: string)
    ensures Replace(s + x, c, t) == Replace(s, c, t) + Replace(x, c, t)
  {
    if x == "" {
      assert s + x == s;
    } else {
      hide Replace;
      var (front, last) := (x[..|x| - 1], x[|x| - 1]);
      assert x == front + [last] && s + x == s + front + [last];
      ReplaceAppend(s, front, c, t);
      ReplaceLast(front, last, c, t);
      ReplaceLast(s + front, last, c, t);
    }
  }

  lemma ReplaceOne(x: char, c: char, t: string)
    ensures Replace([x], c, t) == if x == c then t else [x]
  {
    assert [x][..0] == "";
  }

  function Neutral(c: char): string {
    if c == '\r' then "\\r" else if c == '\n' then "\\n" else if c == '\0' then "\\0" else [c]
  }

  /** Sanitizing goes character by character: the three are written as escapes, all others stay. */
  lemma SanitizeAppends(s: string, c: char)
    ensures Sanitize(s + [c]) == Sanitize(s) + Neutral(c)
    ensures Sanitize("") == ""
  {
    SanitizeOne(c);
    SanitizeNothing();
    hide Replace, Neutral;
    var (a, b) := (Replace(s, '\r', "\\r"), Replace([c], '\r', "\\r"));
    ReplaceAppend(s, [c], '\r', "\\r");
    ReplaceAppend(a, b, '\n', "\\n");
    ReplaceAppend(Replace(a, '\n', "\\n"), Replace(b, '\n', "\\n"), '\0', "\\0");
  }

  lemma SanitizeNothing()
    ensures Sanitize("") == ""
  {
  }

  lemma SanitizeOne(c: char)
    ensures Sanitize([c]) == Neutral(c)
  {
    hide Replace;
    ReplaceOne(c, '\r', "\\r");
    ReplaceOne(c, '\n', "\\n");
    ReplaceOne(c, '\0', "\\0");
    ReplaceRemoves("\\r", '\n', "\\n", '\0');
    ReplaceRemoves("\\r", '\0', "\\0", '\0');
    ReplaceRemoves("\\n", '\0', "\\0", '\0');
  }
}
