/** JavaScript values as they come out of `JSON.parse`, and the few runtime
    conversions the code applies to them. */
module Json {
  import opened Wrappers

  /** `Number(x)`: a finite number, or NaN / ±Infinity. */
  datatype Num = Finite(x: real) | NonFinite

  /** A parsed JSON value. `JSON.parse` can produce ±Infinity for out-of-range
      literals, so numbers carry a `Num`. Object fields keep their source order;
      a repeated key is looked up at its last occurrence, as `JSON.parse` keeps the
      last one. */
  datatype Json =
    | JNull
    | JBool(b: bool)
    | JNumber(n: Num)
    | JString(s: string)
    | JArray(items: seq<Json>)
    | JObject(fields: seq<(string, Json)>)

  /** The value of the last field named `key`, if any. */
  function Lookup(fields: seq<(string, Json)>, key: string): (r: Option<Json>)
    ensures r.Some? <==> exists k :: 0 <= k < |fields| && fields[k].0 == key
    ensures r.Some? ==> exists k :: 0 <= k < |fields| && fields[k] == (key, r.value)
    decreases |fields|
  {
    if fields == [] then None
    else
      var last := fields[|fields| - 1];
      if last.0 == key then Some(last.1)
      else
        var r := Lookup(fields[..|fields| - 1], key);
        assert forall k :: 0 <= k < |fields| - 1 ==> fields[..|fields| - 1][k] == fields[k];
        r
  }

  /** The field read for a key is its last occurrence. */
  lemma {:induction false} LookupLast(fields: seq<(string, Json)>, k: nat)
    requires k < |fields| && forall j :: k < j < |fields| ==> fields[j].0 != fields[k].0
    ensures Lookup(fields, fields[k].0) == Some(fields[k].1)
    decreases |fields|
  {
    if k < |fields| - 1 {
      var init := fields[..|fields| - 1];
      assert init[k] == fields[k];
      assert forall j :: k < j < |init| ==> init[j] == fields[j];
      LookupLast(init, k);
    }
  }

  /** Fields appended after the last `key` leave its value as it was. */
  lemma {:induction false} LookupAfter(a: seq<(string, Json)>, b: seq<(string, Json)>, key: string)
    requires forall j :: 0 <= j < |b| ==> b[j].0 != key
    ensures Lookup(a + b, key) == Lookup(a, key)
    decreases |b|
  {
    if b != [] {
      var init := b[..|b| - 1];
      assert (a + b)[..|a + b| - 1] == a + init;
      LookupAfter(a, init, key);
    } else {
      assert a + b == a;
    }
  }

  /** Property read `value.key` (`undefined` is `None`): only objects have the
      properties this code reads; on arrays, strings, numbers and booleans they are
      `undefined`. */
  function Get(v: Json, key: string): (r: Option<Json>)
    ensures !v.JObject? ==> r.None?
    ensures v.JObject? ==> r == Lookup(v.fields, key)
  {
    if v.JObject? then Lookup(v.fields, key) else None
  }

  /** The object with one more field appended: that key now reads the new
      value, every other key reads what it read before. */
  function With(o: Json, key: string, value: Json): (r: Json)
    requires o.JObject?
    ensures r.JObject? && Get(r, key) == Some(value)
    ensures forall k :: k != key ==> Get(r, k) == Get(o, k)
  {
    var fs := o.fields + [(key, value)];
    assert fs[..|fs| - 1] == o.fields;
    JObject(fs)
  }

  /** `a ?? b` on property reads: `b` when `a` is `null` or `undefined`. */
  function Coalesce(a: Option<Json>, b: Option<Json>): (r: Option<Json>)
    ensures a.Some? && a.value != JNull ==> r == a
    ensures a.None? || a.value == JNull ==> r == b
  {
    if a.Some? && a.value != JNull then a else b
  }

  /** `typeof v === "string" ? v : null`. */
  function AsString(v: Option<Json>): (r: Option<string>)
    ensures r.Some? <==> v.Some? && v.value.JString?
    ensures r.Some? ==> v.value == JString(r.value)
  {
    if v.Some? && v.value.JString? then Some(v.value.s) else None
  }

  /** `Number(v)`, with `Number(string)` given as `parse`. An array converts through
      its comma-joined string form: the empty array is 0, a longer one has a comma and
      is NaN, a one-element array converts like its element (`null` becomes the empty
      string, i.e. 0). */
  function ToNumber(v: Option<Json>, parse: string -> Num): (r: Num)
    ensures v == None ==> r == NonFinite
    ensures v == Some(JNull) ==> r == Finite(0.0)
    ensures forall n :: v == Some(JNumber(n)) ==> r == n
    ensures forall s :: v == Some(JString(s)) ==> r == parse(s)
  {
    match v
    case None => NonFinite
    case Some(j) =>
      match j
      case JNull => Finite(0.0)
      case JBool(b) => Finite(if b then 1.0 else 0.0)
      case JNumber(n) => n
      case JString(s) => parse(s)
      case JArray(items) => ArrayToNumber(items, parse)
      case JObject(_) => NonFinite
  }

  function ArrayToNumber(items: seq<Json>, parse: string -> Num): (r: Num)
    ensures |items| >= 2 ==> r == NonFinite
    ensures items == [] ==> r == Finite(0.0)
    decreases items
  {
    if items == [] then Finite(0.0)
    else if |items| >= 2 then NonFinite
    else
      match items[0]
      case JNull => Finite(0.0)
      case JBool(_) => NonFinite
      case JNumber(n) => n
      case JString(s) => parse(s)
      case JArray(inner) => ArrayToNumber(inner, parse)
      case JObject(_) => NonFinite
  }
}
