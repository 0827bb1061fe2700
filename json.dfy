/**
  The values the path engine walks over: a parsed JSON document, plus the
  `undefined` that a failed member lookup produces. The classifiers
  `isObject`, `isArray` and `isString`, JavaScript truthiness, member
  lookup `value[key]` and the display formatting of a resolved value.
 */
module Json {
  import opened Numerals

  /** A JSON document. A mapping keeps its members in order, keys distinct (see WellFormed). */
  datatype Json =
    | Str(s: string)
    | Num(n: int)
    | Bool(b: bool)
    | Null
    | Arr(items: seq<Json>)
    | Obj(fields: seq<(string, Json)>)

  /** What a lookup can yield: a JSON value, or `undefined` for a key that is not there. */
  datatype Value = Undefined | Def(json: Json)

  /** Every mapping in the tree has distinct keys, as every JavaScript object has. */
  predicate WellFormed(j: Json) {
    match j
    case Arr(items) => forall i :: 0 <= i < |items| ==> WellFormed(items[i])
    case Obj(fields) =>
      && (forall i, k :: 0 <= i < k < |fields| ==> fields[i].0 != fields[k].0)
      && (forall i :: 0 <= i < |fields| ==> WellFormed(fields[i].1))
    case _ => true
  }

  /** `typeof v`. */
  function TypeOf(v: Value): string {
    match v
    case Undefined => "undefined"
    case Def(j) =>
      match j
      case Str(_) => "string"
      case Num(_) => "number"
      case Bool(_) => "boolean"
      case _ => "object"
  }

  /** `Array.isArray(v)`. */
  predicate IsArray(v: Value) {
    v.Def? && v.json.Arr?
  }

  /** `v !== null && typeof v === "object" && !Array.isArray(v)`. */
  predicate IsObject(v: Value) {
    v != Def(Null) && TypeOf(v) == "object" && !IsArray(v)
  }

  /** `typeof v === "string"`. */
  predicate IsString(v: Value) {
    TypeOf(v) == "string"
  }

  /**
    The classifiers pick out exactly the three kinds of the tree: every
    value is an array, a mapping, or neither (a scalar), and only one of
    these; a string and `null` are scalars.
   */
  lemma ClassifiersPartition(v: Value)
    ensures IsArray(v) <==> v.Def? && v.json.Arr?
    ensures IsObject(v) <==> v.Def? && v.json.Obj?
    ensures IsString(v) <==> v.Def? && v.json.Str?
    ensures !(IsArray(v) && IsObject(v))
    ensures IsString(v) ==> !IsArray(v) && !IsObject(v)
    ensures !IsArray(Def(Null)) && !IsObject(Def(Null))
  {
  }

  /** JavaScript truthiness, for the values of this model. Containers are truthy even when empty. */
  predicate Truthy(v: Value) {
    match v
    case Undefined => false
    case Def(j) =>
      match j
      case Str(s) => s != ""
      case Num(n) => n != 0
      case Bool(b) => b
      case Null => false
      case _ => true
  }

  /** Own-member lookup in a mapping: the value bound to `key`, or `undefined`. */
  function LookupField(fields: seq<(string, Json)>, key: string): (r: Value)
    ensures r.Def? <==> exists i :: 0 <= i < |fields| && fields[i].0 == key
    ensures r.Def? ==> exists i :: 0 <= i < |fields| && fields[i] == (key, r.json)
  {
    if fields == [] then Undefined
    else if fields[0].0 == key then Def(fields[0].1)
    else
      var r := LookupField(fields[1..], key);
      assert forall i :: 1 <= i < |fields| ==> fields[i] == fields[1..][i - 1];
      r
  }

  /** With distinct keys, looking up the key of any member finds that member's value. */
  lemma {:induction false} LookupFieldAt(fields: seq<(string, Json)>, i: nat)
    requires i < |fields|
    requires forall a, b :: 0 <= a < b < |fields| ==> fields[a].0 != fields[b].0
    ensures LookupField(fields, fields[i].0) == Def(fields[i].1)
  {
    if i > 0 {
      LookupFieldAt(fields[1..], i - 1);
    }
  }

  /**
    `v[key]` for the values this model has: the own members of a mapping,
    the elements of an array under their canonical index keys, and
    `undefined` for everything else.
   */
  function Lookup(v: Value, key: string): (r: Value)
    ensures r.Def? ==> IsArray(v) || IsObject(v)
    ensures IsArray(v) ==>
      (r.Def? <==> IsIndexKey(key) && ParseDigits(key) < |v.json.items|)
    ensures IsArray(v) && r.Def? ==> r.json == v.json.items[ParseDigits(key)]
    ensures IsObject(v) ==> r == LookupField(v.json.fields, key)
  {
    match v
    case Def(Arr(items)) =>
      if IsIndexKey(key) && ParseDigits(key) < |items| then Def(items[ParseDigits(key)]) else Undefined
    case Def(Obj(fields)) => LookupField(fields, key)
    case _ => Undefined
  }

  /** The element at any index of an array is found under the key `String(index)`. */
  lemma ArrayLookupAt(items: seq<Json>, i: nat)
    requires i < |items|
    ensures Lookup(Def(Arr(items)), NatToString(i)) == Def(items[i])
  {
    NatToStringIsIndexKey(i);
  }

  /** Under any key other than `String(index)` of an index in range, an array has nothing. */
  lemma ArrayLookupOnlyIndexKeys(items: seq<Json>, key: string)
    requires Lookup(Def(Arr(items)), key).Def?
    ensures exists i :: 0 <= i < |items| && key == NatToString(i) && Lookup(Def(Arr(items)), key) == Def(items[i])
  {
    IndexKeyRoundTrip(key);
    var i := ParseDigits(key);
    assert key == NatToString(i);
  }

  /** `String(v)` for a value that is not a container. */
  function ToJsString(v: Value): (r: string)
    requires !IsArray(v) && !IsObject(v)
  {
    match v
    case Undefined => "undefined"
    case Def(j) =>
      match j
      case Str(s) => s
      case Num(n) => IntToString(n)
      case Bool(b) => if b then "true" else "false"
      case Null => "null"
  }

  /**
    How a resolved value is displayed: containers give the empty string,
    a string is put between double quotes (nothing is escaped), and
    anything else is shown as `String(v)`, `"undefined"` included.
    Only containers display as empty, and a display starts with a quote
    exactly when the value is a string.
   */
  function Format(v: Value): (r: string)
    ensures r == "" <==> IsArray(v) || IsObject(v)
    ensures |r| > 0 && r[0] == '"' <==> IsString(v)
  {
    if IsArray(v) || IsObject(v) then ""
    else if IsString(v) then "\"" + v.json.s + "\""
    else ToJsString(v)
  }

  /** A string is displayed between double quotes, exactly as it is: nothing is escaped. */
  lemma FormatQuoted(v: Value, s: string)
    requires v == Def(Str(s))
    ensures Format(v) == "\"" + s + "\""
  {
  }

  /** Different scalars never display alike: the string "1" is shown apart from the number 1. */
  lemma FormatInjective(v: Value, w: Value)
    requires !IsArray(v) && !IsObject(v) && !IsArray(w) && !IsObject(w)
    ensures Format(v) == Format(w) <==> v == w
  {
    if Format(v) == Format(w) {
      if IsString(v) {
        var r := Format(v);
        assert v.json.s == r[1..|r| - 1] == w.json.s;
      } else if v.Def? && v.json.Num? && w.Def? && w.json.Num? {
        IntToStringInjective(v.json.n, w.json.n);
      }
    }
  }
}
