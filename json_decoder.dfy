/**
 * The part of Foundation's `JSONDecoder` that the generated initializer
 * relies on: looking a key up in the keyed container (absent, null or
 * present) and decoding a present JSON value as a given Swift type. Every
 * type decodes through its own `init(from:)`, so an enum anywhere in a type
 * (an element, a dictionary value, a wrapped value) goes through
 * `DecodeEnum` and never fails. An encoder is given beside it as the partner
 * that states what the decoder accepts.
 */
module JsonDecoder {
  import opened Wrappers
  import opened Json
  import opened DefaultValueProvider

  /** What `decodeIfPresent` finds under a key: nothing, JSON null, or a value. */
  datatype Presence = Absent | Null | Present(value: JsonValue)

  /** Looks `key` up in a keyed container. */
  function Lookup(doc: map<string, JsonValue>, key: string): (p: Presence)
    ensures p == Absent <==> key !in doc
    ensures p == Null <==> key in doc && doc[key] == JNull
    ensures p.Present? ==> key in doc && doc[key] == p.value && p.value != JNull
  {
    if key !in doc then Absent
    else if doc[key] == JNull then Null
    else Present(doc[key])
  }

  /** A JSON number with no fractional part. */
  predicate IsIntegral(n: real) {
    n.Floor as real == n
  }

  /**
   * Decodes `j` as Swift type `t`, or fails (the decoder throws). `Int` takes
   * a whole number that fits in 64 bits, `Double` any number, `Bool` only a
   * JSON boolean, `String` only a JSON string. An array or dictionary fails as
   * a whole when any element fails. A dictionary is read from a JSON object
   * only when its key type is `String`. An optional is `nil` on JSON null and
   * otherwise decodes its wrapped type. An enum never fails.
   */
  function ParseValue(j: JsonValue, t: TypeDesc): (r: Option<Value>)
    decreases t, 0
    ensures WellFormed(t) && r.Some? ==> HasType(r.value, t)
    ensures Lenient(t) ==> r.Some?
  {
    match t
    case TInt =>
      if j.JNumber? && IsIntegral(j.n) && IntMin <= j.n.Floor <= IntMax then Some(VInt(j.n.Floor)) else None
    case TString => if j.JString? then Some(VString(j.s)) else None
    case TBool => if j.JBool? then Some(VBool(j.b)) else None
    case TDouble => if j.JNumber? then Some(VDouble(j.n)) else None
    case TArray(el) => ParseArray(j, el)
    case TDict(kt, vt) => ParseDict(j, kt, vt)
    case TOptional(w) =>
      if j.JNull? then Some(VNone)
      else
        (match ParseValue(j, w)
         case Some(x) => Some(VSome(x))
         case None => None)
    case TEnum(e) => Some(VCase(DecodeEnum(j, e)))
    case TOther(_) => None
  }

  /** Decodes `j` as an array of `el`: only a JSON array, and only when every element decodes. */
  function ParseArray(j: JsonValue, el: TypeDesc): (r: Option<Value>)
    decreases el, 2
    ensures r.Some? <==> j.JArray? && ParseItems(j.items, el).Some?
    ensures r.Some? ==> r.value == VArray(ParseItems(j.items, el).value)
  {
    if !j.JArray? then None
    else
      match ParseItems(j.items, el)
      case Some(items) => Some(VArray(items))
      case None => None
  }

  /** Decodes `j` as a dictionary: only a JSON object, only with `String` keys, and only when every value decodes. */
  function ParseDict(j: JsonValue, kt: TypeDesc, vt: TypeDesc): (r: Option<Value>)
    decreases vt, 2
    ensures r.Some? <==> j.JObject? && kt == TString && ParseFields(j.fields, vt).Some?
    ensures r.Some? ==> r.value == VDict(ParseFields(j.fields, vt).value)
  {
    if !j.JObject? || kt != TString then None
    else
      match ParseFields(j.fields, vt)
      case Some(entries) => Some(VDict(entries))
      case None => None
  }

  /** Decodes every element of a JSON array; fails when any element fails. */
  function ParseItems(items: seq<JsonValue>, el: TypeDesc): (r: Option<seq<Value>>)
    decreases el, 1
    ensures r.Some? <==> forall k :: 0 <= k < |items| ==> ParseValue(items[k], el).Some?
    ensures r.Some? ==> |r.value| == |items|
    ensures r.Some? ==> forall k :: 0 <= k < |items| ==> Some(r.value[k]) == ParseValue(items[k], el)
  {
    if forall k :: 0 <= k < |items| ==> ParseValue(items[k], el).Some? then
      Some(seq(|items|, k requires 0 <= k < |items| => ParseValue(items[k], el).value))
    else None
  }

  /** Decodes every member of a JSON object as a `String`-keyed entry; fails when any value fails. */
  function ParseFields(fields: map<string, JsonValue>, vt: TypeDesc): (r: Option<map<Value, Value>>)
    decreases vt, 1
    ensures r.Some? <==> forall s :: s in fields ==> ParseValue(fields[s], vt).Some?
    ensures r.Some? ==> forall k :: k in r.value <==> k.VString? && k.s in fields
    ensures r.Some? ==> forall s :: s in fields ==> Some(r.value[VString(s)]) == ParseValue(fields[s], vt)
  {
    if forall s :: s in fields ==> ParseValue(fields[s], vt).Some? then
      Some(map s | s in fields :: VString(s) := ParseValue(fields[s], vt).value)
    else None
  }

  /** Types whose decoding cannot fail: an enum, possibly wrapped in optionals. */
  predicate Lenient(t: TypeDesc) {
    match t
    case TEnum(_) => true
    case TOptional(w) => Lenient(w)
    case _ => false
  }

  /** The type with its optional wrappers removed. */
  function Unwrapped(t: TypeDesc): TypeDesc {
    if t.TOptional? then Unwrapped(t.wrapped) else t
  }

  /** A present JSON value of the wrong kind for `t`. */
  function Mismatch(t: TypeDesc): JsonValue {
    if Unwrapped(t) == TBool then JString("") else JBool(true)
  }

  /** Every type other than an (optional) enum has a present value that makes decoding fail. */
  lemma {:induction false} StrictTypesCanFail(t: TypeDesc)
    requires !Lenient(t)
    ensures ParseValue(Mismatch(t), t).None?
  {
    if t.TOptional? {
      StrictTypesCanFail(t.wrapped);
    }
  }

  /** Decoding as `t` succeeds on every JSON value exactly when `t` is an (optional) enum. */
  lemma NeverFailsIffLenient(t: TypeDesc)
    ensures Lenient(t) <==> forall j :: ParseValue(j, t).Some?
  {
    if !Lenient(t) {
      StrictTypesCanFail(t);
    }
  }

  /**
   * The types whose values the encoder below writes in a form the decoder
   * reads back: dictionary keys are Strings, and no optional directly wraps
   * another optional (`.some(nil)` and `nil` are both written as null).
   */
  predicate Representable(t: TypeDesc) {
    match t
    case TInt | TString | TBool | TDouble => true
    case TArray(el) => Representable(el)
    case TDict(kt, vt) => kt == TString && Representable(vt)
    case TOptional(w) => !w.TOptional? && Representable(w)
    case TEnum(e) => ValidEnum(e)
    case TOther(_) => false
  }

  /** The keys of a dictionary that are Strings, as JSON member names. */
  function StringKeys(m: map<Value, Value>): (keys: set<string>)
    ensures forall s :: s in keys <==> VString(s) in m
  {
    set k | k in m && k.VString? :: k.s
  }

  /** Writes a value of type `t` as JSON, as Swift's synthesized `Encodable` conformances do. */
  function Encode(v: Value, t: TypeDesc): JsonValue
    decreases t
  {
    match v
    case VInt(i) => JNumber(i as real)
    case VString(s) => JString(s)
    case VBool(b) => JBool(b)
    case VDouble(d) => JNumber(d)
    case VArray(items) =>
      if t.TArray? then JArray(seq(|items|, k requires 0 <= k < |items| => Encode(items[k], t.element))) else JNull
    case VDict(m) =>
      if t.TDict? then JObject(map s | s in StringKeys(m) :: Encode(m[VString(s)], t.value)) else JNull
    case VNone => JNull
    case VSome(x) => if t.TOptional? then Encode(x, t.wrapped) else JNull
    case VCase(n) => if t.TEnum? then JString(RawOf(t.desc.cases, n)) else JNull
  }

  /** Only `nil` is written as JSON null. */
  lemma EncodeNullOnlyForNil(v: Value, t: TypeDesc)
    requires HasType(v, t) && Representable(t)
    ensures Encode(v, t) == JNull <==> v == VNone
  {
  }

  /** A JSON array whose elements decode to `items`, one by one, decodes to `items`. */
  lemma ParseItemsOf(items: seq<Value>, el: TypeDesc, js: seq<JsonValue>)
    requires |js| == |items|
    requires forall k :: 0 <= k < |js| ==> ParseValue(js[k], el) == Some(items[k])
    ensures ParseItems(js, el) == Some(items)
  {
    var r := ParseItems(js, el);
    assert r.Some?;
    assert r.value == items;
  }

  /** At an array type, `ParseValue` is `ParseArray`. */
  lemma ParseValueAtArray(j: JsonValue, t: TypeDesc)
    requires t.TArray?
    ensures ParseValue(j, t) == ParseArray(j, t.element)
  {
  }

  /** Decoding an encoded array gives it back once each element does. */
  lemma RoundTripArray(items: seq<Value>, el: TypeDesc)
    requires forall k :: 0 <= k < |items| ==> ParseValue(Encode(items[k], el), el) == Some(items[k])
    ensures ParseValue(Encode(VArray(items), TArray(el)), TArray(el)) == Some(VArray(items))
  {
    var j := Encode(VArray(items), TArray(el));
    assert j.JArray? && |j.items| == |items|;
    assert forall k :: 0 <= k < |items| ==> j.items[k] == Encode(items[k], el);
    ParseItemsOf(items, el, j.items);
    ParseValueAtArray(j, TArray(el));
  }

  /** A JSON object whose members decode to the String-keyed entries of `m`, and has no other members, decodes to `m`. */
  lemma ParseFieldsOf(m: map<Value, Value>, vt: TypeDesc, fields: map<string, JsonValue>)
    requires forall k :: k in m ==> k.VString?
    requires forall s :: s in fields <==> VString(s) in m
    requires forall s :: s in fields ==> ParseValue(fields[s], vt) == Some(m[VString(s)])
    ensures ParseFields(fields, vt) == Some(m)
  {
    var r := ParseFields(fields, vt);
    assert r.Some?;
    forall k | k in m
      ensures k in r.value && r.value[k] == m[k]
    {
      assert k == VString(k.s);
    }
    assert r.value.Keys == m.Keys;
    assert r.value == m;
  }

  /** At a dictionary type, `ParseValue` is `ParseDict`. */
  lemma ParseValueAtDict(j: JsonValue, t: TypeDesc)
    requires t.TDict?
    ensures ParseValue(j, t) == ParseDict(j, t.key, t.value)
  {
  }

  /** Decoding an encoded String-keyed dictionary gives it back once each value does. */
  lemma RoundTripDict(m: map<Value, Value>, vt: TypeDesc)
    requires forall k :: k in m ==> k.VString?
    requires forall s :: VString(s) in m ==> ParseValue(Encode(m[VString(s)], vt), vt) == Some(m[VString(s)])
    ensures ParseValue(Encode(VDict(m), TDict(TString, vt)), TDict(TString, vt)) == Some(VDict(m))
  {
    var j := Encode(VDict(m), TDict(TString, vt));
    assert j.JObject?;
    assert forall s :: s in j.fields <==> VString(s) in m;
    assert forall s :: s in j.fields ==> j.fields[s] == Encode(m[VString(s)], vt);
    ParseFieldsOf(m, vt, j.fields);
    ParseValueAtDict(j, TDict(TString, vt));
  }

  /** Decoding what was encoded gives back the value: the decoder loses nothing on well-typed data. */
  lemma {:induction false} RoundTrip(v: Value, t: TypeDesc)
    requires HasType(v, t) && Representable(t)
    ensures ParseValue(Encode(v, t), t) == Some(v)
    decreases t
  {
    match t
    case TInt =>
      assert IsIntegral(v.i as real);
    case TString =>
    case TBool =>
    case TDouble =>
    case TArray(el) =>
      forall k | 0 <= k < |v.items|
        ensures ParseValue(Encode(v.items[k], el), el) == Some(v.items[k])
      {
        RoundTrip(v.items[k], el);
      }
      RoundTripArray(v.items, el);
    case TDict(kt, vt) =>
      forall s | VString(s) in v.entries
        ensures ParseValue(Encode(v.entries[VString(s)], vt), vt) == Some(v.entries[VString(s)])
      {
        RoundTrip(v.entries[VString(s)], vt);
      }
      RoundTripDict(v.entries, vt);
    case TOptional(w) =>
      if v.VSome? {
        EncodeNullOnlyForNil(v.inner, w);
        RoundTrip(v.inner, w);
      }
    case TEnum(e) =>
      DecodeEnumRawOf(e, v.name);
  }
}
