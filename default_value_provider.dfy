/**
 * The `DefaultValueProvider` registry and the `DefaultEnumProvider` fallback
 * decoder. Swift's protocol conformances become an explicit match on a type
 * descriptor; a conformance that holds only when an element or wrapped type
 * conforms becomes the predicate `WellFormed`.
 */
module DefaultValueProvider {
  import opened Wrappers
  import opened Json

  /** One case of a String-backed enum: its name and its raw value. */
  datatype EnumCase = EnumCase(name: string, raw: string)

  /** A `DefaultEnumProvider` enum: its cases in declaration order and its declared `defaultCase`. */
  datatype EnumDesc = EnumDesc(cases: seq<EnumCase>, defaultCase: string)

  /**
   * The Swift type of a decoded property. `TOther` stands for any type that
   * has no `DefaultValueProvider` conformance (a nested struct, `Date`, a
   * plain enum, ...); it may still be a dictionary key, which needs only `Hashable`.
   */
  datatype TypeDesc =
    | TInt
    | TString
    | TBool
    | TDouble
    | TArray(element: TypeDesc)
    | TDict(key: TypeDesc, value: TypeDesc)
    | TOptional(wrapped: TypeDesc)
    | TEnum(desc: EnumDesc)
    | TOther(name: string)

  /** A decoded Swift value. `VDouble` is a tag on an exact rational: no floating-point arithmetic is modelled. */
  datatype Value =
    | VInt(i: int)
    | VString(s: string)
    | VBool(b: bool)
    | VDouble(d: real)
    | VArray(items: seq<Value>)
    | VDict(entries: map<Value, Value>)
    | VNone
    | VSome(inner: Value)
    | VCase(name: string)

  /** Swift's `Int` is 64 bits wide on every platform the package supports. */
  const IntMin: int := -0x8000_0000_0000_0000
  const IntMax: int := 0x7fff_ffff_ffff_ffff

  /** `n` names a case of the enum. */
  predicate IsCase(e: EnumDesc, n: string) {
    exists i :: 0 <= i < |e.cases| && e.cases[i].name == n
  }

  /** Some case of the enum has raw value `raw`. */
  predicate HasRaw(e: EnumDesc, raw: string) {
    exists i :: 0 <= i < |e.cases| && e.cases[i].raw == raw
  }

  /**
   * What the Swift compiler guarantees of every String-backed enum that adopts
   * `DefaultEnumProvider`: case names and raw values are unique, and
   * `defaultCase` (a value of the enum type) is one of its cases.
   */
  predicate ValidEnum(e: EnumDesc) {
    && (forall i, j :: 0 <= i < j < |e.cases| ==> e.cases[i].name != e.cases[j].name)
    && (forall i, j :: 0 <= i < j < |e.cases| ==> e.cases[i].raw != e.cases[j].raw)
    && IsCase(e, e.defaultCase)
  }

  /**
   * The type conforms to `DefaultValueProvider`: the four primitives always,
   * `Array` and `Optional` when their element conforms, `Dictionary` when its
   * value type conforms (the key needs only `Hashable`), and every
   * `DefaultEnumProvider` enum.
   */
  predicate WellFormed(t: TypeDesc) {
    match t
    case TInt | TString | TBool | TDouble => true
    case TArray(el) => WellFormed(el)
    case TDict(_, vt) => WellFormed(vt)
    case TOptional(w) => WellFormed(w)
    case TEnum(e) => ValidEnum(e)
    case TOther(_) => false
  }

  /** `v` is a value of Swift type `t`. */
  predicate HasType(v: Value, t: TypeDesc)
    decreases t
  {
    match t
    case TInt => v.VInt? && IntMin <= v.i <= IntMax
    case TString => v.VString?
    case TBool => v.VBool?
    case TDouble => v.VDouble?
    case TArray(el) => v.VArray? && forall k :: 0 <= k < |v.items| ==> HasType(v.items[k], el)
    case TDict(kt, vt) => v.VDict? && forall k :: k in v.entries ==> HasType(k, kt) && HasType(v.entries[k], vt)
    case TOptional(w) => v.VNone? || (v.VSome? && HasType(v.inner, w))
    case TEnum(e) => v.VCase? && IsCase(e, v.name)
    case TOther(_) => false
  }

  /**
   * `T.defaultValue()`: defined exactly for the conforming types, a value of
   * that type, and built without looking at any element type's default.
   */
  function DefaultValue(t: TypeDesc): (r: Value)
    requires WellFormed(t)
    ensures HasType(r, t)
  {
    match t
    case TInt => VInt(0)
    case TString => VString("")
    case TBool => VBool(false)
    case TDouble => VDouble(0.0)
    case TArray(_) => VArray([])
    case TDict(_, _) => VDict(map[])
    case TOptional(_) => VNone
    case TEnum(e) => VCase(e.defaultCase)
  }

  /** The primitive defaults are the zero of each type. */
  lemma PrimitiveDefaults()
    ensures DefaultValue(TInt) == VInt(0)
    ensures DefaultValue(TString) == VString("")
    ensures DefaultValue(TBool) == VBool(false)
    ensures DefaultValue(TDouble) == VDouble(0.0)
  {
  }

  /** The default of an array or dictionary is empty, whatever its element, key and value types. */
  lemma ContainerDefaultsAreEmpty(el: TypeDesc, kt: TypeDesc, vt: TypeDesc)
    requires WellFormed(el) && WellFormed(vt)
    ensures DefaultValue(TArray(el)) == VArray([])
    ensures DefaultValue(TDict(kt, vt)) == VDict(map[])
  {
  }

  /**
   * A container or optional type has a default exactly when its element
   * (for a dictionary: its value) type has one; the key type does not matter.
   * A type without a conformance has no default.
   */
  lemma ConditionalConformance(t: TypeDesc, kt: TypeDesc, n: string)
    ensures WellFormed(TArray(t)) <==> WellFormed(t)
    ensures WellFormed(TOptional(t)) <==> WellFormed(t)
    ensures WellFormed(TDict(kt, t)) <==> WellFormed(t)
    ensures !WellFormed(TOther(n))
  {
  }

  /** The default of an optional is `nil`, which is not `Optional(T.defaultValue())`. */
  lemma OptionalDefaultIsNil(w: TypeDesc)
    requires WellFormed(w)
    ensures DefaultValue(TOptional(w)) == VNone
    ensures forall x :: DefaultValue(TOptional(w)) != VSome(x)
  {
  }

  /** The default of an enum is its declared `defaultCase`, which is one of its cases. */
  lemma EnumDefaultIsDeclaredCase(e: EnumDesc)
    requires ValidEnum(e)
    ensures DefaultValue(TEnum(e)) == VCase(e.defaultCase)
    ensures IsCase(e, DefaultValue(TEnum(e)).name)
  {
  }

  /**
   * `Self(rawValue:)` of a String-backed enum: the first case, in declaration
   * order, whose raw value equals `raw` exactly, or nothing.
   */
  function CaseForRaw(cases: seq<EnumCase>, raw: string): (r: Option<string>)
    ensures r.None? <==> forall i :: 0 <= i < |cases| ==> cases[i].raw != raw
    ensures r.Some? ==> exists i :: 0 <= i < |cases| && cases[i].raw == raw && cases[i].name == r.value
                                   && forall p :: 0 <= p < i ==> cases[p].raw != raw
  {
    if cases == [] then None
    else if cases[0].raw == raw then Some(cases[0].name)
    else
      var r := CaseForRaw(cases[1..], raw);
      assert forall i :: 1 <= i < |cases| ==> cases[i] == cases[1..][i - 1];
      assert r.Some? ==> exists i :: 0 <= i < |cases| && cases[i].raw == raw && cases[i].name == r.value
                                     && forall p :: 0 <= p < i ==> cases[p].raw != raw by {
        if r.Some? {
          var i :| 0 <= i < |cases[1..]| && cases[1..][i].raw == raw && cases[1..][i].name == r.value
                   && forall p :: 0 <= p < i ==> cases[1..][p].raw != raw;
          assert forall p :: 0 <= p < i + 1 ==> cases[p].raw != raw by {
            forall p | 0 <= p < i + 1 ensures cases[p].raw != raw {
              if p > 0 {
                assert cases[p] == cases[1..][p - 1];
              }
            }
          }
        }
      }
      r
  }

  /**
   * `DefaultEnumProvider.init(from:)`: read the value as a String; a raw value
   * that names a case gives that case, and anything else (a JSON value that is
   * not a string, or an unknown raw value) gives `defaultCase`. It never fails.
   */
  function DecodeEnum(j: JsonValue, e: EnumDesc): (c: string)
    ensures j.JString? && HasRaw(e, j.s) ==>
              exists i :: 0 <= i < |e.cases| && e.cases[i].raw == j.s && e.cases[i].name == c
    ensures !(j.JString? && HasRaw(e, j.s)) ==> c == e.defaultCase
    ensures ValidEnum(e) ==> IsCase(e, c)
  {
    match j
    case JString(s) =>
      (match CaseForRaw(e.cases, s)
       case Some(n) => n
       case None => e.defaultCase)
    case _ => e.defaultCase
  }

  /** A string that is exactly some case's raw value decodes to that case, and to no other. */
  lemma DecodeEnumExactMatch(e: EnumDesc, i: nat)
    requires ValidEnum(e) && i < |e.cases|
    ensures DecodeEnum(JString(e.cases[i].raw), e) == e.cases[i].name
  {
    var c := DecodeEnum(JString(e.cases[i].raw), e);
    assert HasRaw(e, e.cases[i].raw);
    var k :| 0 <= k < |e.cases| && e.cases[k].raw == e.cases[i].raw && e.cases[k].name == c;
    assert k == i;
  }

  /** Any JSON value that is not a string, and any string that is no raw value, decodes to `defaultCase`. */
  lemma DecodeEnumFallback(j: JsonValue, e: EnumDesc)
    requires !j.JString? || !HasRaw(e, j.s)
    ensures DecodeEnum(j, e) == e.defaultCase
  {
  }

  /** The raw value of the case named `n` (the first such case), or "" when there is none. */
  function RawOf(cases: seq<EnumCase>, n: string): (r: string)
    ensures (exists i :: 0 <= i < |cases| && cases[i].name == n) ==>
              exists i :: 0 <= i < |cases| && cases[i].name == n && cases[i].raw == r
  {
    if cases == [] then ""
    else if cases[0].name == n then cases[0].raw
    else
      var r := RawOf(cases[1..], n);
      assert forall i :: 1 <= i < |cases| ==> cases[i] == cases[1..][i - 1];
      r
  }

  /** Writing a case as its raw value and reading it back with `DecodeEnum` gives the same case. */
  lemma DecodeEnumRawOf(e: EnumDesc, n: string)
    requires ValidEnum(e) && IsCase(e, n)
    ensures DecodeEnum(JString(RawOf(e.cases, n)), e) == n
  {
    var i :| 0 <= i < |e.cases| && e.cases[i].name == n && e.cases[i].raw == RawOf(e.cases, n);
    DecodeEnumExactMatch(e, i);
  }
}
