/**
 * The `@FlexibleJsonDecoder` member macro and the initializer it generates.
 * The syntax tree the macro walks is reduced to the few facts it inspects;
 * the generated `init(from:)` is modelled by its meaning: one statement per
 * extracted property, run in declaration order, each of which reads the
 * property's key with `decodeIfPresent` and falls back to the type's
 * `defaultValue()` when the key is absent or null. The `try` in front of
 * each statement lets a decoding error end the whole initializer.
 */
module FlexibleJsonDecoderMacro {
  import opened Wrappers
  import opened Json
  import opened DefaultValueProvider
  import opened JsonDecoder

  /** `let` or `var`: the macro treats both alike. */
  datatype Specifier = Let | Var

  /** The pattern of one binding: `name`, a tuple `(a, b)`, or `_`. */
  datatype Pattern = IdentifierPattern(identifier: string) | TuplePattern(elements: seq<Pattern>) | WildcardPattern

  /** One binding of a variable declaration, with its type annotation if it has one. */
  datatype Binding = Binding(pattern: Pattern, typeAnnotation: Option<TypeDesc>, hasInitializer: bool)

  /** A member of a declaration group: a variable declaration or anything else (a function, an initializer, a nested type, ...). */
  datatype Member = VariableDecl(specifier: Specifier, bindings: seq<Binding>) | OtherDecl(kind: string)

  /** The declaration the macro is attached to. */
  datatype Declaration =
    | StructDecl(name: string, members: seq<Member>)
    | OtherDeclGroup(kind: string, name: string, members: seq<Member>)

  /** A stored property as the macro sees it: its name and its annotated type. */
  datatype Property = Property(name: string, ty: TypeDesc)

  /** `self.name = try container.decodeIfPresent(T.self, forKey: .name) ?? T.defaultValue()` */
  datatype DecodeStatement = DecodeStatement(name: string, ty: TypeDesc)

  /** Why the generated initializer throws. */
  datatype DecodeError =
    | NotAKeyedContainer
    | TypeMismatch(key: string)

  /**
   * The closure given to `compactMap`: a variable declaration whose first
   * binding is a plain identifier with a type annotation gives that
   * identifier and type; every other member gives nothing.
   */
  function PropertyOf(m: Member): Option<Property> {
    if m.VariableDecl? && |m.bindings| > 0
       && m.bindings[0].pattern.IdentifierPattern? && m.bindings[0].typeAnnotation.Some?
    then Some(Property(m.bindings[0].pattern.identifier, m.bindings[0].typeAnnotation.value))
    else None
  }

  /**
   * The properties of a struct, in declaration order: every member that
   * `PropertyOf` accepts gives one property and every other member is skipped.
   */
  function ExtractProperties(members: seq<Member>): (props: seq<Property>)
    ensures |props| <= |members|
    ensures |props| == |members| <==> forall i :: 0 <= i < |members| ==> PropertyOf(members[i]).Some?
  {
    if members == [] then []
    else
      var rest := ExtractProperties(members[1..]);
      assert forall i :: 1 <= i < |members| ==> members[i] == members[1..][i - 1];
      match PropertyOf(members[0])
      case Some(p) => [p] + rest
      case None => rest
  }

  /** Every extracted property comes from a member that `PropertyOf` accepts, and every such member gives one. */
  lemma {:induction false} ExtractPropertiesExactly(members: seq<Member>)
    ensures forall p :: p in ExtractProperties(members) ==> exists i :: 0 <= i < |members| && PropertyOf(members[i]) == Some(p)
    ensures forall i :: 0 <= i < |members| && PropertyOf(members[i]).Some? ==> PropertyOf(members[i]).value in ExtractProperties(members)
  {
    if members != [] {
      ExtractPropertiesExactly(members[1..]);
      assert forall i :: 1 <= i < |members| ==> members[i] == members[1..][i - 1];
    }
  }

  /** Extraction distributes over concatenation of member lists. */
  lemma {:induction false} ExtractPropertiesAppend(a: seq<Member>, b: seq<Member>)
    ensures ExtractProperties(a + b) == ExtractProperties(a) + ExtractProperties(b)
  {
    if a == [] {
      assert a + b == b;
    } else {
      assert (a + b)[0] == a[0] && (a + b)[1..] == a[1..] + b;
      ExtractPropertiesAppend(a[1..], b);
    }
  }

  /** A member that is extracted is the first property extracted from a list that starts with it. */
  lemma ExtractPropertiesHead(m: Member, rest: seq<Member>)
    requires PropertyOf(m).Some?
    ensures ExtractProperties([m] + rest) == [PropertyOf(m).value] + ExtractProperties(rest)
  {
    assert ([m] + rest)[1..] == rest;
  }

  /** Extraction keeps declaration order: of two extracted members, the earlier one's property comes first. */
  lemma {:induction false} ExtractPropertiesKeepsOrder(members: seq<Member>, i: nat, j: nat)
    requires i < j < |members|
    requires PropertyOf(members[i]).Some? && PropertyOf(members[j]).Some?
    ensures exists p, q :: 0 <= p < q < |ExtractProperties(members)|
                           && ExtractProperties(members)[p] == PropertyOf(members[i]).value
                           && ExtractProperties(members)[q] == PropertyOf(members[j]).value
  {
    var before, after := members[..j], members[j..];
    var x, y := PropertyOf(members[i]).value, PropertyOf(members[j]).value;
    var pre, post := ExtractProperties(before), ExtractProperties(after);
    var props := ExtractProperties(members);
    assert props == pre + post by {
      assert members == before + after;
      ExtractPropertiesAppend(before, after);
    }
    assert post[0] == y by {
      assert after == [members[j]] + after[1..];
      ExtractPropertiesHead(members[j], after[1..]);
    }
    assert x in pre by {
      assert before[i] == members[i];
      ExtractPropertiesExactly(before);
    }
    var p :| 0 <= p < |pre| && pre[p] == x;
    var q := |pre|;
    assert 0 <= p < q < |props| && props[p] == x && props[q] == y;
  }

  /** When every member is a property, extraction keeps all of them, each at its member's position. */
  lemma {:induction false} ExtractPropertiesKeepsAll(members: seq<Member>)
    requires forall i :: 0 <= i < |members| ==> PropertyOf(members[i]).Some?
    ensures |ExtractProperties(members)| == |members|
    ensures forall i :: 0 <= i < |members| ==> ExtractProperties(members)[i] == PropertyOf(members[i]).value
  {
    if members != [] {
      assert members == [members[0]] + members[1..];
      ExtractPropertiesHead(members[0], members[1..]);
      ExtractPropertiesKeepsAll(members[1..]);
    }
  }

  /**
   * Neither `let` nor `var`, nor whether the binding has an initial value,
   * changes what the macro extracts.
   */
  lemma PropertyOfIgnoresSpecifierAndInitializer(s1: Specifier, s2: Specifier, p: Pattern, a: Option<TypeDesc>,
                                                 h1: bool, h2: bool, later: seq<Binding>)
    ensures PropertyOf(VariableDecl(s1, [Binding(p, a, h1)] + later)) == PropertyOf(VariableDecl(s2, [Binding(p, a, h2)] + later))
  {
  }

  /**
   * `let x: Int = 5` is extracted like any other typed property, although the
   * generated initializer may not assign an initialized `let` again.
   */
  lemma InitializedLetIsExtracted(name: string, t: TypeDesc)
    ensures ExtractProperties([VariableDecl(Let, [Binding(IdentifierPattern(name), Some(t), true)])]) == [Property(name, t)]
  {
  }

  /** Only the first binding of a declaration is looked at: `var a: Int, b: String` gives only `a`. */
  lemma LaterBindingsIgnored(s: Specifier, first: Binding, later: seq<Binding>)
    ensures PropertyOf(VariableDecl(s, [first] + later)) == PropertyOf(VariableDecl(s, [first]))
  {
  }

  /**
   * `expansion(of:providingMembersOf:in:)`: the body of the generated
   * `init(from:)`. Attaching the macro to anything but a struct stops the
   * compiler (`fatalError()`), which the model makes a precondition.
   */
  function Expand(decl: Declaration): (stmts: seq<DecodeStatement>)
    requires decl.StructDecl?
    ensures |stmts| == |ExtractProperties(decl.members)|
    ensures forall k :: 0 <= k < |stmts| ==>
              stmts[k].name == ExtractProperties(decl.members)[k].name && stmts[k].ty == ExtractProperties(decl.members)[k].ty
  {
    var props := ExtractProperties(decl.members);
    seq(|props|, k requires 0 <= k < |props| => DecodeStatement(props[k].name, props[k].ty))
  }

  /**
   * One generated statement: an absent or null key gives `T.defaultValue()`,
   * a present value is decoded as `T`, and a present value that cannot be
   * decoded as `T` is an error. An enum type never gives an error.
   */
  function DecodeField(doc: map<string, JsonValue>, name: string, t: TypeDesc): (r: Result<Value, DecodeError>)
    requires WellFormed(t)
    ensures r.Ok? ==> HasType(r.value, t)
    ensures (name !in doc || doc[name] == JNull) ==> r == Ok(DefaultValue(t))
    ensures name in doc && doc[name] != JNull ==>
              (r.Ok? <==> ParseValue(doc[name], t).Some?) && (r.Ok? ==> Some(r.value) == ParseValue(doc[name], t))
    ensures r.Err? ==> r.error == TypeMismatch(name)
    ensures Lenient(t) ==> r.Ok?
  {
    match Lookup(doc, name)
    case Absent => Ok(DefaultValue(t))
    case Null => Ok(DefaultValue(t))
    case Present(j) =>
      (match ParseValue(j, t)
       case Some(v) => Ok(v)
       case None => Err(TypeMismatch(name)))
  }

  /** Every statement's type has a `defaultValue()`; otherwise the generated code does not compile. */
  predicate Compiles(stmts: seq<DecodeStatement>) {
    forall k :: 0 <= k < |stmts| ==> WellFormed(stmts[k].ty)
  }

  /**
   * Runs the generated statements in order on the keyed container. The
   * record is the sequence of property values; the first statement that
   * throws ends the initializer with its error.
   */
  function DecodeRecord(doc: map<string, JsonValue>, stmts: seq<DecodeStatement>): (r: Result<seq<Value>, DecodeError>)
    requires Compiles(stmts)
    ensures r.Ok? <==> forall k :: 0 <= k < |stmts| ==> DecodeField(doc, stmts[k].name, stmts[k].ty).Ok?
    ensures r.Ok? ==> |r.value| == |stmts|
    ensures r.Ok? ==> forall k :: 0 <= k < |stmts| ==> DecodeField(doc, stmts[k].name, stmts[k].ty) == Ok(r.value[k])
    ensures r.Err? ==> exists k :: 0 <= k < |stmts| && DecodeField(doc, stmts[k].name, stmts[k].ty) == Err(r.error)
                                   && forall p :: 0 <= p < k ==> DecodeField(doc, stmts[p].name, stmts[p].ty).Ok?
  {
    if stmts == [] then Ok([])
    else
      assert forall k :: 1 <= k < |stmts| ==> stmts[k] == stmts[1..][k - 1];
      match DecodeField(doc, stmts[0].name, stmts[0].ty)
      case Err(e) => Err(e)
      case Ok(v) =>
        (match DecodeRecord(doc, stmts[1..])
         case Err(e) => Err(e)
         case Ok(vs) => Ok([v] + vs))
  }

  /**
   * The generated `init(from:)`: `decoder.container(keyedBy:)` throws unless
   * the document is a JSON object, then the statements run in order.
   */
  function InitFromDecoder(top: JsonValue, stmts: seq<DecodeStatement>): (r: Result<seq<Value>, DecodeError>)
    requires Compiles(stmts)
    ensures !top.JObject? ==> r == Err(NotAKeyedContainer)
    ensures top.JObject? ==> r == DecodeRecord(top.fields, stmts)
    ensures r.Ok? ==> |r.value| == |stmts| && forall k :: 0 <= k < |stmts| ==> HasType(r.value[k], stmts[k].ty)
  {
    if top.JObject? then DecodeRecord(top.fields, stmts) else Err(NotAKeyedContainer)
  }

  /** A record decodes to the values its statements give one by one, when none of them throws. */
  lemma DecodeRecordOfFields(doc: map<string, JsonValue>, stmts: seq<DecodeStatement>, values: seq<Value>)
    requires Compiles(stmts) && |values| == |stmts|
    requires forall k :: 0 <= k < |stmts| ==> DecodeField(doc, stmts[k].name, stmts[k].ty) == Ok(values[k])
    ensures DecodeRecord(doc, stmts) == Ok(values)
  {
    var r := DecodeRecord(doc, stmts);
    assert r.value == values;
  }

  /** An empty object decodes to the record whose every property holds its type's default. */
  lemma EmptyDocumentGivesDefaults(stmts: seq<DecodeStatement>)
    requires Compiles(stmts)
    ensures DecodeRecord(map[], stmts).Ok?
    ensures forall k :: 0 <= k < |stmts| ==> DecodeRecord(map[], stmts).value[k] == DefaultValue(stmts[k].ty)
  {
  }

  /** A record whose properties are all (optional) enums always decodes: bad data never makes it throw. */
  lemma EnumRecordNeverFails(doc: map<string, JsonValue>, stmts: seq<DecodeStatement>)
    requires Compiles(stmts)
    requires forall k :: 0 <= k < |stmts| ==> Lenient(stmts[k].ty)
    ensures DecodeRecord(doc, stmts).Ok?
  {
  }

  /** Any property whose type is not an (optional) enum has a present value that makes the whole record throw. */
  lemma StrictFieldCanFailRecord(doc: map<string, JsonValue>, stmts: seq<DecodeStatement>, k: nat)
    requires Compiles(stmts) && k < |stmts| && !Lenient(stmts[k].ty)
    ensures DecodeRecord(doc[stmts[k].name := Mismatch(stmts[k].ty)], stmts).Err?
  {
    StrictTypesCanFail(stmts[k].ty);
    var bad := doc[stmts[k].name := Mismatch(stmts[k].ty)];
    assert DecodeField(bad, stmts[k].name, stmts[k].ty).Err?;
  }

  /** Keys that name no property, and the values under them, do not affect the result. */
  lemma {:induction false} DecodeRecordReadsOnlyItsKeys(doc1: map<string, JsonValue>, doc2: map<string, JsonValue>, stmts: seq<DecodeStatement>)
    requires Compiles(stmts)
    requires forall k :: 0 <= k < |stmts| ==> Lookup(doc1, stmts[k].name) == Lookup(doc2, stmts[k].name)
    ensures DecodeRecord(doc1, stmts) == DecodeRecord(doc2, stmts)
  {
    if stmts != [] {
      assert Lookup(doc1, stmts[0].name) == Lookup(doc2, stmts[0].name);
      assert forall k :: 1 <= k < |stmts| ==> stmts[k] == stmts[1..][k - 1];
      DecodeRecordReadsOnlyItsKeys(doc1, doc2, stmts[1..]);
    }
  }

  /** The names of the statements are pairwise distinct, as Swift's property names are. */
  predicate DistinctNames(stmts: seq<DecodeStatement>) {
    forall i, j :: 0 <= i < j < |stmts| ==> stmts[i].name != stmts[j].name
  }

  /** A JSON object holding each property's encoded value under its name. */
  function EncodeRecord(stmts: seq<DecodeStatement>, values: seq<Value>): (doc: map<string, JsonValue>)
    requires |stmts| == |values|
    requires DistinctNames(stmts)
    ensures forall k :: 0 <= k < |stmts| ==> stmts[k].name in doc && doc[stmts[k].name] == Encode(values[k], stmts[k].ty)
  {
    if stmts == [] then map[]
    else
      var rest := EncodeRecord(stmts[1..], values[1..]);
      assert forall k :: 1 <= k < |stmts| ==> stmts[k] == stmts[1..][k - 1] && values[k] == values[1..][k - 1];
      rest[stmts[0].name := Encode(values[0], stmts[0].ty)]
  }

  /** A record written out with every property present decodes back to itself. */
  lemma RecordRoundTrip(stmts: seq<DecodeStatement>, values: seq<Value>)
    requires |stmts| == |values| && DistinctNames(stmts)
    requires forall k :: 0 <= k < |stmts| ==> Representable(stmts[k].ty) && HasType(values[k], stmts[k].ty)
    ensures Compiles(stmts)
    ensures DecodeRecord(EncodeRecord(stmts, values), stmts) == Ok(values)
  {
    var doc := EncodeRecord(stmts, values);
    forall k | 0 <= k < |stmts|
      ensures WellFormed(stmts[k].ty)
      ensures DecodeField(doc, stmts[k].name, stmts[k].ty) == Ok(values[k])
    {
      RepresentableHasDefault(stmts[k].ty);
      RoundTrip(values[k], stmts[k].ty);
      EncodeNullOnlyForNil(values[k], stmts[k].ty);
    }
    var r := DecodeRecord(doc, stmts);
    assert r.value == values;
  }

  /** Every type the encoder can write has a default. */
  lemma {:induction false} RepresentableHasDefault(t: TypeDesc)
    requires Representable(t)
    ensures WellFormed(t)
  {
    match t
    case TArray(el) => RepresentableHasDefault(el);
    case TDict(_, vt) => RepresentableHasDefault(vt);
    case TOptional(w) => RepresentableHasDefault(w);
    case _ =>
  }
}
