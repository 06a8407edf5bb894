/**
 * The package's two test structs, decoded through the whole model: the
 * macro's expansion of the struct, then the generated initializer on the
 * test's JSON object.
 */
module Scenarios {
  import opened Wrappers
  import opened Json
  import opened DefaultValueProvider
  import opened JsonDecoder
  import opened FlexibleJsonDecoderMacro

  /** `enum UserRole: String, DefaultEnumProvider { case admin, user, guest }` with `defaultCase` `.guest`. */
  const UserRole: EnumDesc :=
    EnumDesc([EnumCase("admin", "admin"), EnumCase("user", "user"), EnumCase("guest", "guest")], "guest")

  /** A one-binding stored property `let name: T` or `var name: T = ...`. */
  function StoredProperty(s: Specifier, name: string, t: TypeDesc, hasInitializer: bool): Member {
    VariableDecl(s, [Binding(IdentifierPattern(name), Some(t), hasInitializer)])
  }

  /** The `User` struct of the defaults test. */
  const UserWithRole: Declaration :=
    StructDecl("User", [
      StoredProperty(Let, "id", TInt, false),
      StoredProperty(Let, "name", TString, false),
      StoredProperty(Let, "email", TString, false),
      StoredProperty(Let, "isActive", TBool, false),
      StoredProperty(Let, "role", TEnum(UserRole), false)
    ])

  /** The `User` struct of the full-JSON test, whose two `var` properties have initial values. */
  const UserWithInitialValues: Declaration :=
    StructDecl("User", [
      StoredProperty(Let, "id", TInt, false),
      StoredProperty(Var, "name", TString, true),
      StoredProperty(Var, "email", TString, true)
    ])

  lemma UserRoleIsValid()
    ensures ValidEnum(UserRole)
  {
  }

  /** The enum decodes raw values exactly: "user" is `.user`, while "User" and "in_valid" fall back to `.guest`. */
  lemma UserRoleDecoding()
    ensures DecodeEnum(JString("user"), UserRole) == "user"
    ensures DecodeEnum(JString("User"), UserRole) == "guest"
    ensures DecodeEnum(JString("in_valid"), UserRole) == "guest"
    ensures DecodeEnum(JNumber(1.0), UserRole) == "guest"
  {
  }

  /** The object of the defaults test. */
  const DefaultsTestJson: map<string, JsonValue> := map["id" := JNumber(1.0), "role" := JString("in_valid")]

  /** The generated statements for `UserWithRole`. */
  const UserWithRoleStatements: seq<DecodeStatement> :=
    [DecodeStatement("id", TInt), DecodeStatement("name", TString), DecodeStatement("email", TString),
     DecodeStatement("isActive", TBool), DecodeStatement("role", TEnum(UserRole))]

  /** The number 1 under "id" decodes as the `Int` 1. */
  lemma DefaultsTestId()
    ensures DecodeField(DefaultsTestJson, "id", TInt) == Ok(VInt(1))
  {
    assert IsIntegral(1.0);
    assert Lookup(DefaultsTestJson, "id") == Present(JNumber(1.0));
  }

  /** "in_valid" under "role" falls back to `.guest`. */
  lemma DefaultsTestRole()
    ensures ValidEnum(UserRole)
    ensures DecodeField(DefaultsTestJson, "role", TEnum(UserRole)) == Ok(VCase("guest"))
  {
    UserRoleIsValid();
    UserRoleDecoding();
    assert Lookup(DefaultsTestJson, "role") == Present(JString("in_valid"));
  }

  /** Each statement of `UserWithRole` on the defaults test's object. */
  lemma DefaultsTestFields()
    ensures ValidEnum(UserRole)
    ensures DecodeField(DefaultsTestJson, "id", TInt) == Ok(VInt(1))
    ensures DecodeField(DefaultsTestJson, "name", TString) == Ok(VString(""))
    ensures DecodeField(DefaultsTestJson, "email", TString) == Ok(VString(""))
    ensures DecodeField(DefaultsTestJson, "isActive", TBool) == Ok(VBool(false))
    ensures DecodeField(DefaultsTestJson, "role", TEnum(UserRole)) == Ok(VCase("guest"))
  {
    DefaultsTestId();
    DefaultsTestRole();
    assert "name" !in DefaultsTestJson && "email" !in DefaultsTestJson && "isActive" !in DefaultsTestJson;
  }

  /** The macro extracts all five properties of `UserWithRole`, in order. */
  lemma ExpandUserWithRole()
    ensures Expand(UserWithRole) == UserWithRoleStatements
  {
    ExtractPropertiesKeepsAll(UserWithRole.members);
  }

  /** The statements of `UserWithRole`, run on the defaults test's object. */
  lemma DefaultsTestRecord()
    ensures Compiles(UserWithRoleStatements)
    ensures DecodeRecord(DefaultsTestJson, UserWithRoleStatements)
            == Ok([VInt(1), VString(""), VString(""), VBool(false), VCase("guest")])
  {
    UserRoleIsValid();
    DefaultsTestFields();
    var values := [VInt(1), VString(""), VString(""), VBool(false), VCase("guest")];
    var stmts := UserWithRoleStatements;
    forall k | 0 <= k < |stmts|
      ensures DecodeField(DefaultsTestJson, stmts[k].name, stmts[k].ty) == Ok(values[k])
    {
    }
    DecodeRecordOfFields(DefaultsTestJson, stmts, values);
  }

  /** `{"id": 1, "role": "in_valid"}` gives id 1, empty name and email, `false`, and the fallback role. */
  lemma DecodingWithDefaults()
    ensures Compiles(Expand(UserWithRole))
    ensures InitFromDecoder(JObject(DefaultsTestJson), Expand(UserWithRole))
            == Ok([VInt(1), VString(""), VString(""), VBool(false), VCase("guest")])
  {
    UserRoleIsValid();
    ExpandUserWithRole();
    DefaultsTestRecord();
  }

  /** The object of the full-JSON test. */
  const FullTestJson: map<string, JsonValue> :=
    map["id" := JNumber(2.0), "name" := JString("Alice"), "email" := JString("alice@example.com")]

  /** The generated statements for `UserWithInitialValues`. */
  const UserWithInitialValuesStatements: seq<DecodeStatement> :=
    [DecodeStatement("id", TInt), DecodeStatement("name", TString), DecodeStatement("email", TString)]

  /** The macro extracts all three properties of `UserWithInitialValues`, initial values notwithstanding. */
  lemma ExpandUserWithInitialValues()
    ensures Expand(UserWithInitialValues) == UserWithInitialValuesStatements
  {
    ExtractPropertiesKeepsAll(UserWithInitialValues.members);
  }

  /** The statements of `UserWithInitialValues`, run on the full-JSON test's object. */
  lemma FullTestRecord()
    ensures Compiles(UserWithInitialValuesStatements)
    ensures DecodeRecord(FullTestJson, UserWithInitialValuesStatements)
            == Ok([VInt(2), VString("Alice"), VString("alice@example.com")])
  {
    assert IsIntegral(2.0);
    assert DecodeField(FullTestJson, "id", TInt) == Ok(VInt(2));
    var values := [VInt(2), VString("Alice"), VString("alice@example.com")];
    var stmts := UserWithInitialValuesStatements;
    forall k | 0 <= k < |stmts|
      ensures DecodeField(FullTestJson, stmts[k].name, stmts[k].ty) == Ok(values[k])
    {
    }
    DecodeRecordOfFields(FullTestJson, stmts, values);
  }

  /** `{"id": 2, "name": "Alice", "email": "alice@example.com"}` gives exactly those values. */
  lemma DecodingWithFullJson()
    ensures Compiles(Expand(UserWithInitialValues))
    ensures InitFromDecoder(JObject(FullTestJson), Expand(UserWithInitialValues))
            == Ok([VInt(2), VString("Alice"), VString("alice@example.com")])
  {
    ExpandUserWithInitialValues();
    FullTestRecord();
  }

  /** A present value of the wrong kind for a non-enum property makes the whole initializer throw. */
  lemma WrongKindThrows()
    ensures Compiles(Expand(UserWithInitialValues))
    ensures InitFromDecoder(JObject(map["id" := JString("1")]), Expand(UserWithInitialValues)) == Err(TypeMismatch("id"))
  {
    ExpandUserWithInitialValues();
    assert DecodeField(map["id" := JString("1")], "id", TInt).Err?;
  }
}
