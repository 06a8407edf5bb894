# FlexibleJsonDecoder in Dafny

This project models the Swift package FlexibleJsonDecoder. The package provides a `@FlexibleJsonDecoder` member macro for structs. The macro writes an `init(from:)` that reads each property it extracts with `decodeIfPresent` and falls back to `T.defaultValue()` when the key is missing or null. It extracts a member when the member is a variable declaration whose first binding is a plain name with a type annotation. Other stored properties are not read: `var count = 0` (no annotation) and the second binding of `var a: Int = 0, b: Int = 1` keep their initial values. A registry of default values (`DefaultValueProvider`) backs it, together with a protocol for `RawRepresentable` enums (`DefaultEnumProvider`) whose decoder falls back to a declared `defaultCase` instead of failing.

Modules:

- `Wrappers` (wrappers.dfy): `Option` and `Result`.
- `Json` (json.dfy): the already-parsed JSON tree the decoder reads.
- `DefaultValueProvider` (default_value_provider.dfy): the type descriptor `TypeDesc`, decoded values `Value`, enum descriptors, and conditional conformance as the predicate `WellFormed`. It also holds `DefaultValue` and the enum fallback decoder `DecodeEnum`.
- `JsonDecoder` (json_decoder.dfy): the part of Foundation's `JSONDecoder` the generated code calls. `Lookup` classifies a key as absent, null or present. `ParseValue` decodes a present value as a given type. `Encode` is the partner that writes values back, with a round-trip proof.
- `FlexibleJsonDecoderMacro` (flexible_json_decoder_macro.dfy): property extraction from a struct's members (`ExtractProperties`), the expansion into decode statements (`Expand`), one statement's meaning (`DecodeField`), and the generated initializer (`DecodeRecord`, `InitFromDecoder`).
- `Scenarios` (scenarios.dfy): the package's two test structs decoded end to end.

Behaviour that follows the code rather than the package's description:

- The package is described as absorbing every data problem into defaults. The generated statement is `try container.decodeIfPresent(T.self, forKey: .name) ?? T.defaultValue()`, so only an absent key or a JSON null gives the default.
- A present value that does not decode as `T` throws, and the `try` ends the whole initializer. An `Int` property holding `"1"` is one example. This holds for optionals too: a present non-null value must decode as the wrapped type.
- Only enum types absorb bad data, because `DefaultEnumProvider.init(from:)` never throws on it. The same is true of optionals of enums. `NeverFailsIffLenient` proves these are the only such types.
- Arrays and dictionaries fail as a whole when one element fails. An enum element never fails, so it falls back on its own.

## Model

| member | source | states |
|---|---|---|
| `DefaultValueProvider.DefaultValue` | Sources/FlexibleJsonDecoder/DefaultValueProvider.swift:10-53 | every type with a `DefaultValueProvider` conformance has a default, and that default is a value of the type |
| `DefaultValueProvider.PrimitiveDefaults` | Sources/FlexibleJsonDecoder/DefaultValueProvider.swift:16-30 | the defaults of `Int`, `String`, `Bool` and `Double` are 0, "", false and 0.0 |
| `DefaultValueProvider.ContainerDefaultsAreEmpty` | Sources/FlexibleJsonDecoder/DefaultValueProvider.swift:32-38 | an array's default is empty and a dictionary's is empty, whatever the element, key and value types |
| `DefaultValueProvider.ConditionalConformance` | Sources/FlexibleJsonDecoder/DefaultValueProvider.swift:32-43 | `Array`, `Optional` and `Dictionary` have a default exactly when the element, wrapped or value type has one; the dictionary key type does not matter; a type without a conformance has no default |
| `DefaultValueProvider.OptionalDefaultIsNil` | Sources/FlexibleJsonDecoder/DefaultValueProvider.swift:40-43 | the default of an optional is `nil`, which differs from every wrapped value, including the wrapped type's own default |
| `DefaultValueProvider.EnumDefaultIsDeclaredCase` | Sources/FlexibleJsonDecoder/DefaultValueProvider.swift:45-53 | an enum's default is its declared `defaultCase`, which is one of its cases |
| `DefaultValueProvider.CaseForRaw` | Sources/FlexibleJsonDecoder/DefaultValueProvider.swift:61 | `Self(rawValue:)` finds nothing exactly when no case has that raw value; otherwise it finds the first case, in declaration order, whose raw value is exactly the string |
| `DefaultValueProvider.DecodeEnum` | Sources/FlexibleJsonDecoder/DefaultValueProvider.swift:57-66 | a string that equals some raw value gives a case with that raw value; anything else gives `defaultCase`; the result is always a case of the enum |
| `DefaultValueProvider.DecodeEnumExactMatch` | Sources/FlexibleJsonDecoder/DefaultValueProvider.swift:59-62 | a string that is exactly case i's raw value decodes to case i and no other |
| `DefaultValueProvider.DecodeEnumFallback` | Sources/FlexibleJsonDecoder/DefaultValueProvider.swift:63-65 | a non-string value, or a string that is no raw value, decodes to `defaultCase` |
| `DefaultValueProvider.DecodeEnumRawOf` | Sources/FlexibleJsonDecoder/DefaultValueProvider.swift:57-66 | writing a case as its raw value and decoding it gives back the same case |
| `JsonDecoder.Lookup` | Sources/FlexibleJsonDecoderMacros/FlexibleJsonDecoderMacro.swift:49 | `decodeIfPresent` sees a key as absent, null, or present with a non-null value, and these three cases cover every document |
| `JsonDecoder.ParseValue` | Sources/FlexibleJsonDecoderMacros/FlexibleJsonDecoderMacro.swift:49 | a successful decode gives a value of the requested type, and decoding an (optional) enum never fails |
| `JsonDecoder.ParseItems` | Sources/FlexibleJsonDecoderMacros/FlexibleJsonDecoderMacro.swift:49 | an array decodes exactly when every element does, to the elements' decoded values in order |
| `JsonDecoder.ParseFields` | Sources/FlexibleJsonDecoderMacros/FlexibleJsonDecoderMacro.swift:49 | a String-keyed dictionary decodes exactly when every member does, with one entry per JSON member holding that member's decoded value |
| `JsonDecoder.StrictTypesCanFail` | Sources/FlexibleJsonDecoderMacros/FlexibleJsonDecoderMacro.swift:49 | for every type other than an (optional) enum, some present JSON value makes decoding fail |
| `JsonDecoder.NeverFailsIffLenient` | Sources/FlexibleJsonDecoder/DefaultValueProvider.swift:57-66 | decoding as a type succeeds on every JSON value if and only if the type is an enum, possibly wrapped in optionals |
| `JsonDecoder.RoundTrip` | Sources/FlexibleJsonDecoderMacros/FlexibleJsonDecoderMacro.swift:49 | decoding the JSON written for a well-typed value gives the value back (String dictionary keys, no optional of an optional) |
| `FlexibleJsonDecoderMacro.ExtractProperties` | Sources/FlexibleJsonDecoderMacros/FlexibleJsonDecoderMacro.swift:36-44 | at most one property per member, and one for every member exactly when every member is a typed identifier declaration |
| `FlexibleJsonDecoderMacro.ExtractPropertiesExactly` | Sources/FlexibleJsonDecoderMacros/FlexibleJsonDecoderMacro.swift:36-44 | every extracted property comes from a variable declaration whose first binding is an identifier with a type annotation, and every such member gives its property |
| `FlexibleJsonDecoderMacro.ExtractPropertiesAppend` | Sources/FlexibleJsonDecoderMacros/FlexibleJsonDecoderMacro.swift:36 | extracting from two member lists joined is joining the two extractions: each member is judged on its own |
| `FlexibleJsonDecoderMacro.ExtractPropertiesKeepsOrder` | Sources/FlexibleJsonDecoderMacros/FlexibleJsonDecoderMacro.swift:36-44 | of two extracted members, the earlier member's property comes earlier in the result |
| `FlexibleJsonDecoderMacro.ExtractPropertiesKeepsAll` | Sources/FlexibleJsonDecoderMacros/FlexibleJsonDecoderMacro.swift:36-44 | when every member is a typed identifier declaration, property i is member i's |
| `FlexibleJsonDecoderMacro.PropertyOfIgnoresSpecifierAndInitializer` | Sources/FlexibleJsonDecoderMacros/FlexibleJsonDecoderMacro.swift:36-42 | whether a declaration uses `let` or `var`, and whether its binding has an initial value, does not change what is extracted |
| `FlexibleJsonDecoderMacro.InitializedLetIsExtracted` | Sources/FlexibleJsonDecoderMacros/FlexibleJsonDecoderMacro.swift:36-44 | `let x: T = ...` is extracted as the property `x` of type `T` |
| `FlexibleJsonDecoderMacro.LaterBindingsIgnored` | Sources/FlexibleJsonDecoderMacros/FlexibleJsonDecoderMacro.swift:38 | only the first binding of a declaration is looked at |
| `FlexibleJsonDecoderMacro.Expand` | Sources/FlexibleJsonDecoderMacros/FlexibleJsonDecoderMacro.swift:25-61 | the expansion of a struct has exactly one decode statement per extracted property, in the same order, with the same name and type |
| `FlexibleJsonDecoderMacro.DecodeField` | Sources/FlexibleJsonDecoderMacros/FlexibleJsonDecoderMacro.swift:49 | an absent or null key gives the type's default; a present value gives its decoded value or a mismatch error naming the key; a result is always of the property's type; an (optional) enum property never errs |
| `FlexibleJsonDecoderMacro.DecodeRecord` | Sources/FlexibleJsonDecoderMacros/FlexibleJsonDecoderMacro.swift:47-56 | the record decodes exactly when every statement does, to one value per statement in order; otherwise the error is the one from the first failing statement |
| `FlexibleJsonDecoderMacro.InitFromDecoder` | Sources/FlexibleJsonDecoderMacros/FlexibleJsonDecoderMacro.swift:53-57 | a document that is not a JSON object throws before any statement runs; a JSON object gives exactly what running the statements in order on its members gives; a decoded record has one value of the right type per property |
| `FlexibleJsonDecoderMacro.DecodeRecordOfFields` | Sources/FlexibleJsonDecoderMacros/FlexibleJsonDecoderMacro.swift:47-51 | when every statement succeeds, the record is exactly the statements' values |
| `FlexibleJsonDecoderMacro.EmptyDocumentGivesDefaults` | Sources/FlexibleJsonDecoderMacros/FlexibleJsonDecoderMacro.swift:49 | an empty object decodes to a record of per-property defaults |
| `FlexibleJsonDecoderMacro.EnumRecordNeverFails` | Sources/FlexibleJsonDecoderMacros/FlexibleJsonDecoderMacro.swift:49 | a record whose properties are all (optional) enums decodes from every object |
| `FlexibleJsonDecoderMacro.StrictFieldCanFailRecord` | Sources/FlexibleJsonDecoderMacros/FlexibleJsonDecoderMacro.swift:49 | putting a wrong-kind value under any property that is not an (optional) enum makes the whole record throw |
| `FlexibleJsonDecoderMacro.DecodeRecordReadsOnlyItsKeys` | Sources/FlexibleJsonDecoderMacros/FlexibleJsonDecoderMacro.swift:47-51 | two documents that agree on the properties' keys decode to the same result; other keys are ignored |
| `FlexibleJsonDecoderMacro.RecordRoundTrip` | Sources/FlexibleJsonDecoderMacros/FlexibleJsonDecoderMacro.swift:47-51 | a record written out with every property under its name decodes back to itself |
| `Scenarios.UserRoleDecoding` | Tests/FlexibleJsonDecoderTests/FlexibleJsonDecoderTests.swift:13-16 | "user" is `.user`, while "User", "in_valid" and a number fall back to `.guest`: matching is exact and case-sensitive |
| `Scenarios.DecodingWithDefaults` | Tests/FlexibleJsonDecoderTests/FlexibleJsonDecoderTests.swift:11-46 | `{"id":1,"role":"in_valid"}` against `id, name, email, isActive, role` decodes to 1, "", "", false, guest |
| `Scenarios.DecodingWithFullJson` | Tests/FlexibleJsonDecoderTests/FlexibleJsonDecoderTests.swift:50-72 | a document holding all three keys decodes to exactly 2, "Alice", "alice@example.com" |
| `Scenarios.WrongKindThrows` | Sources/FlexibleJsonDecoderMacros/FlexibleJsonDecoderMacro.swift:49 | `{"id":"1"}` for an `Int` property throws a mismatch for "id" instead of using the default |

## Left out

- The macro declaration in Sources/FlexibleJsonDecoder/FlexibleJsonDecoder.swift has no logic and is not modelled.
- SwiftSyntax is not modelled: syntax nodes, `DeclSyntax` construction, the text of the generated code, and the `CompilerPlugin` registration. `Member`, `Binding` and `Pattern` keep only what the macro inspects. A type annotation is given as its meaning (`TypeDesc`), not as its text.
- The Swift 6 `expansion` overload only forwards to the older one, so `Expand` covers both.
- Attaching the macro to something other than a struct calls `fatalError()` at compile time. `Expand` makes this a precondition.
- A property whose type has no `defaultValue()` makes the generated code fail to compile. `Compiles`, a precondition of `DecodeRecord`, stands for this.
- Modifiers, attributes and accessor blocks of a variable declaration (`static`, `private`, computed properties) are not represented. The macro does not look at them either.
- `FlexibleJsonDecoderMacro.Expand` and `DecodeRecord` decode every extracted member, including ones for which Swift rejects the generated initializer: an initialized `let` (`let x: Int = 5`, see `InitializedLetIsExtracted`), a computed property (`var y: Int { 1 }`) and a `static var`. The model does not say that such an expansion fails to compile.
- `FlexibleJsonDecoderMacro.Compiles` covers only a property type without `defaultValue()`. A stored property that is skipped and has no initial value (a later binding, a tuple pattern) also leaves the generated initializer uncompilable; the model does not capture this.
- `JsonDecoder.Lookup` and `FlexibleJsonDecoderMacro.DecodeField` take the JSON key to be the property name. A struct's own `CodingKeys` with other string values is not modelled.
- `DefaultValueProvider.WellFormed`: a type that the user makes conform to `DefaultValueProvider` (a nested struct, say) cannot be represented, because `TOther` never conforms.
- `DefaultValueProvider.CaseForRaw`, `DefaultValueProvider.DecodeEnum` and `JsonDecoder.Lookup` compare strings scalar by scalar. Swift's `String ==` uses Unicode canonical equivalence, so a raw value "caf\u{E9}" matches the JSON string "cafe\u0301" in Swift but not in the model. Key lookup differs in the same way.
- Turning bytes into JSON is Foundation's job and is not modelled; the model starts from a parsed `JsonValue`. So are the decoder's options (key and date strategies) and the coding path carried by its errors.
- `JsonDecoder.ParseValue`: Foundation's typeMismatch, valueNotFound and dataCorrupted errors are all one `TypeMismatch(key)` naming the property's key.
- `JsonDecoder.ParseValue`: `Double` is an exact rational with no rounding or overflow. A number too large for a 64-bit double is accepted, although Foundation rejects it.
- `JsonDecoder.ParseValue`: a dictionary whose key type is not `String` is treated as a mismatch. Swift reads a JSON object when the key type is `Int` or conforms to `CodingKeyRepresentable` (Swift 5.6 and later), and reads other key types from an array of alternating keys and values. Neither case is modelled.
- `JsonDecoder.RoundTrip` is stated only for types with String dictionary keys and no optional directly inside an optional. `.some(nil)` and `nil` are both written as JSON null, so such values cannot come back unchanged.
- `DefaultValueProvider.DecodeEnum`: the model fixes every enum's raw type to `String`. `DefaultEnumProvider` does not require this. For an enum with another raw type, the source traps on a JSON string at the forced cast `rawValue as! Self.RawValue` and gives `defaultCase` for every other JSON value. The model does not capture that trap.
- `decoder.singleValueContainer()` never throws for `JSONDecoder`, so `DecodeEnum` has no error path for it.
- The `print` calls in the tests are not modelled.
