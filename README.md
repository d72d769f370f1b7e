# CodableDictionary, modelled in Dafny

SwiftCodableDictionary provides `CodableDictionary<Key, Value>`. It wraps a Swift dictionary so
that the dictionary always encodes as a keyed, object-shaped container: one field per entry,
named by the key's `stringValue`. It decodes back from such a container. Key types conform to
`CodableDictionaryKey`, which is `Hashable` plus `CodingKey`. A `CodingKey` provides four
conversions:

- `stringValue`: the field name. It is total.
- `init?(stringValue:)`: parses a field name. It may fail.
- `intValue`: an optional integer form.
- `init?(intValue:)`: parses an integer. It may fail.

The library supplies these conversions for:

- every fixed-width integer type;
- `String`, `Substring`, `Unicode.Scalar`, `Character`, `Int` and `Bool`;
- every `RawRepresentable` type whose raw value is itself a key (by delegation);
- a separate branch for raw-value types whose raw value is `Int`.

The project has these modules:

- `Wrappers` (wrappers.dfy): `Option` for Swift optionals. `Result` for calls that may throw.
- `Decimal` (decimal.dfy): base-10 rendering and parsing of integers, with the parse proved to
  be the left inverse of the rendering.
- `Keys` (keys.dfy): the four conversions as a record of function values, `KeyCoding<K>`, and
  one group of functions per conformance.
  - A fixed-width integer is an `int` together with a `Width`, whose `Min` and `Max` are the
    Swift type's bounds. `Int` and `UInt` are 64 bits wide.
  - Lemmas prove each conformance's round trips and the boundary behaviour of its parses.
- `KeyedCoding` (keyed_coding.dfy): the serialisation framework's keyed container. It is a
  sequence of `(field name, encoded value)` pairs.
  - `AllKeys` is the container's `allKeys`: the keys of the field names the key type parses.
  - `DecodeForKey` is `decode(_:forKey:)`: it looks a key up by its `stringValue`.
- `Container` (container.dfy): the class `CodableDictionary`. Its field `dictionary: map<K, V>`
  is updated in place by the mutating members.
  - Each operation's new state is tied to a specification function: `Assigned`, `Merged`,
    `Grouped`, `Written`, `Decoded`.
  - Lemmas state what those functions mean. The main one is the encode/decode round trip,
    `DecodeEncodeRoundTrip`.
  - `encode(to:)` walks the dictionary in an order Swift does not specify. So `Encode` returns
    that order as a ghost value, proves that it lists every key exactly once, and proves that
    the written fields follow it.
- `Scenarios` (scenarios.dfy): the repository's test cases, stated and proved for the model.

### Field names on decoding

A field name the key type cannot parse is not an error. `init(from:)` iterates only
`container.allKeys` (Sources/CodableDictionary/CodableDictionary.swift:104), and that exposes
only the names that parse, so such a field is skipped. `Scenarios.OutOfRangeNameSkipped` and
`Scenarios.UnknownBooleanNameSkipped` show that decoding `{"256":"x"}` with `UInt8` keys, or
`{"maybe":"x"}` with `Bool` keys, gives an empty dictionary.

A consequence of the framework behaviour assumed here (see "## Left out"): a name that parses,
but is not its key's own `stringValue`, is exposed and then not found, because the value is
looked up under the key's `stringValue`. So the spellings y, yes, on, n, no and off of a `Bool`
key, or "007" and "+1" of an integer key, can never be decoded through `init(from:)`.
`Scenarios.NonCanonicalNameNotFound` shows that `{"yes":"x"}` with `Bool` keys fails with
"true" not found, and `{"007":"x"}` with `Int` keys fails with "7" not found.

## Model

| member | source | states |
|---|---|---|
| Decimal.ParseRender | Sources/CodableDictionary/CodableDictionaryKey.swift:23-34 | parsing the base-10 rendering of any integer gives that integer back |
| Decimal.RenderInjective | Sources/CodableDictionary/CodableDictionaryKey.swift:23-25 | distinct integers render to distinct field names |
| Decimal.RenderSingleCharacter | Sources/CodableDictionary/CodableDictionaryKey.swift:159-161 | a rendering is one character long exactly for 0...9, and is then that digit |
| Decimal.ParseSingleCharacter | Sources/CodableDictionary/CodableDictionaryKey.swift:147-149 | a one-character string parses exactly when it is a decimal digit, to that digit's value |
| Keys.FixedIntValue | Sources/CodableDictionary/CodableDictionaryKey.swift:27-30 | a fixed-width value has an integer form exactly when it lies in Int.min...Int.max, and the form is the value itself |
| Keys.FixedFromStringValue | Sources/CodableDictionary/CodableDictionaryKey.swift:32-34 | a field name gives a key exactly when it is a numeral whose value lies in the width's range, and the key is that value |
| Keys.FixedFromIntValue | Sources/CodableDictionary/CodableDictionaryKey.swift:36-39 | an integer gives a key exactly when it lies in Self.min...Self.max, and the key is that integer |
| Keys.FixedIntValueAbsence | Sources/CodableDictionary/CodableDictionaryKey.swift:27-30 | only UInt64 and UInt values above Int.max lack an integer form |
| Keys.FixedStringRoundTrip | Sources/CodableDictionary/CodableDictionaryKey.swift:23-34 | every value of every width round-trips through its field name |
| Keys.FixedIntRoundTrip | Sources/CodableDictionary/CodableDictionaryKey.swift:27-39 | the integer channel round-trips both ways for every width |
| Keys.IntKeyAgreesWithFixedWidth | Sources/CodableDictionary/CodableDictionaryKey.swift:185-193 | Int's own integer conversions agree with the fixed-width ones on Int's range, and Int keys round-trip on both channels |
| Keys.StringIntValue | Sources/CodableDictionary/CodableDictionaryKey.swift:111-113 | a String has an integer form exactly when it is a numeral within Int's range, and the form is its value |
| Keys.StringKeyRoundTrips | Sources/CodableDictionary/CodableDictionaryKey.swift:106-117 | every String round-trips through the field name |
| Keys.StringIntChannel | Sources/CodableDictionary/CodableDictionaryKey.swift:111-121 | the String key made from an Int gives that Int back as its integer form, so the integer channel round-trips on renderings of Int values |
| Keys.StringIntChannelNotInjective | Sources/CodableDictionary/CodableDictionaryKey.swift:111-121 | the integer channel does not round-trip from the String side: "007" has integer form 7, whose String key is "7" |
| Keys.SubstringKeyRoundTrips | Sources/CodableDictionary/CodableDictionaryKey.swift:124-135 | a Substring round-trips through the field name, and its integer form is that of the String it views |
| Keys.SubstringIntChannel | Sources/CodableDictionary/CodableDictionaryKey.swift:137-139 | the Substring key made from an Int views its rendering and gives the Int back as its integer form |
| Keys.SingleUnit | Sources/CodableDictionary/CodableDictionaryKey.swift:151-157 | the single-unit check succeeds exactly on one-unit inputs, with that unit |
| Keys.ScalarFromStringValue | Sources/CodableDictionary/CodableDictionaryKey.swift:151-157 | the Unicode.Scalar parse fails on the empty string and on two or more units, and otherwise gives that unit |
| Keys.ScalarKeyChannels | Sources/CodableDictionary/CodableDictionaryKey.swift:142-162 | a scalar round-trips through its name; it has an integer form exactly when it is a digit; the integer parse succeeds exactly on 0...9 |
| Keys.CharacterFromStringValue | Sources/CodableDictionary/CodableDictionaryKey.swift:173-178 | the Character parse fails on the empty string and on two or more characters, and otherwise gives that character |
| Keys.CharacterKeyChannels | Sources/CodableDictionary/CodableDictionaryKey.swift:164-183 | the same channel facts for Character |
| Keys.BoolFromStringValue | Sources/CodableDictionary/CodableDictionaryKey.swift:278-288 | gives true exactly for the lowercased spellings y, yes, true and on, false exactly for n, no, false and off, and nil otherwise |
| Keys.BoolKeyRoundTrips | Sources/CodableDictionary/CodableDictionaryKey.swift:269-293 | both channels of a Bool key round-trip |
| Keys.BoolParseIgnoresCase | Sources/CodableDictionary/CodableDictionaryKey.swift:278-288 | strings equal up to letter case parse alike |
| Keys.RawFromStringValue | Sources/CodableDictionary/CodableDictionaryKey.swift:51-54 | succeeds exactly when the raw type parses the name and a value has that raw value |
| Keys.RawFromIntValue | Sources/CodableDictionary/CodableDictionaryKey.swift:56-59 | succeeds exactly when the raw type parses the integer and a value has that raw value |
| Keys.RawKeyRoundTrips | Sources/CodableDictionary/CodableDictionaryKey.swift:42-60 | delegating to the raw value keeps each round trip the raw value has |
| Keys.CaseWithRawValue | Tests/CodableDictionaryTests/CodableDictionaryKeyTests.swift:22-34 | an enumeration's raw-value initialiser finds a case exactly when some case has that raw value, and the case it finds has it |
| Keys.EnumRepresentationLawful | Tests/CodableDictionaryTests/CodableDictionaryKeyTests.swift:22-34 | with distinct raw values, every case is recovered from its raw value |
| Keys.IntRawFromStringValue | Sources/CodableDictionary/CodableDictionaryKey.swift:72-75 | succeeds exactly when the name is an Int numeral that is some value's raw value |
| Keys.IntRawKeyIsDelegation | Sources/CodableDictionary/CodableDictionaryKey.swift:63-80 | the Int raw-value branch computes what delegation to Int's conversions would, so it keeps both round trips |
| KeyedCoding.AllKeys | Sources/CodableDictionary/CodableDictionary.swift:103-104 | every key exposed comes from a field whose name parses to it, and there are no more keys than fields |
| KeyedCoding.AllKeysComplete | Sources/CodableDictionary/CodableDictionary.swift:103-104 | conversely, the key of every field whose name parses is exposed |
| KeyedCoding.ValueNamed | Sources/CodableDictionary/CodableDictionary.swift:105 | a lookup by name succeeds exactly when a field has that name, and returns that field's value |
| Container.AssignedKeys | Sources/CodableDictionary/CodableDictionary.swift:33-38 | assigning pairs in turn gives exactly the keys of the pairs |
| Container.AssignedLastWins | Sources/CodableDictionary/CodableDictionary.swift:110-116 | a repeated key keeps the value of its last occurrence |
| Container.AssignedIsMergeKeepingNew | Sources/CodableDictionary/CodableDictionary.swift:30-46 | assigning in turn is the same as merging into an empty dictionary and keeping the newer value |
| Container.MergedKeys | Sources/CodableDictionary/CodableDictionary.swift:207-212 | a merge keeps the keys of both sides and adds no others |
| Container.MergedUntouched | Sources/CodableDictionary/CodableDictionary.swift:207-212 | a key the pairs do not mention keeps its value |
| Container.MergedOnce | Sources/CodableDictionary/CodableDictionary.swift:207-212 | a key mentioned once gets combine(old, new) if it was present, and the new value otherwise |
| Container.GroupedSpec | Sources/CodableDictionary/CodableDictionary.swift:48-53 | the groups are exactly the elements' keys, and each group lists the elements with that key in their original order |
| Container.ListsLength | Sources/CodableDictionary/CodableDictionary.swift:90-96 | a walk that visits every key once is as long as the dictionary is large |
| Container.SingleEntryEncoding | Sources/CodableDictionary/CodableDictionary.swift:90-96 | a one-entry dictionary encodes as the single field for that entry, whatever the walk order |
| Container.WrittenNamesDistinct | Sources/CodableDictionary/CodableDictionary.swift:90-96 | distinct keys that round-trip get distinct field names, so no field is written twice |
| Container.DecodeKeysOutcome | Sources/CodableDictionary/CodableDictionary.swift:99-107 | decoding succeeds exactly when every key decodes; on success the result has exactly those keys with their decoded values; on failure the error is that of the first failing key |
| Container.DecodeKeysFailurePersists | Sources/CodableDictionary/CodableDictionary.swift:104-106 | once a prefix of the keys has failed, the keys after it change nothing |
| Container.DecodeKeysAllSucceed | Sources/CodableDictionary/CodableDictionary.swift:104-106 | when every key decodes to the value a map holds for it, decoding gives that map restricted to the keys |
| Container.AllKeysOfWritten | Sources/CodableDictionary/CodableDictionary.swift:90-107 | the container written by encoding exposes exactly the keys written, in writing order |
| Container.ValueNamedInWritten | Sources/CodableDictionary/CodableDictionary.swift:90-107 | the field named after a written key holds that key's encoded value |
| Container.DecodeEncodeRoundTrip | Sources/CodableDictionary/CodableDictionary.swift:90-107 | decoding what encoding wrote gives the dictionary back, when every key round-trips through its name and every value through its own coding |
| Container.CodableDictionary.constructor | Sources/CodableDictionary/CodableDictionary.swift:19-21 | the new dictionary is empty |
| Container.CodableDictionary.WithMinimumCapacity | Sources/CodableDictionary/CodableDictionary.swift:25-27 | the new dictionary is empty, whatever capacity is requested |
| Container.CodableDictionary.FromDictionary | Sources/CodableDictionary/CodableDictionary.swift:31-32 | a Dictionary argument is wrapped unchanged |
| Container.CodableDictionary.UniqueKeysWithValues | Sources/CodableDictionary/CodableDictionary.swift:33-38 | any other sequence of pairs is assigned in turn; the loop's result is Assigned of the pairs |
| Container.CodableDictionary.UniquingKeysWith | Sources/CodableDictionary/CodableDictionary.swift:43-46 | the pairs are merged into an empty dictionary with the combining closure |
| Container.CodableDictionary.DictionaryLiteral | Sources/CodableDictionary/CodableDictionary.swift:110-116 | the literal's elements are assigned in turn, so a later duplicate overwrites an earlier one |
| Container.Grouping | Sources/CodableDictionary/CodableDictionary.swift:48-53 | the new dictionary is the grouping of the elements by their key |
| Container.CodableDictionary.IsEmpty | Sources/CodableDictionary/CodableDictionary.swift:55-57 | true exactly for the empty dictionary |
| Container.CodableDictionary.Count | Sources/CodableDictionary/CodableDictionary.swift:59-61 | the number of keys, zero exactly when the dictionary is empty |
| Container.CodableDictionary.Get | Sources/CodableDictionary/CodableDictionary.swift:71-74 | present exactly when the key is stored, with the stored value |
| Container.CodableDictionary.Set | Sources/CodableDictionary/CodableDictionary.swift:75-77 | nil removes the key, a value stores it, and a read then returns what was set; other keys are unchanged |
| Container.CodableDictionary.GetOrDefault | Sources/CodableDictionary/CodableDictionary.swift:80-83 | the stored value, or the default when the key is absent |
| Container.CodableDictionary.SetOrDefault | Sources/CodableDictionary/CodableDictionary.swift:84-86 | the new value is stored at the key and is what the defaulted read returns |
| Container.CodableDictionary.UpdateValue | Sources/CodableDictionary/CodableDictionary.swift:199-204 | returns the previous value or nil, and stores the new one |
| Container.CodableDictionary.Merge | Sources/CodableDictionary/CodableDictionary.swift:207-212 | the new dictionary is the merge of the old one with the pairs, with the keys of both |
| Container.CodableDictionary.Merging | Sources/CodableDictionary/CodableDictionary.swift:214-219 | a fresh dictionary holding the merge, with the keys of both sides |
| Container.CodableDictionary.RemoveValue | Sources/CodableDictionary/CodableDictionary.swift:225-228 | returns the removed value or nil; the key is gone and every other entry is unchanged |
| Container.CodableDictionary.RemoveAll | Sources/CodableDictionary/CodableDictionary.swift:235-237 | the dictionary is empty, whatever the capacity flag |
| Container.CodableDictionary.MapValues | Sources/CodableDictionary/CodableDictionary.swift:239-243 | a fresh dictionary with the same keys, each value transformed |
| Container.CodableDictionary.Encode | Sources/CodableDictionary/CodableDictionary.swift:90-96 | succeeds exactly when every value encodes; then it writes one field per key, named by its stringValue, as many fields as entries, in a walk that visits each key once; on failure the error is some value's encoding error |
| Container.CodableDictionary.Decode | Sources/CodableDictionary/CodableDictionary.swift:99-107 | the loop's result is Decoded of the source, the decoding of every exposed key in turn with the first failure ending it |
| Scenarios.UInt8FromIntValue | Tests/CodableDictionaryTests/CodableDictionaryKeyTests.swift:14-20 | UInt8 keys accept the integers 0 and 255 and refuse -1 and 256 |
| Scenarios.ZeroRendering | Tests/CodableDictionaryTests/CodableDictionaryKeyTests.swift:145-149 | the Int 0 renders as "0" |
| Scenarios.SomeStringKeyBehaviour | Tests/CodableDictionaryTests/CodableDictionaryKeyTests.swift:36-38 | the String-backed case renders as "my key", parses from it, and "your key" parses to nil |
| Scenarios.SomeIntKeyBehaviour | Tests/CodableDictionaryTests/CodableDictionaryKeyTests.swift:40-43 | the Int-backed case renders as "100", has integer form 100, and parses from both |
| Scenarios.SomeUIntKeyBehaviour | Tests/CodableDictionaryTests/CodableDictionaryKeyTests.swift:45-48 | the UInt-backed case renders as "100", has integer form 100, and parses from both |
| Scenarios.MyKeyBehaviour | Tests/CodableDictionaryTests/CodableDictionaryKeyTests.swift:51-78 | the hand-written raw-value key parses "my key", renders it back, and has no integer form |
| Scenarios.BoolSpellings | Sources/CodableDictionary/CodableDictionaryKey.swift:278-288 | "YES" parses to true and "Off" to false; "maybe" is refused |
| Scenarios.EncodeDecodeSingleEntry | Tests/CodableDictionaryTests/CodableDictionaryTests.swift:16-32 | a one-entry dictionary with a round-tripping key encodes as the single field named by that key, and decodes back to the same dictionary |
| Scenarios.StringKeyJSON | Tests/CodableDictionaryTests/CodableDictionaryTests.swift:34-37 | ["key": "value"] with a String key encodes as {"key":"value"} and decodes back |
| Scenarios.UIntKeyJSON | Tests/CodableDictionaryTests/CodableDictionaryTests.swift:39-42 | [UInt(0): "value"] encodes as {"0":"value"} and decodes back |
| Scenarios.StringEnumKeyJSON | Tests/CodableDictionaryTests/CodableDictionaryTests.swift:44-50 | a String-backed enumeration key encodes as {"key":"value"} and decodes back |
| Scenarios.IntEnumKeyJSON | Tests/CodableDictionaryTests/CodableDictionaryTests.swift:52-58 | an Int-backed enumeration key with raw value 0 encodes as {"0":"value"} and decodes back |
| Scenarios.OutOfRangeNameSkipped | Sources/CodableDictionary/CodableDictionary.swift:99-107 | decoding {"256":"x"} with UInt8 keys gives an empty dictionary, with no error |
| Scenarios.UnknownBooleanNameSkipped | Sources/CodableDictionary/CodableDictionary.swift:99-107 | decoding {"maybe":"x"} with Bool keys gives an empty dictionary, with no error |
| Scenarios.NonCanonicalNameNotFound | Sources/CodableDictionary/CodableDictionary.swift:104-105 | under the assumed lookup by stringValue, {"yes":"x"} with Bool keys fails with "true" not found, and {"007":"x"} with Int keys with "7" not found |

## Left out

- Float, Double and Float80 keys: floating-point text conversion is not modelled.
- The `description` workaround for fixed-width integers: it only renders the value, as `stringValue` does.
- The conditional `@retroactive CodingKey` declarations: they only declare conformances that the model states directly.
- The serialisation framework (JSONEncoder, JSONDecoder and the keyed containers) is not part of this model. It is stood for by a sequence of named fields.
  - Its `allKeys` is taken to expose the keys of the field names that parse, in field order.
  - Its `decode(_:forKey:)` is taken to look up the first field with the key's name.
  - `Decode` takes the keyed source as given. The error `decoder.container(keyedBy:)` throws when the input is not a keyed object (Sources/CodableDictionary/CodableDictionary.swift:103) is not modelled.
  - These are assumptions about foreign code.
- Value encoding and decoding are parameters. The wire value is an abstract type.
- Keys.Lowercased: lowercases ASCII letters only, because Unicode case mapping is out of scope. So `BoolFromStringValue` accepts exactly the ASCII spellings in any letter case.
- Keys.ScalarFromStringValue and Keys.CharacterFromStringValue: one Dafny `char` stands for one unit. Unicode-scalar decoding and grapheme-cluster segmentation are not modelled.
- `Int` and `UInt` are taken to be 64 bits wide. 32-bit platforms are not modelled.
- Throwing closures are not modelled. The `combine`, `keyForValue` and `transform` arguments are total functions here, so `rethrows` never throws.
  - Container.CodableDictionary.Encode: when a value fails to encode, the model returns only the error. It does not model the fields already written to the framework's container.
- The runtime cast in `init(uniqueKeysWithValues:)` is modelled as two constructors: `FromDictionary` for a `Dictionary` argument, and `UniqueKeysWithValues` for any other sequence.
- Dictionary iteration order is unspecified in Swift, and the model does not fix it. `Encode` proves its result for the order it walked, which it returns as a ghost value.
- Equatable and Hashable conformances: the model compares `map` values directly.
- The Sequence and Collection conformances are not modelled, because they forward to the wrapped dictionary: `makeIterator`, `Index`, `startIndex`, `endIndex`, the positional subscript and `index(after:)`.
- These members are not modelled for the same reason: `index(forKey:)`, `keys`, `values`, `first`, `remove(at:)` and `underestimatedCount`.
- `capacity` and `reserveCapacity` are not modelled: storage capacity has no counterpart in a `map`.
- `randomElement` is not modelled: randomness is out of scope.
- `description`, `debugDescription` and `customMirror` are not modelled: they are only the wrapped dictionary's text form.
