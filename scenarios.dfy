/** The behaviour the repository's own tests exercise, stated for the model: concrete keys, and the
    four dictionaries the tests encode to JSON objects and decode again. A JSON string value is
    its text; it always encodes and decodes. */
module Scenarios {
  import opened Wrappers
  import opened Keys
  import opened KeyedCoding
  import opened Container
  import Decimal

  /** `init?(intValue:)` of `UInt8` accepts 0 and 255 and refuses -1 and 256. */
  lemma UInt8FromIntValue()
    ensures FixedKey(UInt8).fromIntValue(0) == Some(0)
    ensures FixedKey(UInt8).fromIntValue(255) == Some(255)
    ensures FixedKey(UInt8).fromIntValue(-1) == None
    ensures FixedKey(UInt8).fromIntValue(256) == None
  {
  }

  /** `String(Int(0))` and `Int(0).description` are "0". */
  lemma ZeroRendering()
    ensures FixedKey(Int).stringValue(0) == "0"
    ensures IntKey().stringValue(0) == "0"
  {
  }

  /** The rendering of 100 and its parse. */
  lemma Hundred()
    ensures Decimal.Render(100) == "100"
    ensures Decimal.Parse("100") == Some(100)
  {
    Decimal.ParseRender(100);
    assert Decimal.Digits(1) == "1";
    assert Decimal.Digits(10) == "10";
  }

  // ---------------------------------------------------------------------------------------------
  // Enumerations with raw values.

  /** One case; used for every single-case enumeration of the tests. */
  datatype OneCase = Only

  /** `enum SomeStringKey: String { case key = "my key" }`, a key by delegation to `String`. */
  function SomeStringKey(): KeyCoding<OneCase> {
    RawKey(EnumRepresentation(Enumeration([Only], (c: OneCase) => "my key")), StringKey())
  }

  lemma SomeStringKeyBehaviour()
    ensures SomeStringKey().stringValue(Only) == "my key"
    ensures SomeStringKey().fromStringValue("my key") == Some(Only)
    ensures SomeStringKey().fromStringValue("your key") == None
  {
  }

  /** `enum SomeIntKey: Int { case hundred = 100 }`, through the `Int` raw-value branch. */
  function SomeIntKey(): KeyCoding<OneCase> {
    IntRawKey(EnumRepresentation(Enumeration([Only], (c: OneCase) => 100)))
  }

  lemma SomeIntKeyBehaviour()
    ensures SomeIntKey().stringValue(Only) == "100"
    ensures SomeIntKey().intValue(Only) == Some(100)
    ensures SomeIntKey().fromStringValue("100") == Some(Only)
    ensures SomeIntKey().fromIntValue(100) == Some(Only)
  {
    Hundred();
  }

  /** `enum SomeUIntKey: UInt { case hundred = 100 }`, by delegation to `UInt`. */
  function SomeUIntKey(): KeyCoding<OneCase> {
    RawKey(EnumRepresentation(Enumeration([Only], (c: OneCase) => 100)), FixedKey(UInt))
  }

  lemma SomeUIntKeyBehaviour()
    ensures SomeUIntKey().stringValue(Only) == "100"
    ensures SomeUIntKey().intValue(Only) == Some(100)
    ensures SomeUIntKey().fromStringValue("100") == Some(Only)
    ensures SomeUIntKey().fromIntValue(100) == Some(Only)
  {
    Hundred();
  }

  // ---------------------------------------------------------------------------------------------
  // A hand-written raw-value key whose raw value is a key type of its own.

  /** The raw value: any string is accepted; its integer form is `Int(stringValue)`. */
  datatype MyRawValue = MyRawValue(stringValue: string)

  function MyRawValueKey(): KeyCoding<MyRawValue> {
    KeyCoding(
      (r: MyRawValue) => r.stringValue,
      (s: string) => Some(MyRawValue(s)),
      (r: MyRawValue) => StringIntValue(r.stringValue),
      (i: int) => Some(MyRawValue(Decimal.Render(i))))
  }

  datatype MyKey = MyKey(rawValue: MyRawValue)

  function MyKeyCoding(): KeyCoding<MyKey> {
    RawKey(RawRepresentation((k: MyKey) => k.rawValue, (r: MyRawValue) => Some(MyKey(r))), MyRawValueKey())
  }

  /** `MyKey(stringValue: "my key")` exists, renders as "my key" and has no integer form. */
  lemma MyKeyBehaviour()
    ensures MyKeyCoding().fromStringValue("my key").Some?
    ensures MyKeyCoding().stringValue(MyKeyCoding().fromStringValue("my key").value) == "my key"
    ensures MyKeyCoding().intValue(MyKeyCoding().fromStringValue("my key").value) == None
  {
  }

  /** Booleans: the YAML spellings in any letter case, nothing else. */
  lemma BoolSpellings()
    ensures BoolKey().fromStringValue("YES") == Some(true)
    ensures BoolKey().fromStringValue("Off") == Some(false)
    ensures BoolKey().fromStringValue("maybe") == None
  {
    assert Lowercased("YES") == "yes";
    assert Lowercased("Off") == "off";
    assert Lowercased("maybe") == "maybe";
  }

  // ---------------------------------------------------------------------------------------------
  // JSON objects: encoding a one-entry dictionary and decoding the result.

  /** Never raised: a JSON string always encodes and decodes. */
  datatype StringValueError = NotAString

  function EncodeString(v: string): Result<string, StringValueError> {
    Success(v)
  }

  function DecodeString(w: string): Result<string, StringValueError> {
    Success(w)
  }

  /** Encodes a one-entry dictionary and decodes what was written; for a key that round-trips
      through its name, the object has the single field named by the key, and decoding it gives
      the same dictionary back. */
  method EncodeDecodeSingleEntry<K(==)>(coding: KeyCoding<K>, key: K, value: string)
    returns (fields: Result<seq<(string, string)>, StringValueError>, back: Result<map<K, string>, DecodingError<StringValueError>>)
    requires StringRoundTrips(coding, key)
    ensures fields == Success([(coding.stringValue(key), value)])
    ensures back == Success(map[key := value])
  {
    var d := new CodableDictionary<K, string>.DictionaryLiteral([(key, value)]);
    assert [(key, value)][..0] == [];
    ghost var order;
    fields, order := d.Encode(coding, EncodeString);
    SingleEntryEncoding(order, key, value, coding.stringValue, EncodeString);
    DecodeEncodeRoundTrip(coding, d.dictionary, order, EncodeString, DecodeString);
    var decoded := CodableDictionary<K, string>.Decode(coding, fields.value, DecodeString);
    back := Success(decoded.value.dictionary);
  }

  /** `["key": "value"]` with `String` keys is `{"key":"value"}`, and decodes back. */
  method StringKeyJSON() returns (fields: Result<seq<(string, string)>, StringValueError>, back: Result<map<string, string>, DecodingError<StringValueError>>)
    ensures fields == Success([("key", "value")])
    ensures back == Success(map["key" := "value"])
  {
    StringKeyRoundTrips("key");
    fields, back := EncodeDecodeSingleEntry(StringKey(), "key", "value");
  }

  /** `[UInt(0): "value"]` is `{"0":"value"}`, and decodes back. */
  method UIntKeyJSON() returns (fields: Result<seq<(string, string)>, StringValueError>, back: Result<map<int, string>, DecodingError<StringValueError>>)
    ensures fields == Success([("0", "value")])
    ensures back == Success(map[0 := "value"])
  {
    FixedStringRoundTrip(UInt, 0);
    fields, back := EncodeDecodeSingleEntry(FixedKey(UInt), 0, "value");
  }

  /** `enum MyKey: String { case key }`: the raw value is the case name. */
  function StringEnumKey(): KeyCoding<OneCase> {
    RawKey(EnumRepresentation(Enumeration([Only], (c: OneCase) => "key")), StringKey())
  }

  /** `[MyKey.key: "value"]` with a `String` enumeration key is `{"key":"value"}`, and decodes
      back. */
  method StringEnumKeyJSON() returns (fields: Result<seq<(string, string)>, StringValueError>, back: Result<map<OneCase, string>, DecodingError<StringValueError>>)
    ensures fields == Success([("key", "value")])
    ensures back == Success(map[Only := "value"])
  {
    var en := Enumeration([Only], (c: OneCase) => "key");
    EnumRepresentationLawful(en, Only, "key");
    StringKeyRoundTrips("key");
    RawKeyRoundTrips(EnumRepresentation(en), StringKey(), Only);
    fields, back := EncodeDecodeSingleEntry(StringEnumKey(), Only, "value");
  }

  /** `enum MyKey: Int { case key = 0 }`. */
  function IntEnumKey(): KeyCoding<OneCase> {
    IntRawKey(EnumRepresentation(Enumeration([Only], (c: OneCase) => 0)))
  }

  /** `[MyKey.key: "value"]` with an `Int` enumeration key is `{"0":"value"}`, and decodes back. */
  method IntEnumKeyJSON() returns (fields: Result<seq<(string, string)>, StringValueError>, back: Result<map<OneCase, string>, DecodingError<StringValueError>>)
    ensures fields == Success([("0", "value")])
    ensures back == Success(map[Only := "value"])
  {
    var en := Enumeration([Only], (c: OneCase) => 0);
    EnumRepresentationLawful(en, Only, 0);
    IntRawKeyIsDelegation(EnumRepresentation(en), Only, "0", 0);
    fields, back := EncodeDecodeSingleEntry(IntEnumKey(), Only, "value");
  }

  // ---------------------------------------------------------------------------------------------
  // Field names a key type cannot parse are not exposed by the keyed source, so decoding skips
  // them instead of failing.

  /** `{"256":"x"}` decoded with `UInt8` keys: 256 is out of range, so the dictionary is empty. */
  lemma OutOfRangeNameSkipped()
    ensures Decoded(FixedKey(UInt8), [("256", "x")], DecodeString) == Success(map[])
  {
    var source := [("256", "x")];
    assert source[..0] == [];
    assert Decimal.Digits(25) == "25";
    assert Decimal.Render(256) == "256";
    Decimal.ParseRender(256);
    assert FixedFromStringValue(UInt8, "256") == None;
    assert AllKeys(FixedKey(UInt8), source) == [];
  }

  /** `{"maybe":"x"}` decoded with `Bool` keys: "maybe" is no boolean, so the dictionary is empty. */
  lemma UnknownBooleanNameSkipped()
    ensures Decoded(BoolKey(), [("maybe", "x")], DecodeString) == Success(map[])
  {
  }

  /** A field name that parses to a key other than by that key's own `stringValue` is exposed, but
      the lookup by `stringValue` then misses it: `{"yes":"x"}` with `Bool` keys, and `{"007":"x"}`
      with `Int` keys, fail with the rendered name not found. */
  lemma NonCanonicalNameNotFound()
    ensures Decoded(BoolKey(), [("yes", "x")], DecodeString) == Failure(KeyNotFound("true"))
    ensures Decoded(IntKey(), [("007", "x")], DecodeString) == Failure(KeyNotFound("7"))
  {
    var yes := [("yes", "x")];
    assert yes[..0] == [];
    assert Lowercased("yes") == "yes";
    assert AllKeys(BoolKey(), yes) == [true];
    StringIntChannelNotInjective();
    var zeros := [("007", "x")];
    assert zeros[..0] == [];
    assert AllKeys(IntKey(), zeros) == [7];
  }
}
