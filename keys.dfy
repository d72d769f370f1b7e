/** The key conversions of `CodableDictionaryKey`: every key type renders itself as a field name
    (`stringValue`, total), parses itself back from one (`init?(stringValue:)`, may fail), and offers
    an optional integer form (`intValue`) with its own parse (`init?(intValue:)`, may fail).
    Swift's `Int` and `UInt` are taken to be 64 bits wide. */
module Keys {
  import opened Wrappers
  import Decimal

  /** The four conversions `CodingKey` asks of a key type, as function values, so that the
      container can be written once for every key type. */
  datatype KeyCoding<!K> = KeyCoding(
    stringValue: K -> string,
    fromStringValue: string -> Option<K>,
    intValue: K -> Option<int>,
    fromIntValue: int -> Option<K>)

  /** Parsing the field name of `k` gives `k` back. */
  ghost predicate StringRoundTrips<K>(coding: KeyCoding<K>, k: K) {
    coding.fromStringValue(coding.stringValue(k)) == Some(k)
  }

  /** Where `k` has an integer form, parsing that integer gives `k` back. */
  ghost predicate IntRoundTrips<K>(coding: KeyCoding<K>, k: K) {
    coding.intValue(k).Some? ==> coding.fromIntValue(coding.intValue(k).value) == Some(k)
  }

  // ---------------------------------------------------------------------------------------------
  // Fixed-width integers: the conversions shared by every `FixedWidthInteger` key. A value of the
  // Swift type of width `w` is an `int` with `InRange(w, v)`.

  datatype Width = Int8 | Int16 | Int32 | Int64 | Int | UInt8 | UInt16 | UInt32 | UInt64 | UInt

  /** `Int.min` and `Int.max` on a 64-bit platform. */
  const IntMin: int := -0x8000_0000_0000_0000
  const IntMax: int := 0x7FFF_FFFF_FFFF_FFFF

  /** `Self.min` of the width. */
  function Min(w: Width): int {
    match w
    case Int8 => -0x80
    case Int16 => -0x8000
    case Int32 => -0x8000_0000
    case Int64 => IntMin
    case Int => IntMin
    case _ => 0
  }

  /** `Self.max` of the width. */
  function Max(w: Width): int {
    match w
    case Int8 => 0x7F
    case Int16 => 0x7FFF
    case Int32 => 0x7FFF_FFFF
    case Int64 => IntMax
    case Int => IntMax
    case UInt8 => 0xFF
    case UInt16 => 0xFFFF
    case UInt32 => 0xFFFF_FFFF
    case UInt64 => 0xFFFF_FFFF_FFFF_FFFF
    case UInt => 0xFFFF_FFFF_FFFF_FFFF
  }

  predicate InRange(w: Width, v: int) {
    Min(w) <= v <= Max(w)
  }

  /** `stringValue`: the base-10 rendering `String(self, radix: 10)`. */
  function FixedStringValue(w: Width, v: int): (s: string)
  {
    Decimal.Render(v)
  }

  /** `intValue`: the value itself when it lies in `Int.min...Int.max`, otherwise nil. */
  function FixedIntValue(w: Width, v: int): (r: Option<int>)
    ensures r.Some? <==> IntMin <= v <= IntMax
    ensures r.Some? ==> r.value == v
  {
    if IntMin <= v && v <= IntMax then Some(v) else None
  }

  /** `init?(stringValue:)`: the text parse, failing on a malformed numeral or one outside the
      width's range. */
  function FixedFromStringValue(w: Width, s: string): (r: Option<int>)
    ensures r.Some? <==> Decimal.Parse(s).Some? && InRange(w, Decimal.Parse(s).value)
    ensures r.Some? ==> r == Decimal.Parse(s)
  {
    match Decimal.Parse(s)
    case None => None
    case Some(n) => if InRange(w, n) then Some(n) else None
  }

  /** `init?(intValue:)`: fails exactly when the argument lies outside `Self.min...Self.max`. */
  function FixedFromIntValue(w: Width, i: int): (r: Option<int>)
    ensures r.Some? <==> InRange(w, i)
    ensures r.Some? ==> r.value == i
  {
    if Min(w) <= i && i <= Max(w) then Some(i) else None
  }

  function FixedKey(w: Width): KeyCoding<int> {
    KeyCoding(
      v => FixedStringValue(w, v),
      s => FixedFromStringValue(w, s),
      v => FixedIntValue(w, v),
      i => FixedFromIntValue(w, i))
  }

  /** Every value of a fixed-width type has an integer form, except the values of `UInt64` and
      `UInt` above `Int.max`. */
  lemma FixedIntValueAbsence(w: Width, v: int)
    requires InRange(w, v)
    ensures FixedIntValue(w, v).None? <==> (w == UInt64 || w == UInt) && v > IntMax
  {
  }

  /** The field name of every value of the width parses back to that value. */
  lemma FixedStringRoundTrip(w: Width, v: int)
    requires InRange(w, v)
    ensures StringRoundTrips(FixedKey(w), v)
  {
    Decimal.ParseRender(v);
  }

  /** Both ways round the integer channel: a value's integer form parses back to it, and an
      integer the width accepts has itself as integer form. */
  lemma FixedIntRoundTrip(w: Width, v: int, i: int)
    requires InRange(w, v)
    requires IntMin <= i <= IntMax
    ensures IntRoundTrips(FixedKey(w), v)
    ensures FixedFromIntValue(w, i).Some? ==> FixedIntValue(w, FixedFromIntValue(w, i).value) == Some(i)
  {
  }

  // ---------------------------------------------------------------------------------------------
  // `Int`: the fixed-width string channel, with an integer channel that never fails.

  /** `intValue` of an `Int` is always the value itself. */
  function IntIntValue(v: int): (r: Option<int>)
  {
    Some(v)
  }

  /** `init?(intValue:)` of an `Int` always succeeds. */
  function IntFromIntValue(i: int): (r: Option<int>)
  {
    Some(i)
  }

  function IntKey(): KeyCoding<int> {
    KeyCoding(
      v => FixedStringValue(Int, v),
      s => FixedFromStringValue(Int, s),
      IntIntValue,
      IntFromIntValue)
  }

  /** On the values of `Int` the overrides agree with the fixed-width conversions, so `Int` keys
      round-trip on both channels. */
  lemma IntKeyAgreesWithFixedWidth(v: int)
    requires InRange(Int, v)
    ensures IntKey().intValue(v) == FixedKey(Int).intValue(v)
    ensures IntKey().fromIntValue(v) == FixedKey(Int).fromIntValue(v)
    ensures StringRoundTrips(IntKey(), v) && IntRoundTrips(IntKey(), v)
  {
    FixedStringRoundTrip(Int, v);
  }

  // ---------------------------------------------------------------------------------------------
  // `String` and `Substring`: identity on the string channel, base-10 text on the integer channel.

  function StringStringValue(s: string): (r: string)
  {
    s
  }

  /** `init?(stringValue:)` of a `String` never fails. */
  function StringFromStringValue(s: string): (r: Option<string>)
  {
    Some(s)
  }

  /** `intValue` of a `String` is `Int(self)`: present exactly for a numeral within `Int`'s range. */
  function StringIntValue(s: string): (r: Option<int>)
    ensures r.Some? <==> Decimal.Parse(s).Some? && InRange(Int, Decimal.Parse(s).value)
    ensures r.Some? ==> r == Decimal.Parse(s)
  {
    FixedFromStringValue(Int, s)
  }

  /** `init?(intValue:)` of a `String`: the base-10 rendering, never nil. */
  function StringFromIntValue(i: int): (r: Option<string>)
  {
    Some(Decimal.Render(i))
  }

  function StringKey(): KeyCoding<string> {
    KeyCoding(StringStringValue, StringFromStringValue, StringIntValue, StringFromIntValue)
  }

  /** Every string round-trips through the string channel. */
  lemma StringKeyRoundTrips(s: string)
    ensures StringRoundTrips(StringKey(), s)
  {
  }

  /** Every `Int` survives the detour through the `String` key made from it, so the integer channel
      round-trips on the canonical renderings of `Int` values. */
  lemma StringIntChannel(i: int)
    requires InRange(Int, i)
    ensures StringFromIntValue(i).Some?
    ensures StringIntValue(StringFromIntValue(i).value) == Some(i)
    ensures IntRoundTrips(StringKey(), Decimal.Render(i))
  {
    Decimal.ParseRender(i);
  }

  /** The integer channel does not round-trip from the `String` side: "007" has the integer form 7,
      whose `String` key is "7". */
  lemma StringIntChannelNotInjective()
    ensures StringIntValue("007") == Some(7)
    ensures StringFromIntValue(7) == Some("7")
    ensures !IntRoundTrips(StringKey(), "007")
  {
    assert "007"[..2] == "00" && "00"[..1] == "0";
    assert Decimal.DigitsValue("007") == 7;
  }

  /** A `Substring` is modelled by the characters it views. */
  datatype Substring = Substring(chars: string)

  function SubstringStringValue(s: Substring): (r: string)
  {
    s.chars
  }

  function SubstringIntValue(s: Substring): (r: Option<int>)
  {
    FixedFromStringValue(Int, s.chars)
  }

  /** `init?(stringValue:)` of a `Substring` views the whole string and never fails. */
  function SubstringFromStringValue(s: string): (r: Option<Substring>)
  {
    Some(Substring(s))
  }

  /** `init?(intValue:)` of a `Substring` goes through `init?(stringValue:)` of its rendering. */
  function SubstringFromIntValue(i: int): (r: Option<Substring>)
    ensures r.Some? && r.value.chars == Decimal.Render(i)
  {
    SubstringFromStringValue(Decimal.Render(i))
  }

  function SubstringKey(): KeyCoding<Substring> {
    KeyCoding(SubstringStringValue, SubstringFromStringValue, SubstringIntValue, SubstringFromIntValue)
  }

  /** A `Substring` round-trips through the string channel, and its integer form is that of the
      `String` it views. */
  lemma SubstringKeyRoundTrips(s: Substring)
    ensures StringRoundTrips(SubstringKey(), s)
    ensures SubstringIntValue(s) == StringIntValue(SubstringStringValue(s))
  {
  }

  /** The `Substring` key made from an `Int` views its rendering and gives the `Int` back. */
  lemma SubstringIntChannel(i: int)
    requires InRange(Int, i)
    ensures SubstringFromIntValue(i).Some? && SubstringStringValue(SubstringFromIntValue(i).value) == Decimal.Render(i)
    ensures SubstringIntValue(SubstringFromIntValue(i).value) == Some(i)
  {
    Decimal.ParseRender(i);
  }

  // ---------------------------------------------------------------------------------------------
  // `Unicode.Scalar` and `Character`: keys of exactly one unit. A Dafny `char` stands for one unit
  // (one scalar of the string's scalar view, or one grapheme cluster).

  /** The one unit of `units`, or nil when there are none or more than one; only the first two
      units are inspected. */
  function SingleUnit<U>(units: seq<U>): (r: Option<U>)
    ensures r.Some? <==> |units| == 1
    ensures r.Some? ==> r.value == units[0]
  {
    if |units| == 0 then None
    else if |units[1..]| != 0 then None
    else Some(units[0])
  }

  datatype UnicodeScalar = UnicodeScalar(unit: char)

  function ScalarStringValue(c: UnicodeScalar): (s: string)
  {
    [c.unit]
  }

  /** `intValue` is `Int(self.stringValue)`. */
  function ScalarIntValue(c: UnicodeScalar): (r: Option<int>)
  {
    FixedFromStringValue(Int, ScalarStringValue(c))
  }

  /** `init?(stringValue:)` fails on the empty string and on a string of two or more units. */
  function ScalarFromStringValue(s: string): (r: Option<UnicodeScalar>)
    ensures r.Some? <==> |s| == 1
    ensures r.Some? ==> r.value.unit == s[0]
  {
    match SingleUnit(s)
    case None => None
    case Some(u) => Some(UnicodeScalar(u))
  }

  /** `init?(intValue:)` parses the rendering of the integer. */
  function ScalarFromIntValue(i: int): (r: Option<UnicodeScalar>)
  {
    ScalarFromStringValue(Decimal.Render(i))
  }

  function ScalarKey(): KeyCoding<UnicodeScalar> {
    KeyCoding(ScalarStringValue, ScalarFromStringValue, ScalarIntValue, ScalarFromIntValue)
  }

  /** A scalar round-trips through the string channel; it has an integer form exactly when it is
      a decimal digit, and that form parses back to it; `init?(intValue:)` succeeds exactly on
      0...9, with that digit. */
  lemma ScalarKeyChannels(c: UnicodeScalar, i: int)
    ensures StringRoundTrips(ScalarKey(), c)
    ensures ScalarIntValue(c).Some? <==> Decimal.IsDigit(c.unit)
    ensures Decimal.IsDigit(c.unit) ==> ScalarIntValue(c) == Some(Decimal.DigitValue(c.unit))
    ensures IntRoundTrips(ScalarKey(), c)
    ensures ScalarFromIntValue(i).Some? <==> 0 <= i <= 9
    ensures 0 <= i <= 9 ==> ScalarFromIntValue(i) == Some(UnicodeScalar(Decimal.DigitChar(i)))
  {
    Decimal.ParseSingleCharacter(c.unit);
    Decimal.RenderSingleCharacter(i);
    if Decimal.IsDigit(c.unit) {
      Decimal.RenderSingleCharacter(Decimal.DigitValue(c.unit));
    }
  }

  datatype Character = Character(unit: char)

  function CharacterStringValue(c: Character): (s: string)
  {
    [c.unit]
  }

  /** `intValue` is `Int(self.stringValue)`. */
  function CharacterIntValue(c: Character): (r: Option<int>)
  {
    FixedFromStringValue(Int, CharacterStringValue(c))
  }

  /** `init?(stringValue:)` fails on the empty string and on a string of two or more characters. */
  function CharacterFromStringValue(s: string): (r: Option<Character>)
    ensures r.Some? <==> |s| == 1
    ensures r.Some? ==> r.value.unit == s[0]
  {
    match SingleUnit(s)
    case None => None
    case Some(u) => Some(Character(u))
  }

  /** `init?(intValue:)` parses the rendering of the integer. */
  function CharacterFromIntValue(i: int): (r: Option<Character>)
  {
    CharacterFromStringValue(Decimal.Render(i))
  }

  function CharacterKey(): KeyCoding<Character> {
    KeyCoding(CharacterStringValue, CharacterFromStringValue, CharacterIntValue, CharacterFromIntValue)
  }

  /** The same four facts as for `Unicode.Scalar`. */
  lemma CharacterKeyChannels(c: Character, i: int)
    ensures StringRoundTrips(CharacterKey(), c)
    ensures CharacterIntValue(c).Some? <==> Decimal.IsDigit(c.unit)
    ensures Decimal.IsDigit(c.unit) ==> CharacterIntValue(c) == Some(Decimal.DigitValue(c.unit))
    ensures IntRoundTrips(CharacterKey(), c)
    ensures CharacterFromIntValue(i).Some? <==> 0 <= i <= 9
    ensures 0 <= i <= 9 ==> CharacterFromIntValue(i) == Some(Character(Decimal.DigitChar(i)))
  {
    Decimal.ParseSingleCharacter(c.unit);
    Decimal.RenderSingleCharacter(i);
    if Decimal.IsDigit(c.unit) {
      Decimal.RenderSingleCharacter(Decimal.DigitValue(c.unit));
    }
  }

  // ---------------------------------------------------------------------------------------------
  // `Bool`: "true"/"false" out, the YAML 1.1 boolean vocabulary in, ignoring case.

  function BoolStringValue(b: bool): (s: string)
  {
    if b then "true" else "false"
  }

  /** `intValue` is 1 for true and 0 for false, never nil. */
  function BoolIntValue(b: bool): (r: Option<int>)
  {
    Some(if b then 1 else 0)
  }

  /** ASCII lowercasing of one character. */
  function LowerChar(c: char): char {
    if 'A' <= c <= 'Z' then (c as int - 'A' as int + 'a' as int) as char else c
  }

  /** `lowercased()`, restricted to ASCII letters. */
  function Lowercased(s: string): (r: string)
    ensures |r| == |s|
    ensures forall i :: 0 <= i < |s| ==> r[i] == LowerChar(s[i])
  {
    seq(|s|, i requires 0 <= i < |s| => LowerChar(s[i]))
  }

  const TrueSpellings: set<string> := {"y", "yes", "true", "on"}
  const FalseSpellings: set<string> := {"n", "no", "false", "off"}

  /** `init?(stringValue:)`: true for y, yes, true, on and false for n, no, false, off, in any
      letter case; nil for everything else. */
  function BoolFromStringValue(s: string): (r: Option<bool>)
    ensures r == Some(true) <==> Lowercased(s) in TrueSpellings
    ensures r == Some(false) <==> Lowercased(s) in FalseSpellings
  {
    var lower := Lowercased(s);
    if lower == "y" || lower == "yes" || lower == "true" || lower == "on" then Some(true)
    else if lower == "n" || lower == "no" || lower == "false" || lower == "off" then Some(false)
    else None
  }

  /** `init?(intValue:)` never fails: every non-zero integer is true. */
  function BoolFromIntValue(i: int): (r: Option<bool>)
  {
    Some(i != 0)
  }

  function BoolKey(): KeyCoding<bool> {
    KeyCoding(BoolStringValue, BoolFromStringValue, BoolIntValue, BoolFromIntValue)
  }

  /** Both channels of a `Bool` key round-trip. */
  lemma BoolKeyRoundTrips(b: bool)
    ensures StringRoundTrips(BoolKey(), b)
    ensures IntRoundTrips(BoolKey(), b)
  {
  }

  /** The parse ignores letter case: strings equal up to case parse alike. */
  lemma BoolParseIgnoresCase(s: string, t: string)
    requires Lowercased(s) == Lowercased(t)
    ensures BoolFromStringValue(s) == BoolFromStringValue(t)
    ensures BoolFromStringValue(s) == BoolFromStringValue(Lowercased(s))
  {
  }

  // ---------------------------------------------------------------------------------------------
  // Raw-value keys: a `RawRepresentable` type whose raw value is itself a key delegates every
  // conversion to its raw value.

  /** `rawValue` and `init?(rawValue:)` of a `RawRepresentable` type. */
  datatype RawRepresentation<!E, !R> = RawRepresentation(rawValue: E -> R, fromRawValue: R -> Option<E>)

  /** Constructing from the raw value of `e` gives `e` back. */
  ghost predicate RawLawful<E, R>(rep: RawRepresentation<E, R>, e: E) {
    rep.fromRawValue(rep.rawValue(e)) == Some(e)
  }

  function RawStringValue<E, R>(rep: RawRepresentation<E, R>, raw: KeyCoding<R>, e: E): (s: string)
  {
    raw.stringValue(rep.rawValue(e))
  }

  function RawIntValue<E, R>(rep: RawRepresentation<E, R>, raw: KeyCoding<R>, e: E): (r: Option<int>)
  {
    raw.intValue(rep.rawValue(e))
  }

  /** `init?(stringValue:)`: fails when the raw type's parse fails or when no value has the parsed
      raw value. */
  function RawFromStringValue<E, R>(rep: RawRepresentation<E, R>, raw: KeyCoding<R>, s: string): (r: Option<E>)
    ensures r.Some? <==> raw.fromStringValue(s).Some? && rep.fromRawValue(raw.fromStringValue(s).value).Some?
    ensures r.Some? ==> r == rep.fromRawValue(raw.fromStringValue(s).value)
  {
    match raw.fromStringValue(s)
    case None => None
    case Some(rawValue) => rep.fromRawValue(rawValue)
  }

  /** `init?(intValue:)`: fails when the raw type's integer parse fails or when no value has the
      parsed raw value. */
  function RawFromIntValue<E, R>(rep: RawRepresentation<E, R>, raw: KeyCoding<R>, i: int): (r: Option<E>)
    ensures r.Some? <==> raw.fromIntValue(i).Some? && rep.fromRawValue(raw.fromIntValue(i).value).Some?
    ensures r.Some? ==> r == rep.fromRawValue(raw.fromIntValue(i).value)
  {
    match raw.fromIntValue(i)
    case None => None
    case Some(rawValue) => rep.fromRawValue(rawValue)
  }

  function RawKey<E, R>(rep: RawRepresentation<E, R>, raw: KeyCoding<R>): KeyCoding<E> {
    KeyCoding(
      e => RawStringValue(rep, raw, e),
      s => RawFromStringValue(rep, raw, s),
      e => RawIntValue(rep, raw, e),
      i => RawFromIntValue(rep, raw, i))
  }

  /** Delegation keeps each round trip the raw value has. */
  lemma RawKeyRoundTrips<E, R>(rep: RawRepresentation<E, R>, raw: KeyCoding<R>, e: E)
    requires RawLawful(rep, e)
    ensures StringRoundTrips(raw, rep.rawValue(e)) ==> StringRoundTrips(RawKey(rep, raw), e)
    ensures IntRoundTrips(raw, rep.rawValue(e)) ==> IntRoundTrips(RawKey(rep, raw), e)
  {
  }

  /** An enumeration with raw values: its cases in declaration order and the raw value of each. */
  datatype Enumeration<!E, R> = Enumeration(allCases: seq<E>, rawValue: E -> R)

  /** No two cases share a raw value (the compiler refuses such an enumeration). */
  ghost predicate DistinctRawValues<E, R>(en: Enumeration<E, R>) {
    forall i, j :: 0 <= i < j < |en.allCases| ==> en.rawValue(en.allCases[i]) != en.rawValue(en.allCases[j])
  }

  /** The synthesised `init?(rawValue:)`: the first case whose raw value is `r`, or nil. */
  function CaseWithRawValue<E, R(==)>(cases: seq<E>, rawValue: E -> R, r: R): (c: Option<E>)
    ensures c.Some? <==> exists i :: 0 <= i < |cases| && rawValue(cases[i]) == r
    ensures c.Some? ==> exists i :: 0 <= i < |cases| && cases[i] == c.value && rawValue(c.value) == r
  {
    if |cases| == 0 then None
    else if rawValue(cases[0]) == r then Some(cases[0])
    else
      var c := CaseWithRawValue(cases[1..], rawValue, r);
      assert forall i :: 1 <= i < |cases| ==> cases[i] == cases[1..][i - 1];
      c
  }

  function EnumRepresentation<E, R(==)>(en: Enumeration<E, R>): RawRepresentation<E, R> {
    RawRepresentation(en.rawValue, r => CaseWithRawValue(en.allCases, en.rawValue, r))
  }

  /** An enumeration with distinct raw values is recovered from the raw value of each case, and
      the raw parse finds a case exactly for the raw values its cases carry. */
  lemma EnumRepresentationLawful<E, R>(en: Enumeration<E, R>, e: E, r: R)
    requires DistinctRawValues(en)
    requires e in en.allCases
    ensures RawLawful(EnumRepresentation(en), e)
    ensures EnumRepresentation(en).fromRawValue(r).Some? <==> exists c :: c in en.allCases && en.rawValue(c) == r
  {
  }

  // ---------------------------------------------------------------------------------------------
  // Raw-value keys whose raw value is `Int`: a separate branch that reads the raw value directly.

  /** `String(self.rawValue)`. */
  function IntRawStringValue<E>(rep: RawRepresentation<E, int>, e: E): (s: string)
  {
    Decimal.Render(rep.rawValue(e))
  }

  /** The raw value itself, never nil. */
  function IntRawIntValue<E>(rep: RawRepresentation<E, int>, e: E): (r: Option<int>)
  {
    Some(rep.rawValue(e))
  }

  /** `Int(stringValue)`, then `init?(rawValue:)`. */
  function IntRawFromStringValue<E>(rep: RawRepresentation<E, int>, s: string): (r: Option<E>)
    ensures r.Some? <==> StringIntValue(s).Some? && rep.fromRawValue(StringIntValue(s).value).Some?
    ensures r.Some? ==> r == rep.fromRawValue(StringIntValue(s).value)
  {
    match FixedFromStringValue(Int, s)
    case None => None
    case Some(integer) => rep.fromRawValue(integer)
  }

  /** `init?(rawValue: intValue)`. */
  function IntRawFromIntValue<E>(rep: RawRepresentation<E, int>, i: int): (r: Option<E>)
  {
    rep.fromRawValue(i)
  }

  function IntRawKey<E>(rep: RawRepresentation<E, int>): KeyCoding<E> {
    KeyCoding(
      e => IntRawStringValue(rep, e),
      s => IntRawFromStringValue(rep, s),
      e => IntRawIntValue(rep, e),
      i => IntRawFromIntValue(rep, i))
  }

  /** The `Int` branch computes what delegation to `Int`'s own conversions would, for raw values
      of `Int`'s range; so it keeps both round trips. */
  lemma IntRawKeyIsDelegation<E>(rep: RawRepresentation<E, int>, e: E, s: string, i: int)
    requires InRange(Int, rep.rawValue(e))
    ensures IntRawStringValue(rep, e) == RawStringValue(rep, IntKey(), e)
    ensures IntRawIntValue(rep, e) == RawIntValue(rep, IntKey(), e)
    ensures IntRawFromStringValue(rep, s) == RawFromStringValue(rep, IntKey(), s)
    ensures IntRawFromIntValue(rep, i) == RawFromIntValue(rep, IntKey(), i)
    ensures RawLawful(rep, e) ==> StringRoundTrips(IntRawKey(rep), e) && IntRoundTrips(IntRawKey(rep), e)
  {
    FixedStringRoundTrip(Int, rep.rawValue(e));
  }
}
