/** The serialisation framework's keyed containers, as far as the dictionary uses them. A keyed
    container holds field names with the (already encoded) values written under them, in writing
    order: an object, never a flat array. Values themselves are of an abstract wire type `W`. */
module KeyedCoding {
  import opened Wrappers
  import opened Keys

  /** Why `decode(_:forKey:)` of a keyed source throws: no field carries the key's name, or the
      value's own decoding failed (its error is passed on unchanged). */
  datatype DecodingError<+E> = KeyNotFound(name: string) | ValueError(cause: E)

  /** `allKeys` of a keyed source: the key of every field whose name the key type parses, in field
      order; fields whose names do not parse are not exposed. */
  function AllKeys<K, W>(coding: KeyCoding<K>, source: seq<(string, W)>): (keys: seq<K>)
    ensures |keys| <= |source|
    ensures forall k :: k in keys ==> exists i :: 0 <= i < |source| && coding.fromStringValue(source[i].0) == Some(k)
  {
    if source == [] then []
    else
      var keys := AllKeys(coding, source[..|source| - 1]);
      match coding.fromStringValue(source[|source| - 1].0)
      case None => keys
      case Some(k) => keys + [k]
  }

  /** Conversely, the key of every field whose name parses is exposed. */
  lemma {:induction false} AllKeysComplete<K, W>(coding: KeyCoding<K>, source: seq<(string, W)>, i: int)
    requires 0 <= i < |source| && coding.fromStringValue(source[i].0).Some?
    ensures coding.fromStringValue(source[i].0).value in AllKeys(coding, source)
  {
    var n := |source|;
    if i < n - 1 {
      assert source[..n - 1][i] == source[i];
      AllKeysComplete(coding, source[..n - 1], i);
    }
  }

  /** The value of the first field named `name`, if any. */
  function ValueNamed<W>(source: seq<(string, W)>, name: string): (r: Option<W>)
    ensures r.Some? <==> exists i :: 0 <= i < |source| && source[i].0 == name
    ensures r.Some? ==> exists i :: 0 <= i < |source| && source[i] == (name, r.value)
  {
    if source == [] then None
    else
      match ValueNamed(source[..|source| - 1], name)
      case Some(w) => Some(w)
      case None => if source[|source| - 1].0 == name then Some(source[|source| - 1].1) else None
  }

  /** `decode(_:forKey:)`: the field whose name is the key's `stringValue`, decoded as a value. */
  function DecodeForKey<K, V, W, E>(coding: KeyCoding<K>, source: seq<(string, W)>, decodeValue: W -> Result<V, E>, k: K): Result<V, DecodingError<E>> {
    match ValueNamed(source, coding.stringValue(k))
    case None => Failure(KeyNotFound(coding.stringValue(k)))
    case Some(w) =>
      match decodeValue(w)
      case Success(v) => Success(v)
      case Failure(e) => Failure(ValueError(e))
  }
}
