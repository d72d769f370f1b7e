/** `CodableDictionary`: a wrapper around a dictionary `Key -> Value` that always encodes as a keyed
    (object-shaped) container, one field per entry named by the key's `stringValue`, and decodes
    from one. The wrapped dictionary is the `map` field `dictionary`. */
module Container {
  import opened Wrappers
  import opened Keys
  import opened KeyedCoding

  // ---------------------------------------------------------------------------------------------
  // Filling a dictionary from a sequence of pairs.

  /** The keys occurring in `pairs`. */
  function KeysOf<K, V>(pairs: seq<(K, V)>): set<K> {
    set i | 0 <= i < |pairs| :: pairs[i].0
  }

  /** `dictionary[key] = value` for each pair in turn: later pairs overwrite earlier ones. */
  function Assigned<K, V>(pairs: seq<(K, V)>): map<K, V> {
    if pairs == [] then map[]
    else Assigned(pairs[..|pairs| - 1])[pairs[|pairs| - 1].0 := pairs[|pairs| - 1].1]
  }

  /** In the assigned dictionary a key holds the value of its last occurrence. */
  lemma {:induction false} AssignedLastWins<K, V>(pairs: seq<(K, V)>, i: int)
    requires 0 <= i < |pairs|
    requires forall j :: i < j < |pairs| ==> pairs[j].0 != pairs[i].0
    ensures pairs[i].0 in Assigned(pairs) && Assigned(pairs)[pairs[i].0] == pairs[i].1
  {
    var n := |pairs|;
    if i < n - 1 {
      AssignedLastWins(pairs[..n - 1], i);
    }
  }

  /** The assigned dictionary has exactly the keys of the pairs. */
  lemma {:induction false} AssignedKeys<K, V>(pairs: seq<(K, V)>)
    ensures Assigned(pairs).Keys == KeysOf(pairs)
  {
    if pairs != [] {
      var n := |pairs|;
      AssignedKeys(pairs[..n - 1]);
      assert KeysOf(pairs) == KeysOf(pairs[..n - 1]) + {pairs[n - 1].0} by {
        forall k | k in KeysOf(pairs) ensures k in KeysOf(pairs[..n - 1]) + {pairs[n - 1].0} {
          var i :| 0 <= i < n && pairs[i].0 == k;
          if i < n - 1 {
            assert pairs[..n - 1][i].0 == k;
          }
        }
      }
    }
  }

  /** The value a merge stores for `k` when `v` arrives: `combine(old, new)` if `k` is present. */
  function Combined<K, V>(m: map<K, V>, k: K, v: V, combine: (V, V) -> V): map<K, V> {
    if k in m then m[k := combine(m[k], v)] else m[k := v]
  }

  /** `Dictionary.merge(_:uniquingKeysWith:)`: the pairs merged into `m` in order. */
  function Merged<K, V>(m: map<K, V>, pairs: seq<(K, V)>, combine: (V, V) -> V): map<K, V> {
    if pairs == [] then m
    else
      var last := pairs[|pairs| - 1];
      Combined(Merged(m, pairs[..|pairs| - 1], combine), last.0, last.1, combine)
  }

  /** A merge keeps every key of both sides and no other. */
  lemma {:induction false} MergedKeys<K, V>(m: map<K, V>, pairs: seq<(K, V)>, combine: (V, V) -> V)
    ensures Merged(m, pairs, combine).Keys == m.Keys + KeysOf(pairs)
  {
    if pairs != [] {
      var n := |pairs|;
      MergedKeys(m, pairs[..n - 1], combine);
      assert KeysOf(pairs) == KeysOf(pairs[..n - 1]) + {pairs[n - 1].0} by {
        forall k | k in KeysOf(pairs) ensures k in KeysOf(pairs[..n - 1]) + {pairs[n - 1].0} {
          var i :| 0 <= i < n && pairs[i].0 == k;
          if i < n - 1 {
            assert pairs[..n - 1][i].0 == k;
          }
        }
      }
    }
  }

  /** A key the pairs do not mention keeps its value. */
  lemma {:induction false} MergedUntouched<K, V>(m: map<K, V>, pairs: seq<(K, V)>, combine: (V, V) -> V, k: K)
    requires k in m && k !in KeysOf(pairs)
    ensures k in Merged(m, pairs, combine) && Merged(m, pairs, combine)[k] == m[k]
  {
    if pairs != [] {
      var n := |pairs|;
      assert pairs[n - 1].0 in KeysOf(pairs);
      assert KeysOf(pairs[..n - 1]) <= KeysOf(pairs) by {
        forall key | key in KeysOf(pairs[..n - 1]) ensures key in KeysOf(pairs) {
          var j :| 0 <= j < n - 1 && pairs[..n - 1][j].0 == key;
          assert pairs[j].0 == key;
        }
      }
      MergedUntouched(m, pairs[..n - 1], combine, k);
    }
  }

  /** A key the pairs mention once gets `combine(old, new)` if it was present, else the new value. */
  lemma {:induction false} MergedOnce<K, V>(m: map<K, V>, pairs: seq<(K, V)>, combine: (V, V) -> V, i: int)
    requires 0 <= i < |pairs|
    requires forall j :: 0 <= j < |pairs| && j != i ==> pairs[j].0 != pairs[i].0
    ensures pairs[i].0 in Merged(m, pairs, combine)
    ensures Merged(m, pairs, combine)[pairs[i].0] == if pairs[i].0 in m then combine(m[pairs[i].0], pairs[i].1) else pairs[i].1
  {
    var n := |pairs|;
    var k := pairs[i].0;
    var front := pairs[..n - 1];
    if i == n - 1 {
      assert k !in KeysOf(front);
      MergedKeys(m, front, combine);
      if k in m {
        MergedUntouched(m, front, combine, k);
      }
    } else {
      MergedOnce(m, front, combine, i);
    }
  }

  /** Assigning in order is merging into an empty dictionary keeping the newer value. */
  lemma {:induction false} AssignedIsMergeKeepingNew<K, V>(pairs: seq<(K, V)>)
    ensures Assigned(pairs) == Merged(map[], pairs, (previous: V, latest: V) => latest)
  {
    if pairs != [] {
      AssignedIsMergeKeepingNew(pairs[..|pairs| - 1]);
    }
  }

  /** `Dictionary(grouping:by:)`: every element appended to the group of its key. */
  function Grouped<K, T>(values: seq<T>, keyFor: T -> K): map<K, seq<T>> {
    if values == [] then map[]
    else
      var groups := Grouped(values[..|values| - 1], keyFor);
      var x := values[|values| - 1];
      var k := keyFor(x);
      groups[k := (if k in groups then groups[k] else []) + [x]]
  }

  /** The elements whose key is `k`, in their original order. */
  function WithKey<K(==), T>(values: seq<T>, keyFor: T -> K, k: K): seq<T> {
    if values == [] then []
    else WithKey(values[..|values| - 1], keyFor, k) + (if keyFor(values[|values| - 1]) == k then [values[|values| - 1]] else [])
  }

  /** The groups are exactly the keys of the elements, and each group lists the elements with that
      key in order. */
  lemma {:induction false} GroupedSpec<K, T>(values: seq<T>, keyFor: T -> K, k: K)
    ensures k in Grouped(values, keyFor) <==> exists i :: 0 <= i < |values| && keyFor(values[i]) == k
    ensures k in Grouped(values, keyFor) ==> Grouped(values, keyFor)[k] == WithKey(values, keyFor, k)
    ensures k !in Grouped(values, keyFor) ==> WithKey(values, keyFor, k) == []
  {
    if values != [] {
      var n := |values|;
      var front := values[..n - 1];
      GroupedSpec(front, keyFor, k);
      if exists i :: 0 <= i < n - 1 && keyFor(front[i]) == k {
        var i :| 0 <= i < n - 1 && keyFor(front[i]) == k;
        assert values[i] == front[i];
      }
      if exists i :: 0 <= i < n && keyFor(values[i]) == k {
        var i :| 0 <= i < n && keyFor(values[i]) == k;
        if i < n - 1 {
          assert front[i] == values[i];
        }
      }
    }
  }

  // ---------------------------------------------------------------------------------------------
  // Encoding: the fields written to the keyed sink.

  /** `order` lists every key of `keys` exactly once. */
  ghost predicate Lists<K>(order: seq<K>, keys: set<K>) {
    && (forall i, j :: 0 <= i < j < |order| ==> order[i] != order[j])
    && (forall k | k in order :: k in keys)
    && (forall k | k in keys :: k in order)
  }

  /** A listing of a key set is as long as the set is large. */
  lemma {:induction false} ListsLength<K>(order: seq<K>, keys: set<K>)
    requires Lists(order, keys)
    ensures |order| == |keys|
  {
    if order != [] {
      var n := |order|;
      var front, last := order[..n - 1], order[n - 1];
      assert order == front + [last];
      assert last in order;
      forall i, j | 0 <= i < j < |front| ensures front[i] != front[j] {
        assert front[i] == order[i] && front[j] == order[j];
      }
      forall k | k in front ensures k in keys - {last} {
        var i :| 0 <= i < n - 1 && front[i] == k;
        assert order[i] == k;
      }
      ListsLength(front, keys - {last});
    }
  }

  /** The fields written for the keys in `order`: each value encoded, under its key's field name. */
  function Written<K, V, W, E>(order: seq<K>, m: map<K, V>, name: K -> string, encodeValue: V -> Result<W, E>): (fields: seq<(string, W)>)
    requires forall k :: k in order ==> k in m && encodeValue(m[k]).Success?
    ensures |fields| == |order|
  {
    seq(|order|, i requires 0 <= i < |order| => (name(order[i]), encodeValue(m[order[i]]).value))
  }

  /** A dictionary of one entry, in whatever order it is walked, encodes as the single field of
      that entry. */
  lemma SingleEntryEncoding<K, V, W, E>(order: seq<K>, k: K, v: V, name: K -> string, encodeValue: V -> Result<W, E>)
    requires Lists(order, {k})
    requires encodeValue(v).Success?
    ensures Written(order, map[k := v], name, encodeValue) == [(name(k), encodeValue(v).value)]
  {
    ListsLength(order, {k});
    assert order[0] in order;
    assert order == [k];
  }

  // ---------------------------------------------------------------------------------------------
  // Decoding: one entry for each key the keyed source exposes.

  /** Decoding the keys one after the other into an empty dictionary; the first failure ends it. */
  function DecodeKeys<K, V, W, E>(coding: KeyCoding<K>, source: seq<(string, W)>, decodeValue: W -> Result<V, E>, keys: seq<K>): Result<map<K, V>, DecodingError<E>> {
    if keys == [] then Success(map[])
    else
      match DecodeKeys(coding, source, decodeValue, keys[..|keys| - 1])
      case Failure(e) => Failure(e)
      case Success(m) =>
        var k := keys[|keys| - 1];
        match DecodeForKey(coding, source, decodeValue, k)
        case Failure(e) => Failure(e)
        case Success(v) => Success(m[k := v])
  }

  /** `init(from:)` as a value: decode every exposed key. */
  function Decoded<K, V, W, E>(coding: KeyCoding<K>, source: seq<(string, W)>, decodeValue: W -> Result<V, E>): Result<map<K, V>, DecodingError<E>> {
    DecodeKeys(coding, source, decodeValue, AllKeys(coding, source))
  }

  /** Decoding succeeds exactly when every key's value decodes; the result then has exactly the
      given keys, each with its decoded value; otherwise the error is that of the first key that
      failed. */
  lemma {:induction false} DecodeKeysOutcome<K, V, W, E>(coding: KeyCoding<K>, source: seq<(string, W)>, decodeValue: W -> Result<V, E>, keys: seq<K>)
    ensures DecodeKeys(coding, source, decodeValue, keys).Success? <==>
      forall i :: 0 <= i < |keys| ==> DecodeForKey(coding, source, decodeValue, keys[i]).Success?
    ensures DecodeKeys(coding, source, decodeValue, keys).Success? ==>
      var m := DecodeKeys(coding, source, decodeValue, keys).value;
      && (forall k :: k in m <==> k in keys)
      && (forall k :: k in m ==> DecodeForKey(coding, source, decodeValue, k) == Success(m[k]))
    ensures DecodeKeys(coding, source, decodeValue, keys).Failure? ==>
      exists i :: 0 <= i < |keys|
        && DecodeForKey(coding, source, decodeValue, keys[i]) == Failure(DecodeKeys(coding, source, decodeValue, keys).error)
        && forall j :: 0 <= j < i ==> DecodeForKey(coding, source, decodeValue, keys[j]).Success?
  {
    if keys != [] {
      var n := |keys|;
      var front := keys[..n - 1];
      DecodeKeysOutcome(coding, source, decodeValue, front);
      assert forall i :: 0 <= i < n - 1 ==> front[i] == keys[i];
      var r := DecodeKeys(coding, source, decodeValue, front);
      if r.Failure? {
        var i :| 0 <= i < n - 1
          && DecodeForKey(coding, source, decodeValue, front[i]) == Failure(r.error)
          && forall j :: 0 <= j < i ==> DecodeForKey(coding, source, decodeValue, front[j]).Success?;
        assert DecodeForKey(coding, source, decodeValue, keys[i]) == Failure(r.error);
      }
    }
  }

  /** Once a prefix of the keys fails, decoding the rest changes nothing. */
  lemma {:induction false} DecodeKeysFailurePersists<K, V, W, E>(coding: KeyCoding<K>, source: seq<(string, W)>, decodeValue: W -> Result<V, E>, keys: seq<K>, j: nat)
    requires j <= |keys|
    requires DecodeKeys(coding, source, decodeValue, keys[..j]).Failure?
    ensures DecodeKeys(coding, source, decodeValue, keys) == DecodeKeys(coding, source, decodeValue, keys[..j])
  {
    if j < |keys| {
      var front := keys[..|keys| - 1];
      assert front[..j] == keys[..j];
      DecodeKeysFailurePersists(coding, source, decodeValue, front, j);
    } else {
      assert keys[..j] == keys;
    }
  }

  /** When every key decodes to the value `m` holds for it, decoding the keys gives `m` restricted
      to them. */
  lemma {:induction false} DecodeKeysAllSucceed<K, V, W, E>(coding: KeyCoding<K>, source: seq<(string, W)>, decodeValue: W -> Result<V, E>, keys: seq<K>, m: map<K, V>)
    requires forall k :: k in keys ==> k in m && DecodeForKey(coding, source, decodeValue, k) == Success(m[k])
    ensures DecodeKeys(coding, source, decodeValue, keys) == Success(map k | k in keys :: m[k])
  {
    if keys != [] {
      var n := |keys|;
      var front := keys[..n - 1];
      assert keys == front + [keys[n - 1]];
      DecodeKeysAllSucceed(coding, source, decodeValue, front, m);
      assert (map k | k in front :: m[k])[keys[n - 1] := m[keys[n - 1]]] == map k | k in keys :: m[k];
    }
  }

  /** The keyed source built from encoded fields exposes exactly the keys written, in writing
      order, when those keys round-trip through their field names. */
  lemma {:induction false} AllKeysOfWritten<K, V, W, E>(coding: KeyCoding<K>, order: seq<K>, m: map<K, V>, encodeValue: V -> Result<W, E>)
    requires forall k :: k in order ==> k in m && encodeValue(m[k]).Success?
    requires forall k :: k in order ==> StringRoundTrips(coding, k)
    ensures AllKeys(coding, Written(order, m, coding.stringValue, encodeValue)) == order
  {
    if order != [] {
      var n := |order|;
      var fields := Written(order, m, coding.stringValue, encodeValue);
      assert fields[..n - 1] == Written(order[..n - 1], m, coding.stringValue, encodeValue);
      AllKeysOfWritten(coding, order[..n - 1], m, encodeValue);
      assert order[n - 1] in order;
      assert order == order[..n - 1] + [order[n - 1]];
    }
  }

  /** The field of a written key holds that key's encoded value: field names of round-tripping,
      distinct keys are distinct. */
  lemma ValueNamedInWritten<K, V, W, E>(coding: KeyCoding<K>, order: seq<K>, m: map<K, V>, encodeValue: V -> Result<W, E>, k: K)
    requires Lists(order, m.Keys)
    requires forall k :: k in m ==> encodeValue(m[k]).Success? && StringRoundTrips(coding, k)
    requires k in m
    ensures ValueNamed(Written(order, m, coding.stringValue, encodeValue), coding.stringValue(k)) == Some(encodeValue(m[k]).value)
  {
    var fields := Written(order, m, coding.stringValue, encodeValue);
    var i :| 0 <= i < |order| && order[i] == k;
    assert fields[i] == (coding.stringValue(k), encodeValue(m[k]).value);
    var w := ValueNamed(fields, coding.stringValue(k)).value;
    var j :| 0 <= j < |fields| && fields[j] == (coding.stringValue(k), w);
    assert coding.stringValue(order[j]) == coding.stringValue(k);
    assert StringRoundTrips(coding, order[j]);
    assert order[j] == k;
  }

  /** The fields written for distinct keys that round-trip through their names carry distinct
      names, so the keyed sink never sees a name twice. */
  lemma WrittenNamesDistinct<K, V, W, E>(coding: KeyCoding<K>, order: seq<K>, m: map<K, V>, encodeValue: V -> Result<W, E>, i: int, j: int)
    requires Lists(order, m.Keys)
    requires forall k :: k in m ==> encodeValue(m[k]).Success? && StringRoundTrips(coding, k)
    requires 0 <= i < j < |order|
    ensures Written(order, m, coding.stringValue, encodeValue)[i].0 != Written(order, m, coding.stringValue, encodeValue)[j].0
  {
  }

  /** Decoding what encoding wrote gives back the dictionary, provided every key round-trips
      through its field name and every value through its own coding. */
  lemma DecodeEncodeRoundTrip<K, V, W, E>(coding: KeyCoding<K>, m: map<K, V>, order: seq<K>, encodeValue: V -> Result<W, E>, decodeValue: W -> Result<V, E>)
    requires Lists(order, m.Keys)
    requires forall k :: k in m ==> StringRoundTrips(coding, k)
    requires forall k :: k in m ==> encodeValue(m[k]).Success? && decodeValue(encodeValue(m[k]).value) == Success(m[k])
    ensures Decoded(coding, Written(order, m, coding.stringValue, encodeValue), decodeValue) == Success(m)
  {
    var fields := Written(order, m, coding.stringValue, encodeValue);
    assert AllKeys(coding, fields) == order by {
      AllKeysOfWritten(coding, order, m, encodeValue);
    }
    assert DecodeKeys(coding, fields, decodeValue, order) == Success(map k | k in order :: m[k]) by {
      forall k | k in order ensures k in m && DecodeForKey(coding, fields, decodeValue, k) == Success(m[k]) {
        ValueNamedInWritten(coding, order, m, encodeValue, k);
      }
      DecodeKeysAllSucceed(coding, fields, decodeValue, order, m);
    }
    assert (map k | k in order :: m[k]) == m;
  }

  // ---------------------------------------------------------------------------------------------

  class CodableDictionary<K(==), V> {
    /** The wrapped dictionary. */
    var dictionary: map<K, V>

    /** `init()`: an empty dictionary. */
    constructor ()
      ensures dictionary == map[]
    {
      dictionary := map[];
    }

    /** `init(minimumCapacity:)`: an empty dictionary; the capacity hint has no visible effect. */
    constructor WithMinimumCapacity(minimumCapacity: int)
      ensures dictionary == map[]
    {
      dictionary := map[];
    }

    /** `init(uniqueKeysWithValues:)` given a `Dictionary`: wraps it as it is. */
    constructor FromDictionary(d: map<K, V>)
      ensures dictionary == d
    {
      dictionary := d;
    }

    /** `init(uniqueKeysWithValues:)` given any other sequence: assigns the pairs in order, so a
        repeated key keeps its last value. */
    constructor UniqueKeysWithValues(keysAndValues: seq<(K, V)>)
      ensures dictionary == Assigned(keysAndValues)
    {
      dictionary := map[];
      new;
      for i := 0 to |keysAndValues|
        invariant dictionary == Assigned(keysAndValues[..i])
      {
        assert keysAndValues[..i + 1][..i] == keysAndValues[..i];
        var (key, value) := keysAndValues[i];
        dictionary := dictionary[key := value];
      }
      assert keysAndValues[..|keysAndValues|] == keysAndValues;
    }

    /** `init(_:uniquingKeysWith:)`: a repeated key gets `combine(old, new)`. */
    constructor UniquingKeysWith(keysAndValues: seq<(K, V)>, combine: (V, V) -> V)
      ensures dictionary == Merged(map[], keysAndValues, combine)
    {
      dictionary := Merged(map[], keysAndValues, combine);
    }

    /** `init(dictionaryLiteral:)`: assigns the elements in order, so a repeated key keeps its
        last value. */
    constructor DictionaryLiteral(elements: seq<(K, V)>)
      ensures dictionary == Assigned(elements)
    {
      dictionary := map[];
      new;
      for i := 0 to |elements|
        invariant dictionary == Assigned(elements[..i])
      {
        assert elements[..i + 1][..i] == elements[..i];
        var (key, value) := elements[i];
        dictionary := dictionary[key := value];
      }
      assert elements[..|elements|] == elements;
    }

    function IsEmpty(): (r: bool)
      reads this
      ensures r <==> dictionary == map[]
    {
      |dictionary| == 0
    }

    function Count(): (n: nat)
      reads this
      ensures n == |dictionary.Keys|
      ensures n == 0 <==> IsEmpty()
    {
      |dictionary|
    }

    /** `self[key]`: the stored value, or nil when the key is absent. */
    function Get(key: K): (r: Option<V>)
      reads this
      ensures r.Some? <==> key in dictionary
      ensures r.Some? ==> r.value == dictionary[key]
    {
      if key in dictionary then Some(dictionary[key]) else None
    }

    /** `self[key] = newValue`: nil removes the key, a value stores it; other keys are unchanged. */
    method Set(key: K, newValue: Option<V>)
      modifies this
      ensures Get(key) == newValue
      ensures dictionary == match newValue
        case None => old(dictionary) - {key}
        case Some(v) => old(dictionary)[key := v]
    {
      match newValue
      case None => dictionary := dictionary - {key};
      case Some(v) => dictionary := dictionary[key := v];
    }

    /** `self[key, default: defaultValue]`: the stored value, or the default when the key is
        absent. */
    function GetOrDefault(key: K, defaultValue: V): (r: V)
      reads this
      ensures key in dictionary ==> r == dictionary[key]
      ensures key !in dictionary ==> r == defaultValue
    {
      if key in dictionary then dictionary[key] else defaultValue
    }

    /** `self[key, default: defaultValue] = newValue`: stores the new value at the key. */
    method SetOrDefault(key: K, defaultValue: V, newValue: V)
      modifies this
      ensures GetOrDefault(key, defaultValue) == newValue
      ensures dictionary == old(dictionary)[key := newValue]
    {
      dictionary := dictionary[key := newValue];
    }

    /** `updateValue(_:forKey:)`: stores the value and returns the previous one, or nil. */
    method UpdateValue(value: V, key: K) returns (previous: Option<V>)
      modifies this
      ensures previous == old(Get(key))
      ensures dictionary == old(dictionary)[key := value]
    {
      previous := Get(key);
      dictionary := dictionary[key := value];
    }

    /** `removeValue(forKey:)`: removes the key and returns its value, or nil; every other entry
        is unchanged. */
    method RemoveValue(key: K) returns (removed: Option<V>)
      modifies this
      ensures removed == old(Get(key))
      ensures key !in dictionary
      ensures dictionary == old(dictionary) - {key}
    {
      removed := Get(key);
      dictionary := dictionary - {key};
    }

    /** `removeAll(keepingCapacity:)`: empties the dictionary; the capacity flag has no visible
        effect. */
    method RemoveAll(keepingCapacity: bool)
      modifies this
      ensures dictionary == map[]
    {
      dictionary := map[];
    }

    /** `merge(_:uniquingKeysWith:)`: merges the pairs in, resolving a shared key with
        `combine(old, new)`. */
    method Merge(other: seq<(K, V)>, combine: (V, V) -> V)
      modifies this
      ensures dictionary == Merged(old(dictionary), other, combine)
      ensures dictionary.Keys == old(dictionary).Keys + KeysOf(other)
    {
      MergedKeys(dictionary, other, combine);
      dictionary := Merged(dictionary, other, combine);
    }

    /** `merging(_:uniquingKeysWith:)`: the merge as a new dictionary; this one is unchanged. */
    method Merging(other: seq<(K, V)>, combine: (V, V) -> V) returns (r: CodableDictionary<K, V>)
      ensures fresh(r)
      ensures r.dictionary == Merged(dictionary, other, combine)
      ensures r.dictionary.Keys == dictionary.Keys + KeysOf(other)
    {
      MergedKeys(dictionary, other, combine);
      r := new CodableDictionary.FromDictionary(Merged(dictionary, other, combine));
    }

    /** `mapValues(_:)`: a new dictionary with the same keys, each value transformed. */
    method MapValues<T>(transform: V -> T) returns (r: CodableDictionary<K, T>)
      ensures fresh(r)
      ensures r.dictionary.Keys == dictionary.Keys
      ensures forall k :: k in dictionary ==> r.dictionary[k] == transform(dictionary[k])
    {
      r := new CodableDictionary.FromDictionary(map k | k in dictionary :: transform(dictionary[k]));
    }

    /** `encode(to:)`: walks the dictionary in some order and writes each value, encoded, under
        the key's `stringValue`; the first value that fails to encode ends it with that error. */
    method Encode<W, E>(coding: KeyCoding<K>, encodeValue: V -> Result<W, E>) returns (r: Result<seq<(string, W)>, E>, ghost order: seq<K>)
      ensures r.Success? <==> forall k :: k in dictionary ==> encodeValue(dictionary[k]).Success?
      ensures r.Success? ==> Lists(order, dictionary.Keys) && r.value == Written(order, dictionary, coding.stringValue, encodeValue)
      ensures r.Success? ==> |r.value| == Count()
      ensures r.Failure? ==> exists k :: k in dictionary && encodeValue(dictionary[k]) == Failure(r.error)
    {
      var fields: seq<(string, W)> := [];
      var remaining := dictionary.Keys;
      order := [];
      while remaining != {}
        invariant remaining <= dictionary.Keys
        invariant Lists(order, dictionary.Keys - remaining)
        invariant forall k :: k in order ==> encodeValue(dictionary[k]).Success?
        invariant fields == Written(order, dictionary, coding.stringValue, encodeValue)
        decreases remaining
      {
        var key :| key in remaining;
        var encoded := encodeValue(dictionary[key]);
        if encoded.Failure? {
          return Failure(encoded.error), order;
        }
        fields := fields + [(coding.stringValue(key), encoded.value)];
        order := order + [key];
        remaining := remaining - {key};
      }
      ListsLength(order, dictionary.Keys);
      r := Success(fields);
    }

    /** `init(from:)`: starts empty and stores, for each key the keyed source exposes, the value
        decoded for it; the first failure ends the decode with that error. */
    static method Decode<W, E>(coding: KeyCoding<K>, source: seq<(string, W)>, decodeValue: W -> Result<V, E>)
      returns (r: Result<CodableDictionary<K, V>, DecodingError<E>>)
      ensures r.Success? ==> fresh(r.value) && Decoded(coding, source, decodeValue) == Success(r.value.dictionary)
      ensures r.Failure? ==> Decoded(coding, source, decodeValue) == Failure(r.error)
    {
      var allKeys := AllKeys(coding, source);
      var d := new CodableDictionary<K, V>();
      for i := 0 to |allKeys|
        invariant fresh(d)
        invariant DecodeKeys(coding, source, decodeValue, allKeys[..i]) == Success(d.dictionary)
      {
        var key := allKeys[i];
        var value := DecodeForKey(coding, source, decodeValue, key);
        assert allKeys[..i + 1][..i] == allKeys[..i];
        if value.Failure? {
          DecodeKeysFailurePersists(coding, source, decodeValue, allKeys, i + 1);
          return Failure(value.error);
        }
        d.Set(key, Some(value.value));
      }
      assert allKeys[..|allKeys|] == allKeys;
      r := Success(d);
    }
  }

  /** `init(grouping:by:)`: the elements grouped by their key, each group in original order. */
  method Grouping<K(==), T>(values: seq<T>, keyFor: T -> K) returns (r: CodableDictionary<K, seq<T>>)
    ensures fresh(r)
    ensures r.dictionary == Grouped(values, keyFor)
  {
    r := new CodableDictionary.FromDictionary(Grouped(values, keyFor));
  }
}
