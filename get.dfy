/** `src/get.js`: reading the value at a key path, with the tokenised form
    of string paths kept in a bounded cache. */
module Get {
  import opened JsValues
  import opened JsMaps
  import opened Trim

  // ---------------------------------------------------------------------
  // memoizeString
  // ---------------------------------------------------------------------

  /** The function `memoizeString(func)` returns, with the `Map` it closes
      over: `func`'s results by argument, cut back to the newest MAX_KEYS
      entries whenever a new one makes the map grow past them. */
  class StringMemo<R> {
    const func: string -> R
    const cache: JsMap<string, R>

    ghost predicate Valid()
      reads this, cache
    {
      && cache.Valid()
      && |cache.order| <= MAX_KEYS
      && forall k | k in cache.entries :: cache.entries[k] == func(k)
    }

    /** `memoizeString(func)` */
    constructor (func: string -> R)
      ensures Valid() && this.func == func && fresh(cache)
      ensures cache.order == [] && cache.entries == map[]
    {
      this.func := func;
      cache := new JsMap();
    }

    /** A call `(string)`: the cached result for a string already present,
        without running `func`; otherwise `func`'s result, stored as the
        newest entry, the oldest ones evicted past MAX_KEYS. Either way the
        result is `func(string)`. */
    method Call(s: string) returns (r: R, invoked: bool)
      requires Valid()
      modifies cache
      ensures Valid()
      ensures r == func(s)
      ensures invoked <==> s !in old(cache.entries)
      ensures !invoked ==> cache.order == old(cache.order) && cache.entries == old(cache.entries)
      ensures invoked ==> cache.order == Newest(old(cache.order) + [s], MAX_KEYS) && s in cache.entries
      ensures forall k | k in cache.entries :: k in old(cache.entries) || k == s
    {
      if cache.Has(s) {
        return cache.entries[s], false;
      }
      var result := func(s);
      SetAndTrim(cache, s, result);
      return result, true;
    }
  }

  /** `cache.set(string, result)` for a string not yet present, then a
      trim once the map holds more than MAX_KEYS entries. */
  method SetAndTrim<V>(cache: JsMap<string, V>, s: string, v: V)
    requires cache.Valid() && s !in cache.entries
    modifies cache
    ensures cache.Valid()
    ensures cache.order == Newest(old(cache.order) + [s], MAX_KEYS)
    ensures s in cache.entries && cache.entries[s] == v
    ensures forall k | k in cache.entries && k != s :: k in old(cache.entries) && cache.entries[k] == old(cache.entries)[k]
  {
    cache.Set(s, v);
    ghost var added := cache.order;
    if cache.Size() > MAX_KEYS {
      TrimCache(cache);
    }
    NewestKeepsLast(added, MAX_KEYS);
  }

  /** On a full cache, a miss evicts exactly the oldest entry. */
  lemma MissOnFullEvictsOldest<K>(order: seq<K>, s: K)
    requires |order| == MAX_KEYS
    ensures Newest(order + [s], MAX_KEYS) == order[1..] + [s]
  {
  }

  // ---------------------------------------------------------------------
  // baseGet and get
  // ---------------------------------------------------------------------

  /** The `path` argument: an array of keys used as given, or a string that
      `stringToPath` tokenises into keys. */
  datatype Path = KeyPath(keys: seq<Value>) | StringPath(s: string)

  /** The keys a path stands for, under the tokenizer `tokenize`. */
  function Keys(tokenize: string -> seq<Value>, path: Path): seq<Value> {
    match path
    case KeyPath(keys) => keys
    case StringPath(s) => tokenize(s)
  }

  /** The value reached by following `keys` from `v`, one property read per
      key: `undefined` as soon as a nullish value is met with keys left. */
  function PathValue(heap: Heap, v: Value, keys: seq<Value>): Value
    decreases |keys|
  {
    if keys == [] then v
    else if IsNullish(v) then Undefined
    else PathValue(heap, heap(v, keys[0]), keys[1..])
  }

  /** Following `a + b` is following `a`, then `b` from where `a` ended:
      stopping early at a nullish value gives `undefined` either way. */
  lemma {:induction false} PathValueAppend(heap: Heap, v: Value, a: seq<Value>, b: seq<Value>)
    ensures PathValue(heap, v, a + b) == PathValue(heap, PathValue(heap, v, a), b)
    decreases |a|
  {
    if a == [] {
      assert a + b == b;
    } else if IsNullish(v) {
      PathValueFromNullish(heap, v, b);
    } else {
      assert (a + b)[1..] == a[1..] + b;
      PathValueAppend(heap, heap(v, a[0]), a[1..], b);
    }
  }

  /** From a nullish value every non-empty path leads to `undefined`. */
  lemma PathValueFromNullish(heap: Heap, v: Value, keys: seq<Value>)
    requires IsNullish(v)
    ensures PathValue(heap, v, keys) == if keys == [] then v else Undefined
  {
  }

  /** `baseGet(obj, path)`: an array path is used as given, a string path
      goes through the `stringToPath` cache; the loop reads one key per
      step and stops with `undefined` at a nullish value. */
  method BaseGet(stringToPath: StringMemo<seq<Value>>, heap: Heap, obj: Value, path: Path)
    returns (r: Value)
    requires stringToPath.Valid()
    modifies stringToPath.cache
    ensures stringToPath.Valid()
    ensures r == PathValue(heap, obj, Keys(stringToPath.func, path))
    ensures path.KeyPath? ==> unchanged(stringToPath.cache)
  {
    var paths;
    if path.KeyPath? {
      paths := path.keys;
    } else {
      var tokenized;
      paths, tokenized := stringToPath.Call(path.s);
    }
    var val := obj;
    var index := 0;
    while index < |paths|
      invariant 0 <= index <= |paths|
      invariant PathValue(heap, val, paths[index..]) == PathValue(heap, obj, paths)
      decreases |paths| - index
    {
      if IsNullish(val) {
        return Undefined;
      }
      val := heap(val, paths[index]);
      index := index + 1;
    }
    return val;
  }

  /** What `get(obj, path, defaultValue)` returns for the keys of `path`. */
  function GetValue(heap: Heap, obj: Value, keys: seq<Value>, defaultValue: Value): (r: Value)
    ensures IsNullish(obj) ==> r == defaultValue
    ensures !IsNullish(obj) && PathValue(heap, obj, keys) == Undefined ==> r == defaultValue
    ensures !IsNullish(obj) && PathValue(heap, obj, keys) != Undefined ==> r == PathValue(heap, obj, keys)
  {
    var result := if IsNullish(obj) then Undefined else PathValue(heap, obj, keys);
    if result == Undefined then defaultValue else result
  }

  /** `get(obj, path, defaultValue)`: a nullish `obj` gives the default
      without tokenising the path. */
  method Get(stringToPath: StringMemo<seq<Value>>, heap: Heap, obj: Value, path: Path, defaultValue: Value)
    returns (r: Value)
    requires stringToPath.Valid()
    modifies stringToPath.cache
    ensures stringToPath.Valid()
    ensures r == GetValue(heap, obj, Keys(stringToPath.func, path), defaultValue)
    ensures IsNullish(obj) ==> unchanged(stringToPath.cache)
  {
    var result := Undefined;
    if !IsNullish(obj) {
      result := BaseGet(stringToPath, heap, obj, path);
    }
    r := if result == Undefined then defaultValue else result;
  }

  /** A `null` found at the end of the path is returned as `null`, not
      replaced by the default; only `undefined` is. */
  lemma GetKeepsNull(heap: Heap, obj: Value, keys: seq<Value>, defaultValue: Value)
    requires !IsNullish(obj) && PathValue(heap, obj, keys) == Null
    ensures GetValue(heap, obj, keys, defaultValue) == Null
  {
  }
}
