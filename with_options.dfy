/** `src/helpers/withOptions.js`: selectors made by a creator from options,
    memoised on the serialised options through a stable wrapper object. */
module WithOptions {
  import opened JsValues
  import opened JsMaps
  import Trim
  import opened MemoizeSelector
  import opened CreateSelector

  /** The most wrappers the options map keeps (`MAX_KEYS` of this file,
      not the one of the trimCache helper). */
  const MAX_WRAPPERS: nat := 100

  // ---------------------------------------------------------------------
  // createOptionsMap
  // ---------------------------------------------------------------------

  /** Distinct keys have distinct wrappers. */
  ghost predicate Injective(m: map<string, JsObject>) {
    forall k1, k2 | k1 in m && k2 in m && k1 != k2 :: m[k1] != m[k2]
  }

  /** A map keeps distinct wrappers when it gains a wrapper none of its
      keys had, and when it loses keys. */
  lemma InjectiveAddThenDrop(m: map<string, JsObject>, k: string, w: JsObject, m': map<string, JsObject>)
    requires Injective(m) && k !in m && forall k0 | k0 in m :: m[k0] != w
    requires forall k0 | k0 in m' :: k0 in m[k := w] && m'[k0] == m[k := w][k0]
    ensures Injective(m')
  {
  }

  /** The function `createOptionsMap()` returns, with its `wrapperMap` and
      its `keys` queue. `optionsOf` holds the `options` property of every
      wrapper it made, which only this function writes. */
  class OptionsMap {
    /** `JSON.stringify`, reading the options' properties in the heap. */
    const stringify: (Heap, seq<Value>) -> string
    const wrapperMap: JsMap<string, JsObject>
    var keys: seq<string>
    var optionsOf: map<JsObject, seq<Value>>

    /** The queue mirrors the map's insertion order, at most MAX_WRAPPERS
        long; each key has its own wrapper, which has options set. */
    ghost predicate Valid()
      reads this, wrapperMap
    {
      && wrapperMap.Valid()
      && keys == wrapperMap.order
      && |keys| <= MAX_WRAPPERS
      && Injective(wrapperMap.entries)
      && (forall k | k in wrapperMap.entries :: wrapperMap.entries[k] in optionsOf)
    }

    /** `createOptionsMap()` */
    constructor (stringify: (Heap, seq<Value>) -> string)
      ensures Valid() && this.stringify == stringify && fresh(wrapperMap)
      ensures keys == [] && wrapperMap.entries == map[] && optionsOf == map[]
    {
      this.stringify := stringify;
      wrapperMap := new JsMap();
      keys := [];
      optionsOf := map[];
    }

    /** The closure `trimCache()`: shift the oldest key off the queue and
        delete it from the map while the queue is longer than MAX_WRAPPERS. */
    method TrimKeys()
      requires wrapperMap.Valid() && keys == wrapperMap.order
      modifies this`keys, wrapperMap
      ensures wrapperMap.Valid() && keys == wrapperMap.order
      ensures keys == Trim.Newest(old(keys), MAX_WRAPPERS)
      ensures forall k | k in wrapperMap.entries :: k in old(wrapperMap.entries) && wrapperMap.entries[k] == old(wrapperMap.entries)[k]
    {
      while |keys| > MAX_WRAPPERS
        invariant wrapperMap.Valid() && keys == wrapperMap.order
        invariant |keys| <= |old(keys)|
        invariant keys == old(keys)[|old(keys)| - |keys|..]
        invariant |keys| < |old(keys)| ==> |keys| >= MAX_WRAPPERS
        invariant forall k | k in wrapperMap.entries :: k in old(wrapperMap.entries) && wrapperMap.entries[k] == old(wrapperMap.entries)[k]
        decreases |keys|
      {
        var oldest := keys[0];
        keys := keys[1..];
        WithoutFirst(wrapperMap.order);
        wrapperMap.Delete(oldest);
      }
    }

    /** `wrap(options)`: the wrapper of the serialised options, a new one
        when the serialisation is not in the map (the oldest keys then
        leave once there are more than MAX_WRAPPERS); either way its
        `options` property becomes these options. */
    method Wrap(heap: Heap, options: seq<Value>) returns (w: JsObject)
      requires Valid()
      modifies this, wrapperMap
      ensures Valid()
      ensures var key := stringify(heap, options);
        && key in wrapperMap.entries && wrapperMap.entries[key] == w
        && (key in old(wrapperMap.entries) ==>
              w == old(wrapperMap.entries)[key] && keys == old(keys) && wrapperMap.entries == old(wrapperMap.entries))
        && (key !in old(wrapperMap.entries) ==> fresh(w) && keys == Trim.Newest(old(keys) + [key], MAX_WRAPPERS))
        && (forall k | k in wrapperMap.entries && k != key ::
              k in old(wrapperMap.entries) && wrapperMap.entries[k] == old(wrapperMap.entries)[k])
      ensures optionsOf == old(optionsOf)[w := options]
    {
      var key := stringify(heap, options);
      if !wrapperMap.Has(key) {
        ghost var before := wrapperMap.entries;
        var wrapper := new JsObject();
        wrapperMap.Set(key, wrapper);
        keys := keys + [key];
        ghost var added := keys;
        TrimKeys();
        Trim.NewestKeepsLast(added, MAX_WRAPPERS);
        InjectiveAddThenDrop(before, key, wrapper, wrapperMap.entries);
      }
      w := wrapperMap.entries[key];
      optionsOf := optionsOf[w := options];
    }
  }

  /** Two wraps in a row give the same wrapper exactly when the two
      serialisations agree: options that serialise alike share one wrapper
      (and so one memo entry), however different they are. */
  method WrapTwice(m: OptionsMap, h1: Heap, o1: seq<Value>, h2: Heap, o2: seq<Value>)
    returns (w1: JsObject, w2: JsObject)
    requires m.Valid()
    modifies m, m.wrapperMap
    ensures w1 == w2 <==> m.stringify(h1, o1) == m.stringify(h2, o2)
  {
    w1 := m.Wrap(h1, o1);
    w2 := m.Wrap(h2, o2);
  }

  // ---------------------------------------------------------------------
  // filterState and withOptions
  // ---------------------------------------------------------------------

  /** The `argsFilter` of `withOptions`: the identity by default, or
      `filterState`. */
  datatype ArgsFilter = KeepAll | StateOnly

  /** `argsFilter(selectorArgs)`; `filterState` keeps the first argument,
      `undefined` for an empty call. */
  function FilterArgs(filter: ArgsFilter, args: seq<Value>): seq<Value> {
    match filter
    case KeepAll => args
    case StateOnly => [Slot(args, 0)]
  }

  /** `filterState` always yields one argument, the state. */
  lemma FilterStateKeepsState(args: seq<Value>)
    ensures |FilterArgs(StateOnly, args)| == 1
    ensures FilterArgs(StateOnly, args)[0] == Slot(args, 0)
    ensures FilterArgs(StateOnly, args) == FilterArgs(StateOnly, [Slot(args, 0)])
  {
  }

  /** What the memoised selector sees besides its arguments: the heap and
      the `options` property of each wrapper. */
  datatype OptionsEnv = OptionsEnv(heap: Heap, optionsOf: map<JsObject, seq<Value>>)

  /** `({ options }, ...selectorArgs) => creator(...options)(...selectorArgs)`:
      a first argument without options makes the spread throw. */
  function OptionsSelector(creator: (Heap, seq<Value>) -> SelectorArg): (OptionsEnv, seq<Value>) -> Completion<Value> {
    (env: OptionsEnv, args: seq<Value>) =>
      if |args| > 0 && args[0].Obj? && args[0].ref in env.optionsOf
      then Apply(creator(env.heap, env.optionsOf[args[0].ref]), env.heap, args[1..])
      else Throw(NotIterable)
  }

  /** The function `withOptions(creator, argsFilter)` returns, with its
      options map and its memoised selector. */
  class WithOptions {
    const creator: (Heap, seq<Value>) -> SelectorArg
    const argsFilter: ArgsFilter
    const wrap: OptionsMap
    const selector: MemoizedSelector<OptionsEnv, Value>

    /** No wrapper is one of the key map's private objects. */
    ghost predicate Valid()
      reads this, wrap, wrap.wrapperMap, selector, selector.getKey
    {
      && wrap.Valid() && selector.Valid()
      && selector.selector == OptionsSelector(creator)
      && forall o | o in wrap.optionsOf :: !selector.getKey.Private(Obj(o))
    }

    /** `withOptions(creator, argsFilter)` */
    constructor (creator: (Heap, seq<Value>) -> SelectorArg, argsFilter: ArgsFilter,
                 stringify: (Heap, seq<Value>) -> string)
      ensures Valid() && this.creator == creator && this.argsFilter == argsFilter
      ensures fresh(wrap) && fresh(wrap.wrapperMap) && fresh(selector) && fresh(selector.getKey)
      ensures wrap.stringify == stringify && wrap.keys == [] && selector.cache == map[]
      ensures selector.getKey.nodes == map[[] := selector.getKey.keyCache] && selector.getKey.leaves == map[]
      ensures fresh(selector.getKey.keyCache) && fresh(selector.getKey.keyMarker)
      ensures fresh(selector.getKey.undefinedState) && fresh(selector.getKey.undefinedProps)
      ensures fresh(selector.getKey.undefinedArgs)
    {
      this.creator := creator;
      this.argsFilter := argsFilter;
      wrap := new OptionsMap(stringify);
      selector := new MemoizedSelector(OptionsSelector(creator));
    }

    /** The arguments the memoised selector gets for a call. */
    function MemoArgs(w: JsObject, selectorArgs: seq<Value>): seq<Value>
      reads this
    {
      [Obj(w)] + FilterArgs(argsFilter, selectorArgs)
    }

    /** The memoised selector called with the wrapper `w` before the
        filtered arguments: on a miss, the selector the creator makes from
        the options `w` holds, applied to the filtered arguments. */
    method Run(heap: Heap, w: JsObject, selectorArgs: seq<Value>) returns (r: Completion<Value>, invoked: bool)
      requires Valid() && w in wrap.optionsOf
      requires forall a | a in selectorArgs :: !selector.getKey.Private(a)
      modifies selector, selector.getKey
      ensures Valid() && forall a | a in selectorArgs :: !selector.getKey.Private(a)
      ensures selector.getKey.Abstract()
        == Step(old(selector.getKey.Abstract()), selector.getKey.OwnSentinels(), MemoArgs(w, selectorArgs)).0
      ensures selector.getKey.Extends(old(selector.getKey.nodes), old(selector.getKey.leaves))
      ensures forall p | p in selector.getKey.nodes && p !in old(selector.getKey.nodes) :: fresh(selector.getKey.nodes[p])
      ensures forall p | p in selector.getKey.leaves && p !in old(selector.getKey.leaves) :: fresh(selector.getKey.leaves[p])
      ensures CallOutcome(old(selector.cache), selector.cache,
                selector.getKey.Concrete(Step(old(selector.getKey.Abstract()), selector.getKey.OwnSentinels(), MemoArgs(w, selectorArgs)).1),
                Apply(creator(heap, wrap.optionsOf[w]), heap, FilterArgs(argsFilter, selectorArgs)), r, invoked)
      ensures r.Normal? ==> selector.CachedFor(MemoArgs(w, selectorArgs)) == Some(r.value)
      ensures old(selector.CachedFor(MemoArgs(w, selectorArgs))).Some? ==>
        !invoked && r == Normal(old(selector.CachedFor(MemoArgs(w, selectorArgs))).value)
    {
      var args := MemoArgs(w, selectorArgs);
      r, invoked := selector.Call(OptionsEnv(heap, wrap.optionsOf), args);
      assert args[1..] == FilterArgs(argsFilter, selectorArgs);
    }

    /** `withOptions(...)(...options)(...selectorArgs)`: wrap the options,
        then call the memoised selector with the wrapper before the
        filtered arguments. The options map changes as `Wrap` says. On a
        miss the result is the created selector's value for the filtered
        arguments; on a hit it is what was stored. */
    method Select(heap: Heap, options: seq<Value>, selectorArgs: seq<Value>)
      returns (r: Completion<Value>, w: JsObject, invoked: bool)
      requires Valid()
      requires forall a | a in selectorArgs :: !selector.getKey.Private(a)
      modifies wrap, wrap.wrapperMap, selector, selector.getKey
      ensures Valid() && forall a | a in selectorArgs :: !selector.getKey.Private(a)
      ensures var key := wrap.stringify(heap, options);
        && key in wrap.wrapperMap.entries && wrap.wrapperMap.entries[key] == w
        && (key in old(wrap.wrapperMap.entries) ==>
              w == old(wrap.wrapperMap.entries)[key] && wrap.keys == old(wrap.keys)
              && wrap.wrapperMap.entries == old(wrap.wrapperMap.entries))
        && (key !in old(wrap.wrapperMap.entries) ==>
              fresh(w) && wrap.keys == Trim.Newest(old(wrap.keys) + [key], MAX_WRAPPERS))
        && (forall k | k in wrap.wrapperMap.entries && k != key ::
              k in old(wrap.wrapperMap.entries) && wrap.wrapperMap.entries[k] == old(wrap.wrapperMap.entries)[k])
      ensures wrap.optionsOf == old(wrap.optionsOf)[w := options]
      ensures selector.getKey.Abstract()
        == Step(old(selector.getKey.Abstract()), selector.getKey.OwnSentinels(), MemoArgs(w, selectorArgs)).0
      ensures selector.getKey.Extends(old(selector.getKey.nodes), old(selector.getKey.leaves))
      ensures forall p | p in selector.getKey.nodes && p !in old(selector.getKey.nodes) :: fresh(selector.getKey.nodes[p])
      ensures forall p | p in selector.getKey.leaves && p !in old(selector.getKey.leaves) :: fresh(selector.getKey.leaves[p])
      ensures CallOutcome(old(selector.cache), selector.cache,
                selector.getKey.Concrete(Step(old(selector.getKey.Abstract()), selector.getKey.OwnSentinels(), MemoArgs(w, selectorArgs)).1),
                Apply(creator(heap, options), heap, FilterArgs(argsFilter, selectorArgs)), r, invoked)
      ensures r.Normal? ==> selector.CachedFor(MemoArgs(w, selectorArgs)) == Some(r.value)
      ensures wrap.stringify(heap, options) in old(wrap.wrapperMap.entries) &&
              old(selector.CachedFor(MemoArgs(w, selectorArgs))).Some? ==>
        !invoked && r == Normal(old(selector.CachedFor(MemoArgs(w, selectorArgs))).value)
    {
      ghost var hit := wrap.stringify(heap, options) in wrap.wrapperMap.entries;
      ghost var cached := if hit then selector.CachedFor(MemoArgs(wrap.wrapperMap.entries[wrap.stringify(heap, options)], selectorArgs)) else None;
      w := wrap.Wrap(heap, options);
      assert Valid();
      assert hit ==> selector.CachedFor(MemoArgs(w, selectorArgs)) == cached;
      r, invoked := Run(heap, w, selectorArgs);
    }
  }

  /** Two calls whose options serialise alike, with the same argument
      identities: the second finds the same wrapper and the same memo
      entry, so the creator does not run again and the first result comes
      back, even when the second options are other objects or hold other
      values that serialise alike. */
  method SameSerialisationHits(s: WithOptions, h1: Heap, o1: seq<Value>, h2: Heap, o2: seq<Value>, args: seq<Value>)
    returns (r1: Completion<Value>, r2: Completion<Value>, invoked2: bool)
    requires s.Valid() && forall a | a in args :: !s.selector.getKey.Private(a)
    requires s.wrap.stringify(h1, o1) == s.wrap.stringify(h2, o2)
    modifies s.wrap, s.wrap.wrapperMap, s.selector, s.selector.getKey
    ensures r1.Normal? ==> !invoked2 && r2 == r1
  {
    var w1, w2, invoked1;
    r1, w1, invoked1 := s.Select(h1, o1, args);
    r2, w2, invoked2 := s.Select(h2, o2, args);
  }

  /** A call whose options serialise to a key the map does not hold, with
      arguments that are all objects, always runs the creator: its wrapper
      is new, so no memo key handed out before can match. */
  method NewSerialisationMisses(s: WithOptions, heap: Heap, options: seq<Value>, args: seq<Value>)
    returns (r: Completion<Value>, invoked: bool)
    requires s.Valid() && forall a | a in args :: !s.selector.getKey.Private(a)
    requires s.wrap.stringify(heap, options) !in s.wrap.wrapperMap.entries
    requires forall a | a in FilterArgs(s.argsFilter, args) :: a.Obj?
    modifies s.wrap, s.wrap.wrapperMap, s.selector, s.selector.getKey
    ensures invoked
  {
    ghost var t0 := s.selector.getKey.Abstract();
    ghost var sentinels := s.selector.getKey.OwnSentinels();
    s.selector.getKey.ValidWellFormed();
    var w;
    r, w, invoked := s.Select(heap, options, args);
    ghost var margs := s.MemoArgs(w, args);
    assert margs[..1] == [Obj(w)];
    if |margs| >= 2 {
      NewFirstArgNewPath(t0, sentinels, margs);
    }
  }
}
