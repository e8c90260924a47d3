/** `src/memoizeCreator.js`: an unbounded cache of a creator's results,
    keyed by the JSON serialisation of the argument list. */
module MemoizeCreator {
  import opened JsValues

  /** The function `memoizeCreator(creator)` returns, with the plain object
      it caches into. Keys are serialised argument arrays, which always
      start with `[`, so no key can hit a property the object inherits. */
  class MemoizedCreator<R> {
    /** The creator, reading the heap as it is when it is called. */
    const creator: (Heap, seq<Value>) -> R
    /** `JSON.stringify` on argument arrays, which reads the properties of
        the objects in them. */
    const stringify: (Heap, seq<Value>) -> string
    /** ToBoolean on the creator's results. */
    const truthy: R -> bool
    var cache: map<string, R>
    /** The heap and argument list each entry was created from. */
    ghost var origin: map<string, (Heap, seq<Value>)>

    /** Every entry is the creator's result for an argument list with that
        serialisation. */
    ghost predicate Valid()
      reads this
    {
      && origin.Keys == cache.Keys
      && forall k | k in cache ::
           stringify(origin[k].0, origin[k].1) == k && cache[k] == creator(origin[k].0, origin[k].1)
    }

    /** `memoizeCreator(creator)` */
    constructor (creator: (Heap, seq<Value>) -> R, stringify: (Heap, seq<Value>) -> string, truthy: R -> bool)
      ensures Valid() && cache == map[]
      ensures this.creator == creator && this.stringify == stringify && this.truthy == truthy
    {
      this.creator := creator;
      this.stringify := stringify;
      this.truthy := truthy;
      cache := map[];
      origin := map[];
    }

    /** A call `(...args)`. The creator runs unless the cache holds a
        truthy value under the serialised arguments; what runs is stored,
        over a falsy entry if there was one. Entries are never removed. */
    method Call(heap: Heap, args: seq<Value>) returns (r: R, invoked: bool)
      requires Valid()
      modifies this
      ensures Valid()
      ensures var key := stringify(heap, args);
        && (invoked <==> !(key in old(cache) && truthy(old(cache)[key])))
        && (!invoked ==> r == old(cache)[key] && cache == old(cache))
        && (invoked ==> r == creator(heap, args) && cache == old(cache)[key := r])
        && key in origin && r == creator(origin[key].0, origin[key].1)
        && stringify(origin[key].0, origin[key].1) == key
      ensures old(cache).Keys <= cache.Keys
    {
      var key := stringify(heap, args);
      invoked := !(key in cache && truthy(cache[key]));
      if invoked {
        cache := cache[key := creator(heap, args)];
        origin := origin[key := (heap, args)];
      }
      r := cache[key];
    }
  }

  /** Two calls on a new memoised creator: the first always runs the
      creator; the second runs it again when its serialisation differs
      (different values, or the same objects mutated in between) or the
      first result was falsy, and otherwise returns the first result. */
  method TwoCalls<R>(m: MemoizedCreator<R>, h1: Heap, a1: seq<Value>, h2: Heap, a2: seq<Value>)
    returns (r1: R, invoked1: bool, r2: R, invoked2: bool)
    requires m.Valid() && m.cache == map[]
    modifies m
    ensures invoked1 && r1 == m.creator(h1, a1)
    ensures m.stringify(h1, a1) != m.stringify(h2, a2) ==> invoked2 && r2 == m.creator(h2, a2)
    ensures m.stringify(h1, a1) == m.stringify(h2, a2) && m.truthy(r1) ==> !invoked2 && r2 == r1
    ensures m.stringify(h1, a1) == m.stringify(h2, a2) && !m.truthy(r1) ==> invoked2 && r2 == m.creator(h2, a2)
  {
    r1, invoked1 := m.Call(h1, a1);
    r2, invoked2 := m.Call(h2, a2);
  }
}
