/** `src/withArgs.js`: a memoised selector creator that can also take its
    arguments from the props of each call. */
module WithArgs {
  import opened JsValues
  import opened CreateSelector
  import opened MemoizeCreator

  /** The sentinel that asks for the props-as-arguments mode. */
  const USE_PROPS_AS_ARGS: string := "@@comfy/redux-selectors/withArgs/USE_PROPS_AS_ARGS"

  /** `args[0] === USE_PROPS_AS_ARGS && args.length === 1` */
  predicate AsksForProps(args: seq<Value>) {
    |args| == 1 && args[0] == Str(USE_PROPS_AS_ARGS)
  }

  /** ToBoolean on what a selector creator returns: functions and arrays
      are truthy, a key path string unless it is empty, anything else as
      JavaScript says. */
  predicate SelectorIsTruthy(sel: SelectorArg) {
    match sel
    case PathString(path) => path != ""
    case PathArray(_) => true
    case Fn(_) => true
    case NotFunction(v) => IsTruthy(v)
  }

  /** What a call of the `withArgs` function returns: the props-mode
      selector, or whatever the memoised creator returned. */
  datatype Returned = PropsMode | Created(sel: SelectorArg)

  /** The function `withArgs(selectorCreator)` returns, with the one
      `memoizeCreator` cache that both of its modes use. */
  class WithArgs {
    const creator: MemoizedCreator<SelectorArg>

    ghost predicate Valid()
      reads this, creator
    {
      creator.Valid() && creator.truthy == SelectorIsTruthy
    }

    /** `withArgs(selectorCreator)` */
    constructor (selectorCreator: (Heap, seq<Value>) -> SelectorArg, stringify: (Heap, seq<Value>) -> string)
      ensures Valid() && fresh(creator) && creator.cache == map[]
      ensures creator.creator == selectorCreator && creator.stringify == stringify
    {
      creator := new MemoizedCreator(selectorCreator, stringify, SelectorIsTruthy);
    }

    /** A call `(...args)`: the sentinel alone selects props mode and
        touches no cache; any other argument list, the sentinel followed by
        more arguments included, goes to the memoised creator. */
    method Call(heap: Heap, args: seq<Value>) returns (r: Returned, invoked: bool)
      requires Valid()
      modifies creator
      ensures Valid()
      ensures AsksForProps(args) ==> r == PropsMode && !invoked && creator.cache == old(creator.cache)
      ensures !AsksForProps(args) ==>
        var key := creator.stringify(heap, args);
        && r.Created?
        && (invoked <==> !(key in old(creator.cache) && SelectorIsTruthy(old(creator.cache)[key])))
        && (invoked ==> r.sel == creator.creator(heap, args) && creator.cache == old(creator.cache)[key := r.sel])
        && (!invoked ==> r.sel == old(creator.cache)[key] && creator.cache == old(creator.cache))
      ensures old(creator.cache).Keys <= creator.cache.Keys
    {
      if AsksForProps(args) {
        return PropsMode, false;
      }
      var sel;
      sel, invoked := creator.Call(heap, args);
      r := Created(sel);
    }

    /** A call `(...args)` of the props-mode selector: the creator (through
        the shared cache) gets every argument after the first, and the
        selector it gives gets them all. */
    method PropsModeCall(heap: Heap, args: seq<Value>) returns (r: Completion<Value>, invoked: bool)
      requires Valid()
      modifies creator
      ensures Valid()
      ensures var props := if args == [] then [] else args[1..];
        var key := creator.stringify(heap, props);
        && (invoked <==> !(key in old(creator.cache) && SelectorIsTruthy(old(creator.cache)[key])))
        && (invoked ==> r == Apply(creator.creator(heap, props), heap, args)
                        && creator.cache == old(creator.cache)[key := creator.creator(heap, props)])
        && (!invoked ==> r == Apply(old(creator.cache)[key], heap, args) && creator.cache == old(creator.cache))
      ensures old(creator.cache).Keys <= creator.cache.Keys
    {
      var props := if args == [] then [] else args[1..];
      var sel;
      sel, invoked := creator.Call(heap, props);
      r := Apply(sel, heap, args);
    }
  }

  /** One cache serves both modes: a props-mode call with `(state, props)`
      followed by a direct call with `(props)` runs the creator once, and a
      direct call with no arguments, whose serialisation differs, runs it a
      second time. */
  method SharedCache(w: WithArgs, heap: Heap, state: Value, props: Value)
    returns (invoked1: bool, invoked2: bool, invoked3: bool)
    requires w.Valid() && w.creator.cache == map[]
    requires w.creator.stringify(heap, [props]) != w.creator.stringify(heap, [])
    requires SelectorIsTruthy(w.creator.creator(heap, [props]))
    requires props != Str(USE_PROPS_AS_ARGS)
    modifies w.creator
    ensures invoked1 && !invoked2 && invoked3
  {
    var r1, r2, r3;
    r1, invoked1 := w.PropsModeCall(heap, [state, props]);
    assert [state, props][1..] == [props];
    r2, invoked2 := w.Call(heap, [props]);
    r3, invoked3 := w.Call(heap, []);
  }

  /** The sentinel followed by more arguments is an ordinary argument
      list: it reaches the creator rather than selecting props mode. */
  lemma SentinelWithMoreIsDirect(more: seq<Value>)
    requires more != []
    ensures !AsksForProps([Str(USE_PROPS_AS_ARGS)] + more)
    ensures AsksForProps([Str(USE_PROPS_AS_ARGS)])
  {
  }
}
