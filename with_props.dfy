/** `src/helpers/withProps.js`: a selector whose creator is configured
    from the props, memoised through `withOptions` with `filterState`. */
module WithProps {
  import opened JsValues
  import Trim
  import opened Get
  import opened CreateSelector
  import opened MemoizeSelector
  import opened WithOptions

  // ---------------------------------------------------------------------
  // mapSelectorsToProps
  // ---------------------------------------------------------------------

  /** The argument prop selector `i` gets: `props[i]`, or `props[0]` when
      `props[i]` is `undefined` (missing included). */
  function PropArg(props: seq<Value>, i: nat): Value {
    if Slot(props, i) != Undefined then Slot(props, i) else Slot(props, 0)
  }

  /** `selector !== undefined ? selector(arg) : undefined`: an `undefined`
      selector yields `undefined`; any other value is called, and throws
      unless it is a function. */
  function PropValue(sel: SelectorArg, heap: Heap, arg: Value): Completion<Value> {
    if sel == NotFunction(Undefined) then Normal(Undefined) else Apply(sel, heap, [arg])
  }

  /** `mapSelectorsToProps(selectors)(props)`: one entry per selector, left
      to right; the first selector that throws ends the map. */
  function MapSelectorsToProps(sels: seq<SelectorArg>, heap: Heap, props: seq<Value>): Completion<seq<Value>>
    decreases |sels|
  {
    if sels == [] then Normal([])
    else
      var n := |sels| - 1;
      match MapSelectorsToProps(sels[..n], heap, props)
      case Throw(e) => Throw(e)
      case Normal(vs) =>
        match PropValue(sels[n], heap, PropArg(props, n))
        case Throw(e) => Throw(e)
        case Normal(v) => Normal(vs + [v])
  }

  /** The map completes exactly when no selector throws. */
  lemma {:induction false} MapSelectorsToPropsNormal(sels: seq<SelectorArg>, heap: Heap, props: seq<Value>)
    ensures MapSelectorsToProps(sels, heap, props).Normal?
        <==> forall i | 0 <= i < |sels| :: PropValue(sels[i], heap, PropArg(props, i)).Normal?
    decreases |sels|
  {
    if sels != [] {
      var n := |sels| - 1;
      MapSelectorsToPropsNormal(sels[..n], heap, props);
      assert forall i | 0 <= i < n :: sels[..n][i] == sels[i];
    }
  }

  /** A completed map has one entry per selector (extra props add none),
      entry `i` being what selector `i` gives for its argument. */
  lemma {:induction false} MapSelectorsToPropsValues(sels: seq<SelectorArg>, heap: Heap, props: seq<Value>)
    ensures var r := MapSelectorsToProps(sels, heap, props);
      r.Normal? ==>
        && |r.value| == |sels|
        && forall i | 0 <= i < |sels| :: PropValue(sels[i], heap, PropArg(props, i)) == Normal(r.value[i])
    decreases |sels|
  {
    if sels != [] {
      var n := |sels| - 1;
      var prefix := sels[..n];
      MapSelectorsToPropsValues(prefix, heap, props);
      var r := MapSelectorsToProps(sels, heap, props);
      if r.Normal? {
        var vs := MapSelectorsToProps(prefix, heap, props).value;
        assert r.value == vs + [PropValue(sels[n], heap, PropArg(props, n)).value];
        forall i | 0 <= i < n
          ensures PropValue(sels[i], heap, PropArg(props, i)) == Normal(r.value[i])
        {
          assert prefix[i] == sels[i] && r.value[i] == vs[i];
        }
      }
    }
  }

  /** An incomplete map carries the error of the first selector to throw. */
  lemma {:induction false} MapSelectorsToPropsThrow(sels: seq<SelectorArg>, heap: Heap, props: seq<Value>)
    ensures var r := MapSelectorsToProps(sels, heap, props);
      r.Throw? ==> exists i | 0 <= i < |sels| ::
        && PropValue(sels[i], heap, PropArg(props, i)) == Throw(r.error)
        && forall j | 0 <= j < i :: PropValue(sels[j], heap, PropArg(props, j)).Normal?
    decreases |sels|
  {
    if sels != [] {
      var n := |sels| - 1;
      var prefix := sels[..n];
      MapSelectorsToPropsThrow(prefix, heap, props);
      MapSelectorsToPropsNormal(prefix, heap, props);
      assert forall i | 0 <= i < n :: prefix[i] == sels[i];
      var rec := MapSelectorsToProps(prefix, heap, props);
      var r := MapSelectorsToProps(sels, heap, props);
      if rec.Normal? && r.Throw? {
        assert PropValue(sels[n], heap, PropArg(props, n)) == Throw(r.error);
      }
    }
  }

  /** The map reads no prop past the last selector's position: two prop
      lists that agree on the first `|sels|` positions (and so on the
      fallback `props[0]`) give the same result. */
  lemma {:induction false} ExtraPropsIgnored(sels: seq<SelectorArg>, heap: Heap, props1: seq<Value>, props2: seq<Value>)
    requires forall i | 0 <= i < |sels| :: Slot(props1, i) == Slot(props2, i)
    requires Slot(props1, 0) == Slot(props2, 0)
    ensures MapSelectorsToProps(sels, heap, props1) == MapSelectorsToProps(sels, heap, props2)
    decreases |sels|
  {
    if sels != [] {
      var n := |sels| - 1;
      ExtraPropsIgnored(sels[..n], heap, props1, props2);
      assert PropArg(props1, n) == PropArg(props2, n);
    }
  }

  /** What a prop selector made from a key path gives: that path read from
      `props[i]`, or from `props[0]` when `props[i]` is `undefined`; an
      `undefined` selector gives `undefined`. */
  lemma PropSelectorValue(tokenize: string -> seq<Value>, sel: SelectorArg, heap: Heap, props: seq<Value>, i: nat)
    ensures (sel.PathString? || sel.PathArray?) ==>
      PropValue(CreateStateSelector(tokenize, sel), heap, PropArg(props, i))
        == Normal(GetValue(heap, if Slot(props, i) != Undefined then Slot(props, i) else Slot(props, 0),
                           PathKeys(tokenize, sel), Undefined))
    ensures sel == NotFunction(Undefined) ==>
      PropValue(CreateStateSelector(tokenize, sel), heap, PropArg(props, i)) == Normal(Undefined)
    ensures sel.NotFunction? && sel.v != Undefined ==>
      PropValue(CreateStateSelector(tokenize, sel), heap, PropArg(props, i)) == Throw(NotAFunction)
  {
    if sel.PathString? || sel.PathArray? {
      StateSelectorGetsPath(tokenize, sel, heap, [PropArg(props, i)]);
    }
  }

  // ---------------------------------------------------------------------
  // withProps
  // ---------------------------------------------------------------------

  /** The function `withProps(selectorCreator, ...propSelectors)` returns:
      a `withOptions` creator with `filterState`, and the prop selectors
      after `createStateSelector` (none when there are none). */
  class WithProps {
    const inner: WithOptions
    const propSelectors: seq<SelectorArg>

    ghost predicate Valid()
      reads this, inner, inner.wrap, inner.wrap.wrapperMap, inner.selector, inner.selector.getKey
    {
      inner.Valid() && inner.argsFilter == StateOnly
    }

    /** `withProps(selectorCreator, ...propSelectors)` */
    constructor (tokenize: string -> seq<Value>, selectorCreator: (Heap, seq<Value>) -> SelectorArg,
                 stringify: (Heap, seq<Value>) -> string, propSelectors: seq<SelectorArg>)
      ensures Valid() && fresh(inner) && fresh(inner.wrap) && fresh(inner.wrap.wrapperMap)
      ensures fresh(inner.selector) && fresh(inner.selector.getKey)
      ensures inner.creator == selectorCreator && inner.wrap.stringify == stringify
      ensures inner.wrap.keys == [] && inner.selector.cache == map[]
      ensures this.propSelectors == MapCreateStateSelector(tokenize, propSelectors)
      ensures inner.selector.getKey.nodes == map[[] := inner.selector.getKey.keyCache]
      ensures inner.selector.getKey.leaves == map[]
      ensures fresh(inner.selector.getKey.keyCache) && fresh(inner.selector.getKey.keyMarker)
      ensures fresh(inner.selector.getKey.undefinedState) && fresh(inner.selector.getKey.undefinedProps)
      ensures fresh(inner.selector.getKey.undefinedArgs)
    {
      inner := new WithOptions(selectorCreator, StateOnly, stringify);
      this.propSelectors := MapCreateStateSelector(tokenize, propSelectors);
    }

    /** The options the creator is configured with for a call: the
        arguments after the state, through the prop selectors when there
        are any. */
    function CreatorArgs(heap: Heap, selectorArgs: seq<Value>): Completion<seq<Value>>
      reads this
    {
      var props := if selectorArgs == [] then [] else selectorArgs[1..];
      if propSelectors == [] then Normal(props) else MapSelectorsToProps(propSelectors, heap, props)
    }

    /** The state never reaches the creator: calls that differ only in
        their first argument configure it alike. */
    lemma CreatorArgsSkipState(heap: Heap, state1: Value, state2: Value, props: seq<Value>)
      ensures CreatorArgs(heap, [state1] + props) == CreatorArgs(heap, [state2] + props)
      ensures propSelectors == [] ==> CreatorArgs(heap, [state1] + props) == Normal(props)
    {
      assert ([state1] + props)[1..] == props;
      assert ([state2] + props)[1..] == props;
    }

    /** A call `(...selectorArgs)`: the creator arguments are computed, then
        the `withOptions` selector for them is called with the arguments,
        of which `filterState` keeps the state alone. A prop selector that
        throws ends the call before anything changes. Otherwise the options
        map changes as `Wrap` says, the key tree grows as `Step` says for
        the wrapper and the state, and the memo call ends as `CallOutcome`
        says, the value on a miss being the configured selector applied to
        `[state]` alone. */
    method Call(heap: Heap, selectorArgs: seq<Value>) returns (r: Completion<Value>, invoked: bool)
      requires Valid() && forall a | a in selectorArgs :: !inner.selector.getKey.Private(a)
      modifies inner.wrap, inner.wrap.wrapperMap, inner.selector, inner.selector.getKey
      ensures Valid() && forall a | a in selectorArgs :: !inner.selector.getKey.Private(a)
      ensures CreatorArgs(heap, selectorArgs).Throw? ==>
        && r == Throw(CreatorArgs(heap, selectorArgs).error) && !invoked
        && inner.selector.cache == old(inner.selector.cache)
        && inner.selector.getKey.nodes == old(inner.selector.getKey.nodes)
        && inner.selector.getKey.leaves == old(inner.selector.getKey.leaves)
        && inner.wrap.keys == old(inner.wrap.keys) && inner.wrap.optionsOf == old(inner.wrap.optionsOf)
        && inner.wrap.wrapperMap.entries == old(inner.wrap.wrapperMap.entries)
      ensures CreatorArgs(heap, selectorArgs).Normal? ==>
        var options := CreatorArgs(heap, selectorArgs).value;
        var key := inner.wrap.stringify(heap, options);
        && key in inner.wrap.wrapperMap.entries
        && var w := inner.wrap.wrapperMap.entries[key];
        && (key in old(inner.wrap.wrapperMap.entries) ==>
              w == old(inner.wrap.wrapperMap.entries)[key] && inner.wrap.keys == old(inner.wrap.keys)
              && inner.wrap.wrapperMap.entries == old(inner.wrap.wrapperMap.entries))
        && (key !in old(inner.wrap.wrapperMap.entries) ==>
              fresh(w) && inner.wrap.keys == Trim.Newest(old(inner.wrap.keys) + [key], MAX_WRAPPERS))
        && (forall k | k in inner.wrap.wrapperMap.entries && k != key ::
              k in old(inner.wrap.wrapperMap.entries)
              && inner.wrap.wrapperMap.entries[k] == old(inner.wrap.wrapperMap.entries)[k])
        && inner.wrap.optionsOf == old(inner.wrap.optionsOf)[w := options]
        && inner.selector.getKey.Abstract()
             == Step(old(inner.selector.getKey.Abstract()), inner.selector.getKey.OwnSentinels(),
                     inner.MemoArgs(w, selectorArgs)).0
        && inner.selector.getKey.Extends(old(inner.selector.getKey.nodes), old(inner.selector.getKey.leaves))
        && (forall q | q in inner.selector.getKey.nodes && q !in old(inner.selector.getKey.nodes) ::
              fresh(inner.selector.getKey.nodes[q]))
        && (forall q | q in inner.selector.getKey.leaves && q !in old(inner.selector.getKey.leaves) ::
              fresh(inner.selector.getKey.leaves[q]))
        && CallOutcome(old(inner.selector.cache), inner.selector.cache,
             inner.selector.getKey.Concrete(Step(old(inner.selector.getKey.Abstract()), inner.selector.getKey.OwnSentinels(),
                                                 inner.MemoArgs(w, selectorArgs)).1),
             Apply(inner.creator(heap, options), heap, [Slot(selectorArgs, 0)]), r, invoked)
        && (r.Normal? ==> inner.selector.CachedFor(inner.MemoArgs(w, selectorArgs)) == Some(r.value))
        && (key in old(inner.wrap.wrapperMap.entries) &&
            old(inner.selector.CachedFor(inner.MemoArgs(inner.wrap.wrapperMap.entries[key], selectorArgs))).Some? ==>
              && !invoked
              && r == Normal(old(inner.selector.CachedFor(inner.MemoArgs(inner.wrap.wrapperMap.entries[key], selectorArgs))).value))
    {
      var creatorArgs := CreatorArgs(heap, selectorArgs);
      if creatorArgs.Throw? {
        return Throw(creatorArgs.error), false;
      }
      var w;
      r, w, invoked := inner.Select(heap, creatorArgs.value, selectorArgs);
    }
  }

  /** Two calls with the same heap and the same arguments: the options
      serialise alike, so the second call finds the wrapper and the memo
      entry of the first, and the creator does not run again. */
  method RepeatedCallHits(p: WithProps, heap: Heap, selectorArgs: seq<Value>)
    returns (r1: Completion<Value>, r2: Completion<Value>, invoked2: bool)
    requires p.Valid() && forall a | a in selectorArgs :: !p.inner.selector.getKey.Private(a)
    modifies p.inner.wrap, p.inner.wrap.wrapperMap, p.inner.selector, p.inner.selector.getKey
    ensures r1.Normal? ==> !invoked2 && r2 == r1
  {
    var invoked1;
    r1, invoked1 := p.Call(heap, selectorArgs);
    r2, invoked2 := p.Call(heap, selectorArgs);
  }

  /** A call whose options serialise to a key the map does not hold, with
      an object as state, runs the creator: the new wrapper starts a new
      path in the key tree, so the memo key is an object the cache has never
      held. A value it returns is the configured selector's for the state
      alone. */
  method NewOptionsMiss(p: WithProps, heap: Heap, selectorArgs: seq<Value>)
    returns (r: Completion<Value>, invoked: bool)
    requires p.Valid() && forall a | a in selectorArgs :: !p.inner.selector.getKey.Private(a)
    requires p.CreatorArgs(heap, selectorArgs).Normal?
    requires p.inner.wrap.stringify(heap, p.CreatorArgs(heap, selectorArgs).value) !in p.inner.wrap.wrapperMap.entries
    requires Slot(selectorArgs, 0).Obj?
    modifies p.inner.wrap, p.inner.wrap.wrapperMap, p.inner.selector, p.inner.selector.getKey
    ensures invoked
    ensures r.Normal? ==> r == Apply(p.inner.creator(heap, p.CreatorArgs(heap, selectorArgs).value), heap, [Slot(selectorArgs, 0)])
  {
    ghost var t0 := p.inner.selector.getKey.Abstract();
    ghost var sentinels := p.inner.selector.getKey.OwnSentinels();
    p.inner.selector.getKey.ValidWellFormed();
    ghost var key := p.inner.wrap.stringify(heap, p.CreatorArgs(heap, selectorArgs).value);
    r, invoked := p.Call(heap, selectorArgs);
    ghost var margs := p.inner.MemoArgs(p.inner.wrap.wrapperMap.entries[key], selectorArgs);
    assert margs[..1] == [Obj(p.inner.wrap.wrapperMap.entries[key])];
    NewFirstArgNewPath(t0, sentinels, margs);
  }

  /** The key map inside a new `withProps` selector holds only objects
      allocated with it, so selector arguments a caller already has meet
      the condition `Call` asks of them. */
  method NewWithPropsAdmitsEarlierArgs(tokenize: string -> seq<Value>,
                                       selectorCreator: (Heap, seq<Value>) -> SelectorArg,
                                       stringify: (Heap, seq<Value>) -> string,
                                       propSelectors: seq<SelectorArg>, selectorArgs: seq<Value>)
    returns (p: WithProps)
    ensures fresh(p) && p.Valid() && p.inner.creator == selectorCreator
    ensures forall a | a in selectorArgs :: !p.inner.selector.getKey.Private(a)
  {
    p := new WithProps(tokenize, selectorCreator, stringify, propSelectors);
  }
}
