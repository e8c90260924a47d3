/** `src/createSelector.js`: selectors built from key paths, functions and
    a results function over the values of input selectors. */
module CreateSelector {
  import opened JsValues
  import opened Get
  import opened MemoizeSelector

  /** A selector: called with the heap as it is at call time and an
      argument list, it returns a value or throws. */
  type Selector = (Heap, seq<Value>) -> Completion<Value>

  /** What a caller may pass where a selector is expected. A string is
      always `PathString` and an array always `PathArray`: `NotFunction`
      holds only the other values (`undefined`, `null`, booleans, numbers
      and objects that are neither arrays nor functions). */
  datatype SelectorArg =
    | PathString(path: string)    // a string: a key path to tokenise
    | PathArray(keys: seq<Value>) // an array: a key path as given
    | Fn(f: Selector)             // a function
    | NotFunction(v: Value)       // anything else, `undefined` included

  /** `sel.apply(null, args)`: only a function can be called; strings,
      arrays and other values throw. */
  function Apply(sel: SelectorArg, heap: Heap, args: seq<Value>): Completion<Value> {
    if sel.Fn? then sel.f(heap, args) else Throw(NotAFunction)
  }

  /** `state => get(state, path)` for the keys of the path. */
  function PathSelector(keys: seq<Value>): Selector {
    (heap: Heap, args: seq<Value>) => Normal(GetValue(heap, Slot(args, 0), keys, Undefined))
  }

  /** `createStateSelector(selector)`: a string or an array becomes a
      getter of that path over the first argument (strings tokenised by
      `tokenize`, which `stringToPath` caches); anything else comes back as
      it is. */
  function CreateStateSelector(tokenize: string -> seq<Value>, sel: SelectorArg): (r: SelectorArg)
    ensures r.Fn? || r.NotFunction?
    ensures !sel.PathString? && !sel.PathArray? ==> r == sel
  {
    match sel
    case PathString(path) => Fn(PathSelector(tokenize(path)))
    case PathArray(keys) => Fn(PathSelector(keys))
    case _ => sel
  }

  /** The keys a path argument stands for. */
  function PathKeys(tokenize: string -> seq<Value>, sel: SelectorArg): seq<Value>
    requires sel.PathString? || sel.PathArray?
  {
    if sel.PathString? then tokenize(sel.path) else sel.keys
  }

  /** A selector made from a path reads that path from the first argument,
      with `undefined` when it is not there, and never throws. */
  lemma StateSelectorGetsPath(tokenize: string -> seq<Value>, sel: SelectorArg, heap: Heap, args: seq<Value>)
    requires sel.PathString? || sel.PathArray?
    ensures Apply(CreateStateSelector(tokenize, sel), heap, args)
         == Normal(GetValue(heap, Slot(args, 0), PathKeys(tokenize, sel), Undefined))
  {
  }

  /** `createPropsSelector(selector)`: the state selector of `selector`,
      called with the second argument alone. */
  function CreatePropsSelector(tokenize: string -> seq<Value>, sel: SelectorArg): Selector {
    var propSelector := CreateStateSelector(tokenize, sel);
    (heap: Heap, args: seq<Value>) => Apply(propSelector, heap, [Slot(args, 1)])
  }

  /** A props selector ignores the first argument and everything after the
      second: two calls that agree on the second argument agree. */
  lemma PropsSelectorReadsProps(tokenize: string -> seq<Value>, sel: SelectorArg, heap: Heap,
                                args1: seq<Value>, args2: seq<Value>)
    requires Slot(args1, 1) == Slot(args2, 1)
    ensures CreatePropsSelector(tokenize, sel)(heap, args1) == CreatePropsSelector(tokenize, sel)(heap, args2)
    ensures CreatePropsSelector(tokenize, sel)(heap, args1)
         == Apply(CreateStateSelector(tokenize, sel), heap, [Slot(args1, 1)])
  {
  }

  /** `mapSelectorsToArgs(selectors)(args)`: every selector applied to the
      whole argument list, in order; the first one that throws ends the
      map with its error. */
  function MapSelectorsToArgs(sels: seq<SelectorArg>, heap: Heap, args: seq<Value>): (r: Completion<seq<Value>>)
    ensures r.Normal? <==> forall i | 0 <= i < |sels| :: Apply(sels[i], heap, args).Normal?
    ensures r.Normal? ==> |r.value| == |sels|
    ensures r.Normal? ==> forall i | 0 <= i < |sels| :: Apply(sels[i], heap, args) == Normal(r.value[i])
    ensures r.Throw? ==> exists i | 0 <= i < |sels| ::
      && Apply(sels[i], heap, args) == Throw(r.error)
      && forall j | 0 <= j < i :: Apply(sels[j], heap, args).Normal?
    decreases |sels|
  {
    if sels == [] then Normal([])
    else
      match Apply(sels[0], heap, args)
      case Throw(e) => Throw(e)
      case Normal(v) =>
        match MapSelectorsToArgs(sels[1..], heap, args)
        case Throw(e) => Throw(e)
        case Normal(vs) => Normal([v] + vs)
  }

  /** `selectors.map(createStateSelector)`: every string or array entry
      becomes a getter of its path over the first argument, which never
      throws; every other entry stays as it was. */
  function MapCreateStateSelector(tokenize: string -> seq<Value>, sels: seq<SelectorArg>): (r: seq<SelectorArg>)
    ensures |r| == |sels|
    ensures forall i | 0 <= i < |sels| && !sels[i].PathString? && !sels[i].PathArray? :: r[i] == sels[i]
    ensures forall i | 0 <= i < |sels| && (sels[i].PathString? || sels[i].PathArray?) :: r[i].Fn?
  {
    seq(|sels|, i requires 0 <= i < |sels| => CreateStateSelector(tokenize, sels[i]))
  }

  /** Entry `i` of the converted list, when `selectors[i]` was a string or
      an array, reads that path from the first argument of any call. */
  lemma MapCreateStateSelectorReadsPath(tokenize: string -> seq<Value>, sels: seq<SelectorArg>, i: nat,
                                        heap: Heap, args: seq<Value>)
    requires i < |sels| && (sels[i].PathString? || sels[i].PathArray?)
    ensures Apply(MapCreateStateSelector(tokenize, sels)[i], heap, args)
         == Normal(GetValue(heap, Slot(args, 0), PathKeys(tokenize, sels[i]), Undefined))
  {
    StateSelectorGetsPath(tokenize, sels[i], heap, args);
  }

  /** The function a dependent selector memoises: the values of the input
      selectors, then the results function called with them. */
  function DependentSelector(inputs: seq<SelectorArg>, resultsFunc: SelectorArg): Selector {
    (heap: Heap, selectorArgs: seq<Value>) =>
      match MapSelectorsToArgs(inputs, heap, selectorArgs)
      case Throw(e) => Throw(e)
      case Normal(values) => Apply(resultsFunc, heap, values)
  }

  /** When no input selector throws, a dependent selector returns the
      results function applied to the inputs' values, one per input, in
      order; otherwise it throws what the first failing input threw,
      without calling the results function. */
  lemma DependentSelectorValue(inputs: seq<SelectorArg>, resultsFunc: SelectorArg, heap: Heap, args: seq<Value>)
    ensures (forall i | 0 <= i < |inputs| :: Apply(inputs[i], heap, args).Normal?) ==>
      DependentSelector(inputs, resultsFunc)(heap, args)
        == Apply(resultsFunc, heap, seq(|inputs|, i requires 0 <= i < |inputs| => Apply(inputs[i], heap, args).value))
    ensures (exists i | 0 <= i < |inputs| :: Apply(inputs[i], heap, args).Throw?) ==>
      DependentSelector(inputs, resultsFunc)(heap, args).Throw?
  {
    var m := MapSelectorsToArgs(inputs, heap, args);
    if m.Normal? {
      var values := seq(|inputs|, i requires 0 <= i < |inputs| => Apply(inputs[i], heap, args).value);
      assert m.value == values;
    }
  }

  /** `createDependentSelector(selectors)`: every argument goes through
      `createStateSelector`; the last is the results function and the
      others are the inputs; the whole is memoised by argument identity. */
  method CreateDependentSelector(tokenize: string -> seq<Value>, selectors: seq<SelectorArg>)
    returns (m: MemoizedSelector<Heap, Value>)
    requires |selectors| > 0
    ensures fresh(m) && fresh(m.getKey) && m.Valid() && m.cache == map[]
    ensures m.getKey.Abstract() == EmptyTrie
    ensures var mapped := MapCreateStateSelector(tokenize, selectors);
      m.selector == DependentSelector(mapped[..|mapped| - 1], mapped[|mapped| - 1])
  {
    var mapped := MapCreateStateSelector(tokenize, selectors);
    var resultsFunc := mapped[|mapped| - 1];
    var inputs := mapped[..|mapped| - 1];
    m := new MemoizedSelector(DependentSelector(inputs, resultsFunc));
  }

  /** What `createSelector` returns: a memoised dependent selector, or the
      state selector of its only argument. */
  datatype Created = Memoized(m: MemoizedSelector<Heap, Value>) | Plain(sel: SelectorArg)

  /** `createSelector(...selectors)`: with more than one argument, a new
      dependent selector; otherwise `createStateSelector(selectors[0])`,
      `undefined` when there is no argument at all. */
  method CreateSelector(tokenize: string -> seq<Value>, selectors: seq<SelectorArg>) returns (r: Created)
    ensures |selectors| <= 1 ==>
      r == Plain(CreateStateSelector(tokenize, if selectors == [] then NotFunction(Undefined) else selectors[0]))
    ensures |selectors| > 1 ==>
      && r.Memoized? && fresh(r.m) && fresh(r.m.getKey) && r.m.Valid() && r.m.cache == map[]
      && var mapped := MapCreateStateSelector(tokenize, selectors);
         r.m.selector == DependentSelector(mapped[..|mapped| - 1], mapped[|mapped| - 1])
  {
    if |selectors| > 1 {
      var m := CreateDependentSelector(tokenize, selectors);
      return Memoized(m);
    }
    var first := if selectors == [] then NotFunction(Undefined) else selectors[0];
    return Plain(CreateStateSelector(tokenize, first));
  }
}
