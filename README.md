# redux-selectors, modelled in Dafny

This project models the caching core of the JavaScript library
`redux-selectors`. It also proves what each piece promises. The modelled
pieces are:

- **Identity-keyed memoisation** (`src/memoizeSelector.js`):
  - `getMarker` normalises the argument list with three private sentinels;
  - `createKeyMap` keeps a tree of nested `WeakMap`s that hands out one key object per argument-identity sequence;
  - `memoizeSelector` caches one value per key.
- **FIFO-bounded caches:**
  - `trimCache` trims a `Map` to its newest 512 entries;
  - `memoizeString`, the string cache of `src/get.js`;
  - `createOptionsMap` in `src/helpers/withOptions.js`, a queue of at most 100 serialised options with one stable wrapper object each.
- **Value-keyed and single-slot memoisers:** `memoizeCreator` (keyed by `JSON.stringify`, with a truthiness miss test) and `memoizeResultsFunc` (one slot, element-wise `===`).
- **Path lookup:** `baseGet` and `get`.
- **The selector combinators:**
  - `createStateSelector`, `createPropsSelector`, `mapSelectorsToArgs`, `createDependentSelector`, `createSelector`;
  - `combineSelectors`;
  - `mapSelectorsToProps` and `withProps`;
  - `withOptions` and `filterState`;
  - the dispatch of `withArgs`.

## How JavaScript is represented

- **Values** are the `JsValues.Value` datatype. An object is a reference to a `JsObject` instance and is compared by identity, as `===` does.
- **Property reads** `val[key]` are a `Heap`, a function from value and key to value. Every operation that reads properties takes the heap as it is at call time.
- **Caches the source mutates** are classes whose methods change fields, with `modifies` clauses:
  - a `Map` is `JsMaps.JsMap`, an insertion-ordered key list plus a `map`;
  - the tree of `WeakMap`s is `MemoizeSelector.KeyMap`, which holds every nested `WeakMap` and marker `WeakSet` under the path of cleaned arguments that reaches it;
  - the `cache` objects and closure variables are fields of the class of the closure that owns them.
- **How a call ends** is a `Completion`: it returns a value or throws a `TypeError`. Three throws are modelled:
  - a non-object `WeakMap` key;
  - calling something that is not a function;
  - spreading `undefined` options into a call.

  The throws of `JSON.stringify` are not modelled (see "## Left out").
- **Selectors** are pure functions of the heap and the argument list. A selector argument that is not a function is kept as such, so calling it throws.
- **Abstract tree.** The key tree also has an abstract form, `Trie`, and a function `Step` that says which key a call gets and how the tree grows. `KeyMap.GetKey` is proved against `Step`, and the tree's properties are lemmas about `Step`.

## Two quirks of the key map

The model follows the code in two places where the key map behaves in a way
a reader might not expect, and proves each as a lemma.

- **`(a)` and `(a, undefined)` do not share a cache entry.**
  - A one-argument call is keyed by `a` itself.
  - For `(a, undefined)`, `lastIndex` is 1 but the cleaned list `[a]` has one element, so the reduce ends on the nested `WeakMap` at `[a]`.
  - `MemoizeSelector.TrailingUndefinedGivesNode` shows the same for `(a, b, undefined)`.
- **A shorter call after a longer one on the same prefix gets `undefined` as its key.**
  - After `(a, b, c)`, the `WeakMap` at `[a, b]` exists without a marker, so `(a, b)` gets the key `undefined`.
  - That call's `cache.set` then throws a `TypeError` after the selector ran.
  - `MemoizeSelector.ShorterAfterLongerHasNoLeaf` and the `CallOutcome` predicate state this.

## Model

| member | source | states |
|---|---|---|
| JsValues.ShallowEqualIsEquality | src/memoizeResultsFunc.js:8 | element-wise `===` of two argument arrays holds exactly when the two lists are the same values in the same order |
| JsMaps.JsMap.constructor | src/get.js:4 | `new Map()` has no entries and an empty insertion order |
| JsMaps.JsMap.Size | src/helpers/trimCache.js:5 | `map.size` is the number of entries, which is also the length of the insertion order |
| JsMaps.JsMap.Has | src/get.js:6 | `map.has(k)` is membership in the entries; the contracts of `Set` and `Delete` say how that changes |
| JsMaps.JsMap.Set | src/get.js:10 | `map.set` stores the value; a new key goes to the end of the insertion order, an existing key keeps its place |
| JsMaps.JsMap.Delete | src/helpers/trimCache.js:6 | `map.delete` removes the entry and takes the key out of the insertion order, the rest keeping their order |
| Trim.Newest | src/helpers/trimCache.js:3-8 | the keys a trim keeps: all of them when there are no more than `n`, exactly `n` otherwise, and always a suffix of the insertion order (the newest ones) |
| Trim.NewestKeepsLast | src/get.js:9-14 | the key inserted last survives the trim, so a miss's result stays cached |
| Trim.TrimCache | src/helpers/trimCache.js:3-8 | after the loop the map's order is exactly the newest 512 keys of the old order; nothing is deleted when there were at most 512; survivors keep their values |
| Get.StringMemo.constructor | src/get.js:3-4 | `memoizeString(func)` starts with an empty map |
| Get.StringMemo.Call | src/get.js:5-16 | the result is always `func(string)`; `func` runs exactly when the string is not cached; a hit changes nothing; a miss appends the string and trims the order to the newest 512 |
| Get.SetAndTrim | src/get.js:10-13 | storing a string not yet present, then trimming past MAX_KEYS: the order becomes the newest 512 of the old order plus the string, which is stored with its result, and every other remaining entry is an old one unchanged |
| Get.MissOnFullEvictsOldest | src/get.js:9-13 | a miss on a full cache evicts exactly the oldest key and appends the new one |
| Get.PathValue | src/get.js:47-56 | the value the key path reaches, one property read per key, `undefined` once a nullish value is met with keys left; its properties are `PathValueAppend` and `PathValueFromNullish`, and `BaseGet` is proved equal to it |
| Get.PathValueAppend | src/get.js:49-55 | following a path `a + b` is following `a`, then `b` from where `a` ended |
| Get.PathValueFromNullish | src/get.js:50-52 | from `null` or `undefined`, any non-empty path yields `undefined` and the empty path yields the value itself |
| Get.BaseGet | src/get.js:45-57 | the loop returns the value the key path reaches, one property read per segment, stopping with `undefined` at a nullish value; an array path leaves the string cache untouched |
| Get.GetValue | src/get.js:59-62 | `get` gives the default for a nullish object or an `undefined` lookup, and the looked-up value otherwise |
| Get.Get | src/get.js:59-62 | `get(obj, path, defaultValue)` returns `GetValue` for the keys of the path and does not tokenise when `obj` is nullish |
| Get.GetKeepsNull | src/get.js:61 | a `null` at the end of the path is returned as `null`, not replaced by the default |
| MemoizeSelector.GetMarker | src/memoizeSelector.js:2-22 | the normalisation of `getMarker`, branch for branch; `GetMarkerNormalizes` proves it equal to the position-wise `Normalized` |
| MemoizeSelector.GetMarkerNormalizes | src/memoizeSelector.js:2-22 | `getMarker` equals the position-wise definition: defined values in slots 0 to 2 keep their place; an undefined slot becomes its own sentinel when a later slot is defined or there are more than three arguments, and is dropped otherwise; arguments past index 2 are appended unchanged |
| MemoizeSelector.GetMarkerElements | src/memoizeSelector.js:2-22 | the cleaned list is never longer than the call; with more than three arguments it has the call's length and the same tail; it holds only arguments and sentinels; every defined argument keeps its position |
| MemoizeSelector.CleanKeepsObjects | src/memoizeSelector.js:2-22 | cleaning keeps two leading objects in place |
| MemoizeSelector.Walk | src/memoizeSelector.js:41-53 | the reduce over the cleaned list as a tree update: it adds a missing `WeakMap` per position, marks the one at `lastIndex`, throws on a non-object key, and ends on the marker set, `undefined` or a nested `WeakMap`; its properties are the `Walk…` lemmas below |
| MemoizeSelector.Step | src/memoizeSelector.js:33-54 | `getKey` as a tree update: the `undefinedState` sentinel for no arguments, the argument for one, the walk over the cleaned list otherwise; its properties are the `Step…` lemmas below |
| MemoizeSelector.WalkAdds | src/memoizeSelector.js:42-47 | a missing object argument gets a new nested `WeakMap`, which gets a marker exactly at `lastIndex` |
| MemoizeSelector.WalkGrows | src/memoizeSelector.js:41-53 | the reduce never removes a `WeakMap` or a marker |
| MemoizeSelector.WalkIdempotent | src/memoizeSelector.js:41-53 | walking the same cleaned list again in the tree the walk produced gives the same key and adds nothing |
| MemoizeSelector.WalkPresent | src/memoizeSelector.js:41-53 | once every prefix has its `WeakMap`, the walk changes nothing |
| MemoizeSelector.WalkNoThrow | src/memoizeSelector.js:42-44 | a cleaned list of objects never makes `map.set` throw |
| MemoizeSelector.StepKeys | src/memoizeSelector.js:33-53 | the key a call of two or more arguments gets: the intermediate `WeakMap` when the cleaned list is shorter than the call; otherwise the existing marker set, `undefined` for an unmarked existing path, or a new marked leaf for a new path |
| MemoizeSelector.NodeWhenShort | src/memoizeSelector.js:34-52 | when `lastIndex` lies beyond the cleaned list, the key is the `WeakMap` at the end of the cleaned list |
| MemoizeSelector.LeafWhenNew | src/memoizeSelector.js:42-51 | a full-length path not yet in the tree gets a fresh marker set as its key |
| MemoizeSelector.StepWellFormed | src/memoizeSelector.js:41-53 | the tree stays closed under prefixes, keeps its root, and marks only present paths |
| MemoizeSelector.StepIdempotent | src/memoizeSelector.js:33-54 | asking twice for the key of the same identity sequence returns the same key and leaves the tree as the first call left it |
| MemoizeSelector.StepGrows | src/memoizeSelector.js:41-53 | getting a key never prunes the tree |
| MemoizeSelector.NewFirstArgNewPath | src/memoizeSelector.js:42-47 | a call of objects whose first argument starts no path gets a key at a path the tree did not have, so it cannot alias an earlier key |
| MemoizeSelector.KeyMap.constructor | src/memoizeSelector.js:24-31 | `createKeyMap()` starts with the root `WeakMap` alone and no markers; the root, the marker and the three sentinels are all new objects |
| MemoizeSelector.KeyMap.AddNode | src/memoizeSelector.js:42-47 | `map.set(arg, new WeakMap())` adds one fresh `WeakMap` under the parent, and a fresh marker set exactly when asked; nothing else changes |
| MemoizeSelector.KeyMap.Visit | src/memoizeSelector.js:42-48 | one reduce step: the `WeakMap` for the argument exists afterwards, or `map.set` threw on a non-object and nothing changed; the walk from there on is unaffected |
| MemoizeSelector.KeyMap.Descend | src/memoizeSelector.js:41-53 | the reduce loop returns the object `Step` names and leaves the tree `Step` gives; every new `WeakMap` or set is fresh and none is removed |
| MemoizeSelector.KeyMap.GetKey | src/memoizeSelector.js:33-54 | for any arguments, `getKey(args)` gives the `undefinedState` sentinel for no arguments, the argument itself for one, and otherwise the object `Step` names; the tree becomes `Step`'s tree |
| MemoizeSelector.KeyMap.KeysDistinct | src/memoizeSelector.js:42-47 | keys at different paths or of different kinds are different objects, and no tree key equals a one-argument call's own argument |
| MemoizeSelector.ShorterAfterLongerHasNoLeaf | src/memoizeSelector.js:41-53 | after `(a, b, c)`, the call `(a, b)` gets the key `undefined` and adds nothing |
| MemoizeSelector.TrailingUndefinedGivesNode | src/memoizeSelector.js:34-52 | `(a, b, undefined)` is keyed by the intermediate `WeakMap` at `[a, b]`, not by a leaf |
| MemoizeSelector.NormalIsCached | src/memoizeSelector.js:63-66 | a call that returns normally leaves its value in the cache under its key, which is an object |
| MemoizeSelector.CachedIsHit | src/memoizeSelector.js:63-68 | a call whose key is cached returns the cached value, runs no selector and changes no cache |
| MemoizeSelector.MemoizedSelector.constructor | src/memoizeSelector.js:57-59 | `memoizeSelector(selector)` starts with an empty cache and a new key map whose root, marker and sentinels are new objects and whose tree holds the root alone |
| MemoizeSelector.MemoizedSelector.Call | src/memoizeSelector.js:61-69 | the selector runs exactly when the key is missing; a hit returns the stored value, even `undefined`; a normal result is cached for these arguments; a non-object key makes the `set` throw after the selector ran |
| MemoizeSelector.RepeatedCallHits | src/memoizeSelector.js:61-69 | repeating the argument identities returns the first result without running the selector, even if the state the selector reads changed |
| MemoizeSelector.NewStateMisses | src/memoizeSelector.js:61-66 | a call whose state is a new object, with every other argument an object, runs the selector |
| MemoizeSelector.NewMemoAdmitsEarlierArgs | src/memoizeSelector.js:24-31 | a memo built after the caller obtained its arguments never has one of them among its private objects, so any arguments the caller already holds may be passed to it |
| CreateSelector.CreateStateSelector | src/createSelector.js:7-12 | a string or array becomes a function; anything else is returned unchanged |
| CreateSelector.StateSelectorGetsPath | src/createSelector.js:8-9 | the selector made from a path returns `get(state, path)` for the first argument |
| CreateSelector.CreatePropsSelector | src/createSelector.js:14-17 | the state selector of the argument, called with the second argument alone; `PropsSelectorReadsProps` states what it depends on |
| CreateSelector.PropsSelectorReadsProps | src/createSelector.js:14-17 | a props selector depends only on the second argument and is the state selector applied to it |
| CreateSelector.MapSelectorsToArgs | src/createSelector.js:4-5 | one value per selector, in order, each the selector applied to the whole list; it completes exactly when no selector throws, otherwise it carries the first selector's throw |
| CreateSelector.MapCreateStateSelector | src/createSelector.js:20 | `selectors.map(createStateSelector)` keeps the length, turns every string or array entry into a function, and leaves every other entry as it was |
| CreateSelector.MapCreateStateSelectorReadsPath | src/createSelector.js:8-9 | a converted string or array entry returns, for any call, the value its path reaches from the first argument, and never throws |
| CreateSelector.DependentSelector | src/createSelector.js:23-26 | the function a dependent selector memoises: the input selectors' values, then the results function on them; `DependentSelectorValue` states its result |
| CreateSelector.DependentSelectorValue | src/createSelector.js:21-27 | the dependent selector returns the results function applied to the input values, one per input, in order; an input that throws ends the call before the results function runs |
| CreateSelector.CreateDependentSelector | src/createSelector.js:19-28 | a new memoised selector with an empty cache, whose selector uses the last converted argument as results function and the rest as inputs |
| CreateSelector.CreateSelector | src/createSelector.js:30-35 | with at most one argument, `createStateSelector(selectors[0])`; with more, a new dependent selector |
| CombineSelectors.CombineRecord | src/combineSelectors.js:8-11 | the `reduce` building the record key by key, ended by the first throw; the `CombineRecord…` lemmas below state its key set, values and throws |
| CombineSelectors.CombineRecordKeys | src/combineSelectors.js:8-11 | a completed record has exactly the keys of the selector map |
| CombineSelectors.CombineRecordNormal | src/combineSelectors.js:8-11 | the record completes exactly when no selector throws |
| CombineSelectors.CombineRecordValues | src/combineSelectors.js:9 | with distinct keys, each key's value is its selector applied to the full argument list |
| CombineSelectors.CombineRecordThrow | src/combineSelectors.js:8-11 | an incomplete record carries the throw of the first selector that throws |
| CombineSelectors.CombineRecordSpec | src/combineSelectors.js:8-11 | the three facts together: completion, the key set, and the values |
| CombineSelectors.CombineMatchesMapSelectorsToArgs | src/combineSelectors.js:8-11 | the record completes exactly when `mapSelectorsToArgs` does, and key `i` holds that map's entry `i` |
| CombineSelectors.CombineSelectors | src/combineSelectors.js:4-13 | a new memoised selector, with an empty cache, over the map's names and its entries after `createStateSelector` |
| CombineSelectors.CombinedRecordContents | src/combineSelectors.js:4-13 | when no entry throws, the result has exactly the map's keys, each holding its converted selector's value |
| MemoizeCreator.MemoizedCreator.constructor | src/memoizeCreator.js:1-2 | `memoizeCreator(creator)` starts with an empty cache |
| MemoizeCreator.MemoizedCreator.Call | src/memoizeCreator.js:3-9 | the creator runs exactly when the serialised key is absent or holds a falsy value; a miss stores and returns the fresh result; a hit returns the stored one; entries are never removed |
| MemoizeCreator.TwoCalls | src/memoizeCreator.js:3-9 | the first call always creates; a second call with the same serialisation reuses a truthy result and recreates a falsy one; a different serialisation creates again |
| MemoizeResultsFunc.MemoizedResultsFunc.constructor | src/memoizeResultsFunc.js:3-5 | both closure variables start unset |
| MemoizeResultsFunc.MemoizedResultsFunc.Call | src/memoizeResultsFunc.js:7-15 | the selector runs exactly when there are no previous arguments shallow-equal to these; a hit returns the stored value whatever the heap now holds; a miss returns what the selector gives in the current heap, and the slot takes these arguments and that value only when the selector returned; a throw reaches the caller and leaves the slot as it was |
| MemoizeResultsFunc.OneSlotOnly | src/memoizeResultsFunc.js:7-15 | on a fresh memo, the first call runs the selector, and after a differing call that returned, repeating the earlier arguments runs it again |
| MemoizeResultsFunc.StaleAfterMutation | src/memoizeResultsFunc.js:8-15 | after a first call that returned, the same arguments in a changed heap return the first value without running the selector |
| MemoizeResultsFunc.ThrowKeepsSlot | src/memoizeResultsFunc.js:8-15 | a call that throws does not replace the slot, so repeating the arguments before it is a hit with their first value |
| WithOptions.OptionsMap.constructor | src/helpers/withOptions.js:5-7 | `createOptionsMap()` starts with an empty map and an empty `keys` queue |
| WithOptions.OptionsMap.TrimKeys | src/helpers/withOptions.js:8-12 | the inner `trimCache` shifts the oldest keys off until at most 100 remain, deleting each from the map; the queue stays the map's insertion order |
| WithOptions.OptionsMap.Wrap | src/helpers/withOptions.js:13-25 | a held serialisation returns its wrapper unchanged in the queue; a new one gets a fresh wrapper, is queued and trimmed; the queue stays at most 100 distinct keys, equal to the map's keys; the returned wrapper's options are the ones just passed |
| WithOptions.WrapTwice | src/helpers/withOptions.js:13-25 | two wraps in a row return the same wrapper exactly when the options serialise alike |
| WithOptions.FilterArgs | src/helpers/withOptions.js:28-29 | the default filter keeps every argument and `filterState` keeps the state alone; `FilterStateKeepsState` states the latter |
| WithOptions.FilterStateKeepsState | src/helpers/withOptions.js:29 | `filterState` yields exactly one argument, the state |
| WithOptions.OptionsSelector | src/helpers/withOptions.js:33-35 | the selector `withOptions` memoises: the creator called with the wrapper's options, its result called with the remaining arguments; a first argument with no options throws; `Select` states what a call returns through it |
| WithOptions.WithOptions.constructor | src/helpers/withOptions.js:31-35 | `withOptions` makes a new options map and a new memoised selector with empty caches, whose key map's root, marker and sentinels are new objects |
| WithOptions.WithOptions.Run | src/helpers/withOptions.js:33-37 | the memoised selector is called with the wrapper before the filtered arguments, with the hit/miss outcome of `memoizeSelector` |
| WithOptions.WithOptions.Select | src/helpers/withOptions.js:36-37 | `withOptions(...)(...options)(...selectorArgs)`: the options map changes as `Wrap` says (a held serialisation leaves the queue and the entries as they were; a new one gets a fresh wrapper and the queue becomes the newest 100 of the old queue plus the key; every other entry keeps its wrapper; the wrapper's options become these); the key tree grows as `Step` says; the memo call ends as `CallOutcome` says, with the creator's selector for these options on a miss and the cached value on a hit |
| WithOptions.SameSerialisationHits | src/helpers/withOptions.js:31-38 | options that serialise alike, with the same selector arguments, run the creator once |
| WithOptions.NewSerialisationMisses | src/helpers/withOptions.js:31-38 | options whose serialisation the map does not hold, with every filtered argument an object, get a new wrapper, so the creator runs again |
| WithProps.MapSelectorsToProps | src/helpers/withProps.js:4-8 | `mapSelectorsToProps(selectors)(props)`, entry by entry; the three lemmas below state when it completes, its entries and its throws |
| WithProps.MapSelectorsToPropsNormal | src/helpers/withProps.js:4-8 | the map completes exactly when no prop selector throws |
| WithProps.MapSelectorsToPropsValues | src/helpers/withProps.js:4-8 | one entry per selector, entry `i` being what selector `i` gives for `props[i]`, or `props[0]` when that is `undefined` |
| WithProps.MapSelectorsToPropsThrow | src/helpers/withProps.js:4-8 | an incomplete map carries the throw of the first selector that throws |
| WithProps.ExtraPropsIgnored | src/helpers/withProps.js:5-6 | props past the last selector's position do not affect the result |
| WithProps.PropSelectorValue | src/helpers/withProps.js:6-7 | a path prop selector reads its path from its argument; an `undefined` selector yields `undefined`; any other non-function throws |
| WithProps.WithProps.constructor | src/helpers/withProps.js:10-17 | `withProps` builds `withOptions(selectorCreator, filterState)` and converts the prop selectors with `createStateSelector`; the inner key map's root, marker and sentinels are new objects |
| WithProps.WithProps.CreatorArgsSkipState | src/helpers/withProps.js:19-23 | the creator's arguments never depend on the state; without prop selectors they are the arguments after the first |
| WithProps.WithProps.Call | src/helpers/withProps.js:18-26 | a throwing prop selector ends the call with no cache, tree or options-map change; otherwise the options map changes as `Wrap` says, the key tree grows as `Step` says for the wrapper and the state, and the memo call ends as `CallOutcome` says: it runs exactly when the key is not cached, and then returns the configured selector applied to the state alone; a hit returns the cached value |
| WithProps.RepeatedCallHits | src/helpers/withProps.js:18-26 | repeating a call with the same arguments returns the same result without running the creator |
| WithProps.NewOptionsMiss | src/helpers/withProps.js:18-26 | options that serialise to a key the map does not hold, with an object as state, make the call run the creator, and a value it returns is the configured selector's for the state alone |
| WithProps.NewWithPropsAdmitsEarlierArgs | src/helpers/withProps.js:10-17 | a `withProps` selector built after the caller obtained its arguments has none of them among its key map's private objects, so `Call` accepts them |
| WithArgs.AsksForProps | src/withArgs.js:8 | the sentinel as the one and only argument; `SentinelWithMoreIsDirect` states both sides |
| WithArgs.WithArgs.constructor | src/withArgs.js:5-6 | `withArgs(selectorCreator)` wraps the creator in one empty `memoizeCreator` cache |
| WithArgs.WithArgs.Call | src/withArgs.js:7-16 | the sentinel as the sole argument selects props mode and touches no cache; any other argument list goes to the memoised creator with its hit/miss outcome |
| WithArgs.WithArgs.PropsModeCall | src/withArgs.js:9-13 | props mode asks the shared cache with every argument after the first, then applies the selector it gets to all the arguments |
| WithArgs.SharedCache | src/withArgs.js:6-15 | a props-mode call with `(state, props)` and a direct call with `(props)` create once, because both modes share one cache |
| WithArgs.SentinelWithMoreIsDirect | src/withArgs.js:8 | the sentinel followed by more arguments is an ordinary argument list |

## Left out

- **Weak references.** Garbage collection and the weakness of `WeakMap` and `WeakSet` are not modelled: maps are identity-keyed and never lose entries. Sequential code cannot observe reclamation.
- **The Lodash tokenizer.** `stringToPath` (`src/get.js:30-43`) is an uninterpreted function from a string to keys, memoised through `StringMemo`. Its lookahead regular expression is out of scope.
- **`JSON.stringify`.** It is an uninterpreted function of the heap and the argument list. So `undefined` and `null` arguments, which serialise alike, may collide, as they do in the library. It is also total here: the `TypeError` it throws on a cyclic value or a `BigInt`, which would end a `memoizeCreator` or `withOptions` call before any cache changes, is not modelled.
- **Property lookup** `val[key]` is the abstract `Heap` function. Prototype chains and getters are not modelled.
- **`shallowequal`** is modelled for the array case only: same length and element-wise `===`.
- **Other source files.** `src/composeSelectors.js` wraps the `compose` of a library that is not part of this model. `src/helpers/withState.js`, `src/helpers/index.js`, `src/createSelectorWithArgs.js` and `src/index.js` only forward and re-export.
- **Numbers** are integers: floating point and `NaN` are not modelled.
- **Selectors are pure functions** of the heap and their arguments. The memoisation state inside a selector that a creator or a selector map returns is not modelled, and creators always return.
- **Object key order.** `Object.keys` order for integer-like names is not modelled: a selector map is a list of distinct names in the order given.
- **The discarded wrapper.** `createOptionsMap` first allocates a `wrapper = {}` that it discards, and this is not modelled. The map's own new object is the wrapper.
- **The record object** of `combineSelectors` is a `map` value. Its identity, which the cache returns unchanged on a hit, is not modelled as a heap object.
- **Private objects.** `MemoizeSelector.MemoizedSelector.Call` requires that no argument is one of the key map's private objects (its root WeakMap, every nested WeakMap and marker WeakSet of the key tree, the marker and the sentinels). Code outside the closure cannot hold them: every constructor ensures the root, the marker and the sentinels are new objects, and `MemoizeSelector.NewMemoAdmitsEarlierArgs` and `WithProps.NewWithPropsAdmitsEarlierArgs` derive from that that arguments a caller already holds are admissible. Nodes and leaves added later are likewise fresh (`KeyMap.GetKey` ensures so), but the model does not track which objects a caller obtains after building the memo.
- **String-path cache.** `Get.BaseGet` does not state how tokenising a string path changes the `stringToPath` cache. It states only that the cache stays well formed and that an array path leaves it untouched.
- WithProps.NewOptionsMiss: states the result only when the run returns normally. A run that throws passes the configured selector's throw on; `WithProps.WithProps.Call` states that through `CallOutcome`, and this method does not restate it.
- **Tests that contradict the code**, not stated as properties:
  - `test/dependentSelector.spec.js:19-27` and `52-67` expect shallow-equality memoisation, which `createSelector` never uses;
  - `test/helpers/withOptions.spec.js:36-43` expects a hit although, with the default filter, the new props object is part of the identity key;
  - `test/helpers/withOptions.spec.js:81-93` is skipped.
