/** `src/combineSelectors.js`: one memoised selector that builds a record
    with a property per entry of a selector map. */
module CombineSelectors {
  import opened JsValues
  import opened JsMaps
  import opened MemoizeSelector
  import opened CreateSelector

  /** The selector map: its own enumerable properties in `Object.keys`
      order, each key once. */
  type SelectorMap = entries: seq<(string, SelectorArg)> | Distinct(NamesOf(entries)) witness []

  /** The property names of a list of entries, in order. */
  function NamesOf(entries: seq<(string, SelectorArg)>): (r: seq<string>)
    ensures |r| == |entries|
    ensures forall i | 0 <= i < |entries| :: r[i] == entries[i].0
  {
    seq(|entries|, i requires 0 <= i < |entries| => entries[i].0)
  }

  /** The selectors of a list of entries, in order. */
  function SelectorsOf(entries: seq<(string, SelectorArg)>): (r: seq<SelectorArg>)
    ensures |r| == |entries|
    ensures forall i | 0 <= i < |entries| :: r[i] == entries[i].1
  {
    seq(|entries|, i requires 0 <= i < |entries| => entries[i].1)
  }

  /** The `reduce` over the keys: the property `keys[i]` gets what
      `selectors[i]` returns for the whole argument list, key by key in
      order, and the first selector that throws ends the reduce. */
  function CombineRecord(keys: seq<string>, selectors: seq<SelectorArg>, heap: Heap, args: seq<Value>)
    : (r: Completion<map<string, Value>>)
    requires |keys| == |selectors|
    decreases |keys|
  {
    if keys == [] then Normal(map[])
    else
      var n := |keys| - 1;
      match CombineRecord(keys[..n], selectors[..n], heap, args)
      case Throw(e) => Throw(e)
      case Normal(record) =>
        match Apply(selectors[n], heap, args)
        case Throw(e) => Throw(e)
        case Normal(v) => Normal(record[keys[n] := v])
  }

  /** A complete record has exactly the given keys as its properties. */
  lemma {:induction false} CombineRecordKeys(keys: seq<string>, selectors: seq<SelectorArg>, heap: Heap, args: seq<Value>)
    requires |keys| == |selectors|
    ensures var r := CombineRecord(keys, selectors, heap, args);
      r.Normal? ==> r.value.Keys == set k | k in keys
    decreases |keys|
  {
    if keys != [] {
      var n := |keys| - 1;
      CombineRecordKeys(keys[..n], selectors[..n], heap, args);
      assert keys == keys[..n] + [keys[n]];
    }
  }

  /** The record is complete exactly when no selector throws. */
  lemma {:induction false} CombineRecordNormal(keys: seq<string>, selectors: seq<SelectorArg>, heap: Heap, args: seq<Value>)
    requires |keys| == |selectors|
    ensures CombineRecord(keys, selectors, heap, args).Normal?
        <==> forall i | 0 <= i < |selectors| :: Apply(selectors[i], heap, args).Normal?
    decreases |keys|
  {
    if keys != [] {
      var n := |keys| - 1;
      CombineRecordNormal(keys[..n], selectors[..n], heap, args);
      assert forall i | 0 <= i < n :: selectors[..n][i] == selectors[i];
    }
  }

  /** A complete record over distinct keys holds under each key the value
      of its selector. */
  lemma {:induction false} CombineRecordValues(keys: seq<string>, selectors: seq<SelectorArg>, heap: Heap, args: seq<Value>)
    requires |keys| == |selectors| && Distinct(keys)
    ensures var r := CombineRecord(keys, selectors, heap, args);
      r.Normal? ==> forall i | 0 <= i < |keys| ::
        keys[i] in r.value && Apply(selectors[i], heap, args) == Normal(r.value[keys[i]])
    decreases |keys|
  {
    if keys != [] {
      var n := |keys| - 1;
      var prefix, prefixSels := keys[..n], selectors[..n];
      assert Distinct(prefix) by {
        forall i, j | 0 <= i < j < n ensures prefix[i] != prefix[j] {
          assert prefix[i] == keys[i] && prefix[j] == keys[j];
        }
      }
      CombineRecordValues(prefix, prefixSels, heap, args);
      var r := CombineRecord(keys, selectors, heap, args);
      if r.Normal? {
        var rec := CombineRecord(prefix, prefixSels, heap, args);
        assert rec.Normal? && r.value == rec.value[keys[n] := Apply(selectors[n], heap, args).value];
        forall i | 0 <= i < n
          ensures keys[i] in r.value && Apply(selectors[i], heap, args) == Normal(r.value[keys[i]])
        {
          assert prefix[i] == keys[i] && prefixSels[i] == selectors[i];
          assert keys[i] != keys[n];
          assert Apply(prefixSels[i], heap, args) == Normal(rec.value[prefix[i]]);
        }
      }
    }
  }

  /** An incomplete record carries the error of the first selector to
      throw. */
  lemma {:induction false} CombineRecordThrow(keys: seq<string>, selectors: seq<SelectorArg>, heap: Heap, args: seq<Value>)
    requires |keys| == |selectors|
    ensures var r := CombineRecord(keys, selectors, heap, args);
      r.Throw? ==> exists i | 0 <= i < |selectors| ::
        && Apply(selectors[i], heap, args) == Throw(r.error)
        && forall j | 0 <= j < i :: Apply(selectors[j], heap, args).Normal?
    decreases |keys|
  {
    if keys != [] {
      var n := |keys| - 1;
      var prefix, prefixSels := keys[..n], selectors[..n];
      CombineRecordThrow(prefix, prefixSels, heap, args);
      CombineRecordNormal(prefix, prefixSels, heap, args);
      assert forall i | 0 <= i < n :: prefixSels[i] == selectors[i];
      var rec := CombineRecord(prefix, prefixSels, heap, args);
      var r := CombineRecord(keys, selectors, heap, args);
      if rec.Normal? && r.Throw? {
        assert Apply(selectors[n], heap, args) == Throw(r.error);
      }
    }
  }

  /** The record is complete exactly when no selector throws; it then
      holds under each key its selector's value; otherwise the error is
      that of the first selector to throw. */
  lemma CombineRecordSpec(keys: seq<string>, selectors: seq<SelectorArg>, heap: Heap, args: seq<Value>)
    requires |keys| == |selectors|
    ensures var r := CombineRecord(keys, selectors, heap, args);
      && (r.Normal? <==> forall i | 0 <= i < |selectors| :: Apply(selectors[i], heap, args).Normal?)
      && (r.Normal? && Distinct(keys) ==>
            forall i | 0 <= i < |keys| :: keys[i] in r.value && r.value[keys[i]] == Apply(selectors[i], heap, args).value)
      && (r.Throw? ==> exists i | 0 <= i < |selectors| ::
            && Apply(selectors[i], heap, args) == Throw(r.error)
            && forall j | 0 <= j < i :: Apply(selectors[j], heap, args).Normal?)
  {
    CombineRecordNormal(keys, selectors, heap, args);
    CombineRecordThrow(keys, selectors, heap, args);
    if Distinct(keys) {
      CombineRecordValues(keys, selectors, heap, args);
    }
  }

  /** The selector `combineSelectors` memoises, over the entries'
      selectors after `createStateSelector`. */
  function CombinedSelector(keys: seq<string>, selectors: seq<SelectorArg>): (Heap, seq<Value>) -> Completion<map<string, Value>>
    requires |keys| == |selectors|
  {
    (heap: Heap, args: seq<Value>) => CombineRecord(keys, selectors, heap, args)
  }

  /** The first selector to throw is the same however the list is walked:
      two indices that both throw after only normal completions are one. */
  lemma FirstThrowUnique(selectors: seq<SelectorArg>, heap: Heap, args: seq<Value>, i: nat, j: nat)
    requires i < |selectors| && j < |selectors|
    requires Apply(selectors[i], heap, args).Throw? && Apply(selectors[j], heap, args).Throw?
    requires forall k | 0 <= k < i :: Apply(selectors[k], heap, args).Normal?
    requires forall k | 0 <= k < j :: Apply(selectors[k], heap, args).Normal?
    ensures i == j
  {
  }

  /** A combined record holds, under each key, the value that the
      dependent-selector machinery would pass to a results function for
      the same selectors; and both throw the same error when one throws. */
  lemma CombineMatchesMapSelectorsToArgs(keys: seq<string>, selectors: seq<SelectorArg>, heap: Heap, args: seq<Value>)
    requires |keys| == |selectors| && Distinct(keys)
    ensures var r := CombineRecord(keys, selectors, heap, args);
            var m := MapSelectorsToArgs(selectors, heap, args);
      && (r.Normal? <==> m.Normal?)
      && (r.Normal? ==> forall i | 0 <= i < |keys| :: keys[i] in r.value && r.value[keys[i]] == m.value[i])
      && (r.Throw? ==> m == Throw(r.error))
  {
    var r := CombineRecord(keys, selectors, heap, args);
    var m := MapSelectorsToArgs(selectors, heap, args);
    CombineRecordSpec(keys, selectors, heap, args);
    if r.Throw? {
      var i :| 0 <= i < |selectors| && Apply(selectors[i], heap, args) == Throw(r.error)
        && forall k | 0 <= k < i :: Apply(selectors[k], heap, args).Normal?;
      var j :| 0 <= j < |selectors| && Apply(selectors[j], heap, args) == Throw(m.error)
        && forall k | 0 <= k < j :: Apply(selectors[k], heap, args).Normal?;
      FirstThrowUnique(selectors, heap, args, i, j);
    }
  }

  /** `combineSelectors(selectorMap)`: a new memoised selector over the
      map's keys and its values after `createStateSelector`. */
  method CombineSelectors(tokenize: string -> seq<Value>, selectorMap: SelectorMap)
    returns (m: MemoizedSelector<Heap, map<string, Value>>)
    ensures fresh(m) && fresh(m.getKey) && m.Valid() && m.cache == map[]
    ensures m.getKey.Abstract() == EmptyTrie
    ensures m.selector == CombinedSelector(NamesOf(selectorMap), MapCreateStateSelector(tokenize, SelectorsOf(selectorMap)))
  {
    var keys := NamesOf(selectorMap);
    var selectors := MapCreateStateSelector(tokenize, SelectorsOf(selectorMap));
    m := new MemoizedSelector(CombinedSelector(keys, selectors));
  }

  /** The names of a list of entries, as a set, are the first components
      of its entries. */
  lemma NamesOfSet(entries: seq<(string, SelectorArg)>)
    ensures (set k | k in NamesOf(entries)) == (set e | e in entries :: e.0)
  {
    var keys := NamesOf(entries);
    forall k | k in keys ensures k in (set e | e in entries :: e.0) {
      var i :| 0 <= i < |keys| && keys[i] == k;
      assert entries[i] in entries;
    }
    forall e | e in entries ensures e.0 in keys {
      var i :| 0 <= i < |entries| && entries[i] == e;
      assert keys[i] == e.0;
    }
  }

  /** What a combined selector returns when no entry throws: a record with
      exactly the map's keys, each holding its entry's selector applied to
      the whole argument list (a path entry read from the first argument). */
  lemma CombinedRecordContents(tokenize: string -> seq<Value>, selectorMap: SelectorMap, heap: Heap, args: seq<Value>)
    requires forall i | 0 <= i < |selectorMap| ::
      Apply(CreateStateSelector(tokenize, selectorMap[i].1), heap, args).Normal?
    ensures var r := CombinedSelector(NamesOf(selectorMap), MapCreateStateSelector(tokenize, SelectorsOf(selectorMap)))(heap, args);
      && r.Normal?
      && r.value.Keys == (set e | e in selectorMap :: e.0)
      && forall i | 0 <= i < |selectorMap| ::
           r.value[selectorMap[i].0] == Apply(CreateStateSelector(tokenize, selectorMap[i].1), heap, args).value
  {
    var keys := NamesOf(selectorMap);
    var selectors := MapCreateStateSelector(tokenize, SelectorsOf(selectorMap));
    CombineRecordSpec(keys, selectors, heap, args);
    CombineRecordKeys(keys, selectors, heap, args);
    NamesOfSet(selectorMap);
  }
}
