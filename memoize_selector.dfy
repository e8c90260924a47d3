/** `src/memoizeSelector.js`: memoisation keyed by the identities of the
    arguments, through a tree of nested WeakMaps built by `createKeyMap`. */
module MemoizeSelector {
  import opened JsValues

  // ---------------------------------------------------------------------
  // getMarker: normalising the argument list
  // ---------------------------------------------------------------------

  /** `getMarker(undefinedState, undefinedProps, undefinedArgs)(selectorArgs)`:
      slots 0 to 2 (state, props, extra) that are undefined become their own
      sentinel when a later slot needs them and are dropped otherwise; the
      arguments after slot 2 follow unchanged. */
  function GetMarker(undefinedState: Value, undefinedProps: Value, undefinedArgs: Value,
                     selectorArgs: seq<Value>): seq<Value>
  {
    var state, props, args := Slot(selectorArgs, 0), Slot(selectorArgs, 1), Slot(selectorArgs, 2);
    var other := if |selectorArgs| > 3 then selectorArgs[3..] else [];
    var hasOther := |other| != 0;
    var first :=
      if state == Undefined && (props != Undefined || args != Undefined || hasOther) then [undefinedState]
      else if state != Undefined then [state]
      else [];
    var second :=
      if props == Undefined && (args != Undefined || hasOther) then [undefinedProps]
      else if props != Undefined then [props]
      else [];
    var third :=
      if args == Undefined && hasOther then [undefinedArgs]
      else if args != Undefined then [args]
      else [];
    var marker := first + second + third;
    if hasOther then marker + other else marker
  }

  /** How many positions the normalised list has: every one when there are
      more than three arguments, otherwise up to the last defined one. */
  function KeptLength(args: seq<Value>): (n: nat)
    ensures n <= |args|
  {
    if |args| > 3 then |args|
    else if Slot(args, 2) != Undefined then 3
    else if Slot(args, 1) != Undefined then 2
    else if Slot(args, 0) != Undefined then 1
    else 0
  }

  /** The normalised list defined position by position, as a reference for
      `GetMarker`: position `i` holds the argument itself, except that an
      undefined argument in slots 0 to 2 is replaced by that slot's sentinel. */
  function Normalized(sentinels: seq<Value>, args: seq<Value>): (r: seq<Value>)
    requires |sentinels| == 3
  {
    seq(KeptLength(args), i requires 0 <= i < KeptLength(args) =>
      if i < 3 && args[i] == Undefined then sentinels[i] else args[i])
  }

  /** `getMarker` normalises exactly as the position-wise definition says:
      defined values among the first three keep their place, an undefined
      slot there becomes its sentinel only when a later slot is defined or
      there are more than three arguments (and is dropped otherwise), and
      arguments past index 2 are appended unchanged, undefined ones included. */
  lemma GetMarkerNormalizes(s0: Value, s1: Value, s2: Value, args: seq<Value>)
    ensures GetMarker(s0, s1, s2, args) == Normalized([s0, s1, s2], args)
  {
    var m := GetMarker(s0, s1, s2, args);
    var n := Normalized([s0, s1, s2], args);
    if |args| > 3 {
      assert |m| == |args|;
      forall i | 0 <= i < |args| ensures m[i] == n[i] {
        if i >= 3 {
          assert m[i] == args[3..][i - 3];
        }
      }
    } else {
      assert |m| == |n|;
      forall i | 0 <= i < |m| ensures m[i] == n[i] {
      }
    }
  }

  /** Consequences of the normalisation used by the key tree: the normalised
      list is never longer than the call, keeps everything past index 2, and
      holds nothing but the arguments and the three sentinels. */
  lemma GetMarkerElements(s0: Value, s1: Value, s2: Value, args: seq<Value>)
    ensures var m := GetMarker(s0, s1, s2, args);
      && |m| <= |args|
      && (|args| > 3 ==> |m| == |args| && m[3..] == args[3..])
      && (forall x | x in m :: x in args || x == s0 || x == s1 || x == s2)
      && (forall i | 0 <= i < |m| && args[i] != Undefined :: m[i] == args[i])
  {
    GetMarkerNormalizes(s0, s1, s2, args);
    var m := GetMarker(s0, s1, s2, args);
    forall x | x in m ensures x in args || x == s0 || x == s1 || x == s2 {
      var i :| 0 <= i < |m| && m[i] == x;
    }
  }

  // ---------------------------------------------------------------------
  // createKeyMap, abstractly: the tree as sets of paths
  // ---------------------------------------------------------------------

  /** The three private sentinel objects that stand for an undefined state,
      props or extra argument. */
  datatype Sentinels = Sentinels(undefinedState: JsObject, undefinedProps: JsObject, undefinedArgs: JsObject)

  /** `clean(args)`: GetMarker with the key map's own sentinels. */
  function Clean(s: Sentinels, args: seq<Value>): seq<Value> {
    GetMarker(Obj(s.undefinedState), Obj(s.undefinedProps), Obj(s.undefinedArgs), args)
  }

  /** The shape of the key tree: `paths` are the cleaned prefixes that have
      a nested WeakMap (the root is the empty path), `marked` those whose
      WeakMap holds an entry under `keyMarker`. */
  datatype Trie = Trie(paths: set<seq<Value>>, marked: set<seq<Value>>)

  /** The tree of a new key map: the root WeakMap alone. */
  const EmptyTrie := Trie({[]}, {})

  /** Which object a call's key is, named by its place in the tree. */
  datatype KeyRef =
    | ZeroArgs                    // no arguments: the undefinedState sentinel
    | SoleArg(arg: Value)         // one argument: that argument itself
    | NodeKey(path: seq<Value>)   // the nested WeakMap at this path
    | LeafKey(path: seq<Value>)   // the WeakSet under keyMarker in the WeakMap at this path
    | NoLeaf                      // `undefined`: that WeakMap has no keyMarker entry

  /** The reduce of `createKeyMap` from position `i` of the cleaned list `c`
      on. `lastIndex` comes from the raw argument count, so when `c` is
      shorter than the call the reduce never reaches it and ends on a
      nested WeakMap. A position whose WeakMap is new gets a keyMarker entry
      only if it is `lastIndex`. A key that is not an object makes
      `WeakMap.prototype.set` throw, after the earlier positions were added. */
  function Walk(t: Trie, c: seq<Value>, i: nat, lastIndex: nat): (Trie, Completion<KeyRef>)
    requires i <= |c|
    decreases |c| - i
  {
    if i == |c| then (t, Normal(NodeKey(c)))
    else
      var p := c[..i + 1];
      if p !in t.paths && !CanBeHeldWeakly(c[i]) then (t, Throw(InvalidWeakMapKey))
      else
        var t1 := if p in t.paths then t
                  else Trie(t.paths + {p}, if i == lastIndex then t.marked + {p} else t.marked);
        if i == lastIndex then (t1, Normal(if p in t1.marked then LeafKey(p) else NoLeaf))
        else Walk(t1, c, i + 1, lastIndex)
  }

  /** The key `getKey(args)` returns, and the tree afterwards. */
  function Step(t: Trie, s: Sentinels, args: seq<Value>): (Trie, Completion<KeyRef>)
  {
    if |args| == 0 then (t, Normal(ZeroArgs))
    else if |args| - 1 == 0 then (t, Normal(SoleArg(args[0])))
    else Walk(t, Clean(s, args), 0, |args| - 1)
  }

  /** One step of the walk over a WeakMap that is already present. */
  lemma WalkPresentStep(t: Trie, c: seq<Value>, i: nat, lastIndex: nat)
    requires i < |c| && c[..i + 1] in t.paths
    ensures Walk(t, c, i, lastIndex) ==
      if i == lastIndex then (t, Normal(if c[..i + 1] in t.marked then LeafKey(c[..i + 1]) else NoLeaf))
      else Walk(t, c, i + 1, lastIndex)
  {
  }

  /** One step of the walk that creates a WeakMap: the same as the step
      over the tree that already holds it. */
  lemma WalkAdds(t: Trie, c: seq<Value>, i: nat, lastIndex: nat)
    requires i < |c| && c[..i + 1] !in t.paths && CanBeHeldWeakly(c[i])
    ensures var p := c[..i + 1];
      Walk(t, c, i, lastIndex) ==
      Walk(Trie(t.paths + {p}, if i == lastIndex then t.marked + {p} else t.marked), c, i, lastIndex)
  {
  }

  /** Looking a key up never removes a WeakMap or a marker, even when it
      throws: the tree only grows. The prefixes it walked are all present
      afterwards. */
  lemma {:induction false} WalkGrows(t: Trie, c: seq<Value>, i: nat, lastIndex: nat)
    requires i <= |c|
    ensures var r := Walk(t, c, i, lastIndex);
      && t.paths <= r.0.paths && t.marked <= r.0.marked
      && (r.1.Normal? ==> forall j | i < j <= |c| && j <= lastIndex + 1 :: c[..j] in r.0.paths)
    decreases |c| - i
  {
    if i < |c| {
      var p := c[..i + 1];
      if p in t.paths || CanBeHeldWeakly(c[i]) {
        var t1 := if p in t.paths then t
                  else Trie(t.paths + {p}, if i == lastIndex then t.marked + {p} else t.marked);
        if i != lastIndex {
          WalkGrows(t1, c, i + 1, lastIndex);
        }
      }
    }
  }

  /** Asking a second time for a key that was just handed out returns the
      same key and changes nothing. */
  lemma {:induction false} WalkIdempotent(t: Trie, c: seq<Value>, i: nat, lastIndex: nat)
    requires i <= |c|
    requires Walk(t, c, i, lastIndex).1.Normal?
    ensures var r := Walk(t, c, i, lastIndex); Walk(r.0, c, i, lastIndex) == r
    decreases |c| - i
  {
    if i < |c| {
      var p := c[..i + 1];
      var t1 := if p in t.paths then t
                else Trie(t.paths + {p}, if i == lastIndex then t.marked + {p} else t.marked);
      if i != lastIndex {
        WalkIdempotent(t1, c, i + 1, lastIndex);
        WalkGrows(t1, c, i + 1, lastIndex);
      }
    }
  }

  /** Once every prefix of `c` has its WeakMap, walking `c` changes nothing;
      the key is the WeakMap at `c` when the call was longer than `c`, and
      otherwise the marker there if any, `undefined` if none. */
  lemma {:induction false} WalkPresent(t: Trie, c: seq<Value>, i: nat, lastIndex: nat)
    requires i <= |c| <= lastIndex + 1 && i <= lastIndex
    requires forall j | i < j <= |c| :: c[..j] in t.paths
    ensures Walk(t, c, i, lastIndex) ==
      (t, Normal(if lastIndex >= |c| then NodeKey(c)
                 else if c in t.marked then LeafKey(c) else NoLeaf))
    decreases |c| - i
  {
    if i < |c| {
      if i == lastIndex {
        assert c[..i + 1] == c;
      } else {
        WalkPresent(t, c, i + 1, lastIndex);
      }
    }
  }

  /** Walking a cleaned list of objects never throws. */
  lemma {:induction false} WalkNoThrow(t: Trie, c: seq<Value>, i: nat, lastIndex: nat)
    requires i <= |c|
    requires forall x | x in c :: CanBeHeldWeakly(x)
    ensures Walk(t, c, i, lastIndex).1.Normal?
    decreases |c| - i
  {
    if i < |c| && i != lastIndex {
      var p := c[..i + 1];
      var t1 := if p in t.paths then t else Trie(t.paths + {p}, t.marked);
      WalkNoThrow(t1, c, i + 1, lastIndex);
    }
  }

  /** What kind of key a call of two or more arguments gets. When cleaning
      dropped trailing undefined arguments the key is the nested WeakMap at
      the cleaned path, not a leaf. Otherwise it is the path's leaf, unless
      the path's WeakMap already existed without a marker (made by an
      earlier, longer call), in which case it is `undefined`. A leaf key is
      always marked afterwards. */
  lemma StepKeys(t: Trie, s: Sentinels, args: seq<Value>)
    requires |args| >= 2 && WellFormed(t)
    requires Step(t, s, args).1.Normal?
    ensures var c := Clean(s, args);
      var r := Step(t, s, args);
      && (|c| < |args| ==> r.1.value == NodeKey(c))
      && (|c| == |args| && c in t.paths ==> r == (t, Normal(if c in t.marked then LeafKey(c) else NoLeaf)))
      && (|c| == |args| && c !in t.paths ==> r.1.value == LeafKey(c) && c in r.0.marked)
  {
    var c := Clean(s, args);
    var lastIndex := |args| - 1;
    GetMarkerElements(Obj(s.undefinedState), Obj(s.undefinedProps), Obj(s.undefinedArgs), args);
    WalkGrows(t, c, 0, lastIndex);
    var r := Walk(t, c, 0, lastIndex);
    WalkPresent(r.0, c, 0, lastIndex);
    WalkIdempotent(t, c, 0, lastIndex);
    if |c| == |args| {
      assert c[..|c|] == c;
      if c in t.paths {
        PrefixesPresent(t, c);
        WalkPresent(t, c, 0, lastIndex);
      } else {
        LeafWhenNew(t, c, 0, lastIndex);
      }
    } else {
      NodeWhenShort(t, c, 0, lastIndex);
    }
  }

  /** A walk that runs past the end of a short cleaned list ends on its node. */
  lemma {:induction false} NodeWhenShort(t: Trie, c: seq<Value>, i: nat, lastIndex: nat)
    requires i <= |c| <= lastIndex
    requires Walk(t, c, i, lastIndex).1.Normal?
    ensures Walk(t, c, i, lastIndex).1.value == NodeKey(c)
    decreases |c| - i
  {
    if i < |c| {
      var p := c[..i + 1];
      var t1 := if p in t.paths then t else Trie(t.paths + {p}, t.marked);
      NodeWhenShort(t1, c, i + 1, lastIndex);
    }
  }

  /** A full-length path that was not in the tree gets a fresh leaf. */
  lemma {:induction false} LeafWhenNew(t: Trie, c: seq<Value>, i: nat, lastIndex: nat)
    requires i <= lastIndex && |c| == lastIndex + 1
    requires c !in t.paths
    requires Walk(t, c, i, lastIndex).1.Normal?
    ensures var r := Walk(t, c, i, lastIndex); r.1.value == LeafKey(c) && c in r.0.marked
    decreases |c| - i
  {
    var p := c[..i + 1];
    var t1 := if p in t.paths then t
              else Trie(t.paths + {p}, if i == lastIndex then t.marked + {p} else t.marked);
    if i == lastIndex {
      assert p == c;
    } else {
      assert p != c;
      LeafWhenNew(t1, c, i + 1, lastIndex);
    }
  }

  /** A non-empty path without its last argument. */
  function Parent(p: seq<Value>): seq<Value>
    requires p != []
  {
    p[..|p| - 1]
  }

  /** The tree is closed under prefixes, has its root, and marks only
      paths it has. */
  ghost predicate WellFormed(t: Trie) {
    && [] in t.paths
    && t.marked <= t.paths
    && forall p {:trigger Parent(p)} | p in t.paths && p != [] :: Parent(p) in t.paths
  }

  /** In a well-formed tree every prefix of a present path is present. */
  lemma PrefixesPresent(t: Trie, c: seq<Value>)
    requires WellFormed(t) && c in t.paths
    ensures forall j | 0 <= j <= |c| :: c[..j] in t.paths
  {
    var k := |c|;
    assert c[..k] == c;
    while k > 0
      invariant 0 <= k <= |c|
      invariant forall j | k <= j <= |c| :: c[..j] in t.paths
    {
      assert Parent(c[..k]) == c[..k - 1];
      k := k - 1;
    }
  }

  /** Walking keeps the tree well formed. */
  lemma {:induction false} WalkWellFormed(t: Trie, c: seq<Value>, i: nat, lastIndex: nat)
    requires i <= |c| && WellFormed(t) && c[..i] in t.paths
    ensures WellFormed(Walk(t, c, i, lastIndex).0)
    decreases |c| - i
  {
    if i < |c| {
      var p := c[..i + 1];
      if p in t.paths || CanBeHeldWeakly(c[i]) {
        assert Parent(p) == c[..i];
        var t1 := if p in t.paths then t
                  else Trie(t.paths + {p}, if i == lastIndex then t.marked + {p} else t.marked);
        if i != lastIndex {
          WalkWellFormed(t1, c, i + 1, lastIndex);
        }
      }
    }
  }

  /** Getting a key keeps the tree well formed. */
  lemma StepWellFormed(t: Trie, s: Sentinels, args: seq<Value>)
    requires WellFormed(t)
    ensures WellFormed(Step(t, s, args).0)
  {
    if |args| >= 2 {
      assert Clean(s, args)[..0] == [];
      WalkWellFormed(t, Clean(s, args), 0, |args| - 1);
    }
  }

  /** Getting the key of the same identity sequence twice returns the same
      key and leaves the tree as the first call left it. */
  lemma StepIdempotent(t: Trie, s: Sentinels, args: seq<Value>)
    requires Step(t, s, args).1.Normal?
    ensures var r := Step(t, s, args); Step(r.0, s, args) == r
  {
    if |args| >= 2 {
      WalkIdempotent(t, Clean(s, args), 0, |args| - 1);
    }
  }

  /** Getting a key never prunes the tree. */
  lemma StepGrows(t: Trie, s: Sentinels, args: seq<Value>)
    ensures var r := Step(t, s, args); t.paths <= r.0.paths && t.marked <= r.0.marked
  {
    if |args| >= 2 {
      WalkGrows(t, Clean(s, args), 0, |args| - 1);
    }
  }

  /** A call of objects whose first argument starts no path of the tree
      gets its key at a path the tree did not have: a new WeakMap, or the
      new WeakSet under it. */
  lemma NewFirstArgNewPath(t: Trie, s: Sentinels, args: seq<Value>)
    requires WellFormed(t) && |args| >= 2 && forall x | x in args :: x.Obj?
    requires args[..1] !in t.paths
    ensures var r := Step(t, s, args);
      && r.1.Normal? && (r.1.value.NodeKey? || r.1.value.LeafKey?)
      && r.1.value.path !in t.paths
  {
    var c := Clean(s, args);
    CleanKeepsObjects(s, args);
    GetMarkerElements(Obj(s.undefinedState), Obj(s.undefinedProps), Obj(s.undefinedArgs), args);
    assert forall x | x in c :: x.Obj?;
    WalkNoThrow(t, c, 0, |args| - 1);
    StepKeys(t, s, args);
    assert c[..1] == args[..1];
    if c in t.paths {
      PrefixesPresent(t, c);
      assert false;
    }
  }

  // ---------------------------------------------------------------------
  // createKeyMap: the tree of WeakMaps itself
  // ---------------------------------------------------------------------

  /** The closure `createKeyMap()` returns, with the private objects it
      closes over. Each nested WeakMap is held here under the path of
      cleaned arguments that reaches it from the root `keyCache`, so the
      WeakMap at path `p` has an entry for `arg` exactly when `p + [arg]`
      is in `nodes`, and an entry for `keyMarker` exactly when `p` is in
      `leaves`, whose value is the WeakSet stored there. */
  class KeyMap {
    const keyCache: JsObject
    const keyMarker: JsObject
    const undefinedState: JsObject
    const undefinedProps: JsObject
    const undefinedArgs: JsObject
    var nodes: map<seq<Value>, JsObject>
    var leaves: map<seq<Value>, JsObject>

    function OwnSentinels(): Sentinels {
      Sentinels(undefinedState, undefinedProps, undefinedArgs)
    }

    ghost function Abstract(): Trie
      reads this
    {
      Trie(nodes.Keys, leaves.Keys)
    }

    /** The sentinels and the marker, created with the key map. */
    ghost predicate IsConstant(o: JsObject) {
      o == keyMarker || o == undefinedState || o == undefinedProps || o == undefinedArgs
    }

    /** Whether `v` is one of this key map's private objects. No caller can
        hold one, so no argument is. */
    ghost predicate Private(v: Value)
      reads this
    {
      v.Obj? && (IsConstant(v.ref) || v.ref in nodes.Values || v.ref in leaves.Values)
    }

    ghost predicate Valid()
      reads this
    {
      && keyMarker != undefinedState && keyMarker != undefinedProps && keyMarker != undefinedArgs
      && undefinedState != undefinedProps && undefinedState != undefinedArgs
      && undefinedProps != undefinedArgs
      && [] in nodes && nodes[[]] == keyCache
      && WellFormed(Abstract())
      && (forall p | p in nodes :: !IsConstant(nodes[p]))
      && (forall p | p in leaves :: !IsConstant(leaves[p]))
      // every WeakMap and WeakSet stands at one path only
      && (forall p, q | p in nodes && q in nodes && p != q :: nodes[p] != nodes[q])
      && (forall p, q | p in leaves && q in leaves && p != q :: leaves[p] != leaves[q])
      && (forall p, q | p in nodes && q in leaves :: nodes[p] != leaves[q])
    }

    /** The object a key reference stands for in the current tree. */
    ghost function KeyValue(k: KeyRef): Value
      reads this
    {
      match k
      case ZeroArgs => Obj(undefinedState)
      case SoleArg(v) => v
      case NodeKey(p) => if p in nodes then Obj(nodes[p]) else Undefined
      case LeafKey(p) => if p in leaves then Obj(leaves[p]) else Undefined
      case NoLeaf => Undefined
    }

    ghost function Concrete(r: Completion<KeyRef>): Completion<Value>
      reads this
    {
      match r
      case Normal(k) => Normal(KeyValue(k))
      case Throw(e) => Throw(e)
    }

    /** Every WeakMap and WeakSet of an earlier tree is still where it was. */
    ghost predicate Extends(oldNodes: map<seq<Value>, JsObject>, oldLeaves: map<seq<Value>, JsObject>)
      reads this
    {
      && (forall p | p in oldNodes :: p in nodes && nodes[p] == oldNodes[p])
      && (forall p | p in oldLeaves :: p in leaves && leaves[p] == oldLeaves[p])
    }

    /** `createKeyMap()` */
    constructor ()
      ensures Valid() && Abstract() == EmptyTrie
      ensures nodes == map[[] := keyCache] && leaves == map[]
      ensures fresh(keyCache) && fresh(keyMarker)
      ensures fresh(undefinedState) && fresh(undefinedProps) && fresh(undefinedArgs)
    {
      keyCache := new JsObject();
      keyMarker := new JsObject();
      undefinedState := new JsObject();
      undefinedProps := new JsObject();
      undefinedArgs := new JsObject();
      nodes := map[[] := keyCache];
      leaves := map[];
    }

    /** `map.set(arg, new WeakMap())` in the WeakMap at the parent of
        `path`, with `arg` its last element; when `path` is the whole call,
        also `nestedMap.set(keyMarker, new WeakSet(args))` in the new
        WeakMap. */
    method AddNode(path: seq<Value>, marked: bool)
      requires Valid() && path != [] && Parent(path) in nodes && path !in nodes
      modifies this
      ensures Valid()
      ensures Abstract() == Trie(old(Abstract()).paths + {path},
        if marked then old(Abstract()).marked + {path} else old(Abstract()).marked)
      ensures path in nodes && fresh(nodes[path]) && nodes == old(nodes)[path := nodes[path]]
      ensures marked ==> path in leaves && fresh(leaves[path]) && leaves == old(leaves)[path := leaves[path]]
      ensures !marked ==> leaves == old(leaves)
    {
      var nested := new JsObject();
      nodes := nodes[path := nested];
      if marked {
        var weakSet := new JsObject();
        leaves := leaves[path := weakSet];
      }
    }

    /** `getKey(args)`: the object the memo cache files this call under.
        The tree grows as `Step` says; objects made by earlier calls stay
        where they were, and the new ones are fresh. */
    method GetKey(args: seq<Value>) returns (key: Completion<Value>)
      requires Valid()
      modifies this
      ensures Valid()
      ensures Extends(old(nodes), old(leaves))
      ensures forall p | p in nodes && p !in old(nodes) :: fresh(nodes[p])
      ensures forall p | p in leaves && p !in old(leaves) :: fresh(leaves[p])
      ensures var r := Step(old(Abstract()), OwnSentinels(), args);
        Abstract() == r.0 && key == Concrete(r.1)
    {
      if |args| == 0 {
        return Normal(Obj(undefinedState));
      }
      var lastIndex := |args| - 1;
      if lastIndex == 0 {
        return Normal(args[0]);
      }
      var cleaned := GetMarker(Obj(undefinedState), Obj(undefinedProps), Obj(undefinedArgs), args);
      GetMarkerElements(Obj(undefinedState), Obj(undefinedProps), Obj(undefinedArgs), args);
      key := Descend(cleaned, lastIndex);
    }

    /** One step of the reduce: the WeakMap for `cleaned[i]` under the
        current one, created when missing; `map.set` refuses an argument
        that is not an object, and then nothing changes. */
    method Visit(cleaned: seq<Value>, i: nat, lastIndex: nat) returns (present: bool)
      requires Valid() && i < |cleaned| && i <= lastIndex && cleaned[..i] in nodes
      modifies this
      ensures Valid()
      ensures Extends(old(nodes), old(leaves))
      ensures forall p | p in nodes && p !in old(nodes) :: fresh(nodes[p])
      ensures forall p | p in leaves && p !in old(leaves) :: fresh(leaves[p])
      ensures present <==> cleaned[..i + 1] in nodes
      ensures present ==> Walk(Abstract(), cleaned, i, lastIndex) == Walk(old(Abstract()), cleaned, i, lastIndex)
      ensures !present ==>
        && nodes == old(nodes) && leaves == old(leaves)
        && Walk(old(Abstract()), cleaned, i, lastIndex) == (Abstract(), Throw(InvalidWeakMapKey))
    {
      var arg := cleaned[i];
      var path := cleaned[..i + 1];
      ghost var before := Abstract();
      if path !in nodes {
        // map.set(arg, new WeakMap()) throws for a key that is not an object
        if !CanBeHeldWeakly(arg) {
          return false;
        }
        assert Parent(path) == cleaned[..i];
        AddNode(path, i == lastIndex);
        WalkAdds(before, cleaned, i, lastIndex);
      }
      return true;
    }

    /** The reduce of `getKey` over the cleaned arguments: descend one
        WeakMap per argument, creating those that are missing, and stop
        with the WeakSet under `keyMarker` at position `lastIndex`. */
    method Descend(cleaned: seq<Value>, lastIndex: nat) returns (key: Completion<Value>)
      requires Valid() && 0 < lastIndex && |cleaned| <= lastIndex + 1
      modifies this
      ensures Valid()
      ensures Extends(old(nodes), old(leaves))
      ensures forall p | p in nodes && p !in old(nodes) :: fresh(nodes[p])
      ensures forall p | p in leaves && p !in old(leaves) :: fresh(leaves[p])
      ensures var r := Walk(old(Abstract()), cleaned, 0, lastIndex);
        Abstract() == r.0 && key == Concrete(r.1)
    {
      var node := keyCache;
      var i := 0;
      assert cleaned[..0] == [];
      while i < |cleaned|
        invariant Valid()
        invariant i <= |cleaned| && i <= lastIndex
        invariant cleaned[..i] in nodes && node == nodes[cleaned[..i]]
        invariant Walk(Abstract(), cleaned, i, lastIndex) == Walk(old(Abstract()), cleaned, 0, lastIndex)
        invariant Extends(old(nodes), old(leaves))
        invariant forall p | p in nodes && p !in old(nodes) :: fresh(nodes[p])
        invariant forall p | p in leaves && p !in old(leaves) :: fresh(leaves[p])
        decreases |cleaned| - i
      {
        var present := Visit(cleaned, i, lastIndex);
        if !present {
          return Throw(InvalidWeakMapKey);
        }
        var path := cleaned[..i + 1];
        WalkPresentStep(Abstract(), cleaned, i, lastIndex);
        if i == lastIndex {
          assert path == cleaned;
          return Normal(if path in leaves then Obj(leaves[path]) else Undefined);
        }
        node := nodes[path];
        i := i + 1;
      }
      assert cleaned[..i] == cleaned;
      return Normal(Obj(node));
    }

    lemma ValidWellFormed()
      requires Valid()
      ensures WellFormed(Abstract())
    {
    }

    /** Keys of distinct kinds or at distinct paths are distinct objects,
        and no argument a caller passes is a key made here: so `(a)`, keyed
        by `a` itself, and `(a, undefined)`, keyed by the WeakMap at `[a]`,
        never share a cache entry. */
    lemma KeysDistinct(k1: KeyRef, k2: KeyRef)
      requires Valid() && k1 != k2
      requires k1.NodeKey? || k1.LeafKey? || (k1.SoleArg? && !Private(k1.arg))
      requires k2.NodeKey? || k2.LeafKey?
      requires k1.NodeKey? ==> k1.path in nodes
      requires k1.LeafKey? ==> k1.path in leaves
      requires k2.NodeKey? ==> k2.path in nodes
      requires k2.LeafKey? ==> k2.path in leaves
      ensures KeyValue(k1) != KeyValue(k2)
    {
    }
  }

  /** Cleaning keeps defined objects in the first slots, so a call whose
      first two arguments are objects keeps both. */
  lemma {:induction false} CleanKeepsObjects(s: Sentinels, args: seq<Value>)
    requires |args| >= 2 && args[0].Obj? && args[1].Obj?
    ensures |Clean(s, args)| >= 2 && Clean(s, args)[..2] == args[..2]
  {
    GetMarkerElements(Obj(s.undefinedState), Obj(s.undefinedProps), Obj(s.undefinedArgs), args);
    GetMarkerNormalizes(Obj(s.undefinedState), Obj(s.undefinedProps), Obj(s.undefinedArgs), args);
  }

  /** The quirk of a shorter call after a longer one: `(a, b, c)` makes the
      WeakMap at `[a, b]` without a marker, so `(a, b)` afterwards gets the
      key `undefined`. */
  lemma ShorterAfterLongerHasNoLeaf(s: Sentinels, a: JsObject, b: JsObject, c: JsObject)
    ensures var t := Step(EmptyTrie, s, [Obj(a), Obj(b), Obj(c)]).0;
      Step(t, s, [Obj(a), Obj(b)]) == (t, Normal(NoLeaf))
  {
    var long, short := [Obj(a), Obj(b), Obj(c)], [Obj(a), Obj(b)];
    assert Clean(s, long) == long;
    assert Clean(s, short) == short;
    assert long[..1] == [Obj(a)] && long[..2] == short && long[..3] == long;
    var t1 := Trie({[], [Obj(a)]}, {});
    var t2 := Trie({[], [Obj(a)], short}, {});
    var t3 := Trie({[], [Obj(a)], short, long}, {long});
    WalkAdds(EmptyTrie, long, 0, 2);
    assert Trie(EmptyTrie.paths + {long[..1]}, EmptyTrie.marked) == t1;
    WalkPresentStep(t1, long, 0, 2);
    WalkAdds(t1, long, 1, 2);
    assert Trie(t1.paths + {long[..2]}, t1.marked) == t2;
    WalkPresentStep(t2, long, 1, 2);
    WalkAdds(t2, long, 2, 2);
    assert Trie(t2.paths + {long[..3]}, t2.marked + {long[..3]}) == t3;
    WalkPresentStep(t3, long, 2, 2);
    assert short[..1] == [Obj(a)] && short[..2] == short;
    WalkPresentStep(t3, short, 0, 1);
    WalkPresentStep(t3, short, 1, 1);

  }

  /** The quirk of trailing undefined arguments: `(a, b, undefined)` cleans
      to `[a, b]` but its `lastIndex` is 2, so its key is the WeakMap at
      `[a, b]` rather than a leaf. */
  lemma TrailingUndefinedGivesNode(t: Trie, s: Sentinels, a: JsObject, b: JsObject)
    requires WellFormed(t)
    ensures Step(t, s, [Obj(a), Obj(b), Undefined]).1 == Normal(NodeKey([Obj(a), Obj(b)]))
  {
    var args := [Obj(a), Obj(b), Undefined];
    assert Clean(s, args) == [Obj(a), Obj(b)];
    WalkNoThrow(t, Clean(s, args), 0, 2);
    StepKeys(t, s, args);
  }

  // ---------------------------------------------------------------------
  // memoizeSelector: one cached value per key
  // ---------------------------------------------------------------------

  /** How a memoised call ends, given the key `getKey` handed out and what
      the selector returns for the call. A key that throws ends the call.
      The selector runs exactly when the cache lacks the key; a hit returns
      the stored value and changes nothing. After the selector ran, its
      throw ends the call, a key that is not an object makes the `set`
      throw, and otherwise its value is stored under the key. */
  ghost predicate CallOutcome<R>(oldCache: map<JsObject, R>, cache: map<JsObject, R>, key: Completion<Value>,
                                 v: Completion<R>, r: Completion<R>, invoked: bool)
  {
    && (key.Throw? ==> r == Throw(key.error) && !invoked && cache == oldCache)
    && (key.Normal? ==> var k := key.value;
          && (invoked <==> !(k.Obj? && k.ref in oldCache))
          && (!invoked ==> r == Normal(oldCache[k.ref]) && cache == oldCache)
          && (invoked ==>
                if v.Throw? then r == v && cache == oldCache
                else if !k.Obj? then r == Throw(InvalidWeakMapKey) && cache == oldCache
                else r == v && cache == oldCache[k.ref := v.value]))
  }

  /** A call that returns normally leaves its result in the cache under its
      key, which is an object. */
  lemma NormalIsCached<R>(oldCache: map<JsObject, R>, cache: map<JsObject, R>, key: Completion<Value>,
                          v: Completion<R>, r: Completion<R>, invoked: bool)
    requires CallOutcome(oldCache, cache, key, v, r, invoked) && r.Normal?
    ensures key.Normal? && key.value.Obj? && key.value.ref in cache && cache[key.value.ref] == r.value
  {
  }

  /** A call whose key is cached is a hit: it returns the cached value,
      without running the selector and without touching the cache. */
  lemma CachedIsHit<R>(oldCache: map<JsObject, R>, cache: map<JsObject, R>, key: Completion<Value>,
                       v: Completion<R>, r: Completion<R>, invoked: bool)
    requires CallOutcome(oldCache, cache, key, v, r, invoked)
    requires key.Normal? && key.value.Obj? && key.value.ref in oldCache
    ensures !invoked && r == Normal(oldCache[key.value.ref]) && cache == oldCache
  {
  }

  /** The function `memoizeSelector(selector)` returns: its `cache` WeakMap
      and its own key map. The selector computes a result of type `R` from
      the arguments and whatever state `E` it reads at call time (the heap
      of the objects it looks into), and may throw. */
  class MemoizedSelector<E, R> {
    const selector: (E, seq<Value>) -> Completion<R>
    const getKey: KeyMap
    /** The entries of the `cache` WeakMap; only objects can be keys. */
    var cache: map<JsObject, R>

    ghost predicate Valid()
      reads this, getKey
    {
      getKey.Valid()
    }

    /** Whether a caller may pass these arguments: none of them is one of
        the key map's private objects. */
    ghost predicate Admissible(args: seq<Value>)
      reads this, getKey
    {
      forall a | a in args :: !getKey.Private(a)
    }

    /** The key `getKey` hands out for `args` in the current tree, without
        changing it. */
    ghost function KeyOf(args: seq<Value>): Completion<Value>
      reads this, getKey
    {
      getKey.Concrete(Step(getKey.Abstract(), getKey.OwnSentinels(), args).1)
    }

    /** The value the cache holds for `args`: under the key `getKey` would
        hand out for them now, when that key is an object with an entry. */
    ghost function CachedFor(args: seq<Value>): Option<R>
      reads this, getKey
    {
      var k := KeyOf(args);
      if k.Normal? && k.value.Obj? && k.value.ref in cache then Some(cache[k.value.ref]) else None
    }

    /** `memoizeSelector(selector)` */
    constructor (selector: (E, seq<Value>) -> Completion<R>)
      ensures Valid() && fresh(getKey)
      ensures this.selector == selector && cache == map[]
      ensures getKey.Abstract() == EmptyTrie
      ensures getKey.nodes == map[[] := getKey.keyCache] && getKey.leaves == map[]
      ensures fresh(getKey.keyCache) && fresh(getKey.keyMarker)
      ensures fresh(getKey.undefinedState) && fresh(getKey.undefinedProps) && fresh(getKey.undefinedArgs)
    {
      this.selector := selector;
      getKey := new KeyMap();
      cache := map[];
    }

    /** Whether the `cache` WeakMap has `key`: never, for a key that is not
        an object. */
    predicate Cached(key: Value)
      reads this
    {
      key.Obj? && key.ref in cache
    }

    /** A call `(...args)`. The selector runs only when the key is missing
        from the cache; a hit returns the stored value, even `undefined`. A
        key that is not an object is missing, and storing under it throws
        after the selector ran. A selector that throws stores nothing. */
    method Call(env: E, args: seq<Value>) returns (r: Completion<R>, invoked: bool)
      requires Valid() && Admissible(args)
      modifies this, getKey
      ensures Valid()
      ensures getKey.Abstract() == Step(old(getKey.Abstract()), getKey.OwnSentinels(), args).0
      ensures getKey.Extends(old(getKey.nodes), old(getKey.leaves))
      ensures forall p | p in getKey.nodes && p !in old(getKey.nodes) :: fresh(getKey.nodes[p])
      ensures forall p | p in getKey.leaves && p !in old(getKey.leaves) :: fresh(getKey.leaves[p])
      ensures CallOutcome(old(cache), cache, getKey.Concrete(Step(old(getKey.Abstract()), getKey.OwnSentinels(), args).1),
                          selector(env, args), r, invoked)
      ensures r.Normal? ==> CachedFor(args) == Some(r.value)
      ensures old(CachedFor(args)).Some? ==>
        !invoked && r == Normal(old(CachedFor(args)).value) && cache == old(cache)
    {
      ghost var t0 := getKey.Abstract();
      ghost var oldKey := KeyOf(args);
      var key := getKey.GetKey(args);
      if key.Normal? {
        StepIdempotent(t0, getKey.OwnSentinels(), args);
        assert KeyOf(args) == key;
      }
      if oldKey.Normal? && oldKey.value.Obj? {
        assert key == oldKey;
      }
      if key.Throw? {
        return Throw(key.error), false;
      }
      if !Cached(key.value) {
        var value := selector(env, args);
        if value.Throw? {
          return value, true;
        }
        if !CanBeHeldWeakly(key.value) {
          return Throw(InvalidWeakMapKey), true;
        }
        cache := cache[key.value.ref := value.value];
        return value, true;
      }
      return Normal(cache[key.value.ref]), false;
    }
  }

  /** Calling twice with the same argument identities runs the selector at
      most once: the second call returns what the first returned, however
      the state it reads changed in between, so a mutated state object
      still hits. */
  method RepeatedCallHits<E, R>(m: MemoizedSelector<E, R>, e1: E, e2: E, args: seq<Value>)
    returns (r1: Completion<R>, r2: Completion<R>, invoked2: bool)
    requires m.Valid() && m.Admissible(args)
    modifies m, m.getKey
    ensures r1.Normal? ==> r2 == r1 && !invoked2
  {
    var invoked1;
    r1, invoked1 := m.Call(e1, args);
    r2, invoked2 := m.Call(e2, args);
  }

  /** A call whose state is a new object runs the selector: no key handed
      out before can be the new object or lead to it. */
  method NewStateMisses<E, R>(m: MemoizedSelector<E, R>, env: E, rest: seq<Value>)
    returns (r: Completion<R>, invoked: bool)
    requires m.Valid() && m.Admissible(rest)
    requires forall x | x in rest :: x.Obj?
    modifies m, m.getKey
    ensures invoked
  {
    var state := new JsObject();
    var args := [Obj(state)] + rest;
    ghost var t0 := m.getKey.Abstract();
    ghost var s := m.getKey.OwnSentinels();
    if |args| >= 2 {
      assert forall x | x in args :: x.Obj?;
      CleanKeepsObjects(s, args);
      m.getKey.ValidWellFormed();
      WalkNoThrow(t0, Clean(s, args), 0, |args| - 1);
      StepKeys(t0, s, args);
    }
    r, invoked := m.Call(env, args);
  }

  /** `createKeyMap` allocates every private object anew, so objects a
      caller already holds when it builds the memo are never among them:
      any arguments it has may be passed to the new memo. */
  method NewMemoAdmitsEarlierArgs<E, R>(selector: (E, seq<Value>) -> Completion<R>, args: seq<Value>)
    returns (m: MemoizedSelector<E, R>)
    ensures fresh(m) && m.Valid() && m.selector == selector && m.Admissible(args)
  {
    m := new MemoizedSelector(selector);
  }
}
