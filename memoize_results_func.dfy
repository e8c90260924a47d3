/** `src/memoizeResultsFunc.js`: a one-slot cache that reuses the last
    result when the arguments are element-wise `===` to the last ones. */
module MemoizeResultsFunc {
  import opened JsValues

  /** The function `memoizeResultsFunc(selector)` returns, with the closure
      variables `prevArgs` and `prevValue`. The selector reads the heap as
      it is at call time and may throw. */
  class MemoizedResultsFunc {
    const selector: (Heap, seq<Value>) -> Completion<Value>
    var prevArgs: Option<seq<Value>>
    var prevValue: Value

    /** `memoizeResultsFunc(selector)`: both variables start unset. */
    constructor (selector: (Heap, seq<Value>) -> Completion<Value>)
      ensures this.selector == selector
      ensures prevArgs == None && prevValue == Undefined
    {
      this.selector := selector;
      prevArgs := None;
      prevValue := Undefined;
    }

    /** A call `(...args)`: unless there are previous arguments shallowly
        equal to these, the selector runs; when it returns, the slot takes
        these arguments and its value, and when it throws, the throw reaches
        the caller and the slot is left as it was. A hit returns the stored
        value whatever the heap now holds. */
    method Call(heap: Heap, args: seq<Value>) returns (r: Completion<Value>, invoked: bool)
      modifies this
      ensures invoked <==> !(old(prevArgs).Some? && ShallowEqual(args, old(prevArgs).value))
      ensures !invoked ==> r == Normal(old(prevValue)) && prevArgs == old(prevArgs) && prevValue == old(prevValue)
      ensures invoked ==> r == selector(heap, args)
      ensures invoked && r.Normal? ==> prevArgs == Some(args) && prevValue == r.value
      ensures invoked && r.Throw? ==> prevArgs == old(prevArgs) && prevValue == old(prevValue)
    {
      var isEqual := prevArgs.Some? && ShallowEqual(args, prevArgs.value);
      if !isEqual {
        var value := selector(heap, args);
        if value.Throw? {
          return value, true;
        }
        prevArgs := Some(args);
        prevValue := value.value;
      }
      return Normal(prevValue), !isEqual;
    }
  }

  /** There is one slot only: on a fresh memo, calling with `a`, then `b`,
      then `a` again runs the selector every time. */
  method OneSlotOnly(m: MemoizedResultsFunc, heap: Heap, a: seq<Value>, b: seq<Value>)
    returns (invoked1: bool, invoked2: bool, invoked3: bool)
    requires m.prevArgs == None && a != b
    requires m.selector(heap, a).Normal? && m.selector(heap, b).Normal?
    modifies m
    ensures invoked1 && invoked2 && invoked3
  {
    var r1, r2, r3;
    r1, invoked1 := m.Call(heap, a);
    ShallowEqualIsEquality(b, a);
    r2, invoked2 := m.Call(heap, b);
    ShallowEqualIsEquality(a, b);
    r3, invoked3 := m.Call(heap, a);
  }

  /** The slot is keyed by argument identity alone: after a first call
      that returned, the same arguments in a changed heap get the stored
      value without running the selector, even when the selector would now
      give something else. */
  method StaleAfterMutation(m: MemoizedResultsFunc, heap1: Heap, heap2: Heap, args: seq<Value>)
    returns (r1: Completion<Value>, r2: Completion<Value>, invoked2: bool)
    requires m.prevArgs == None && m.selector(heap1, args).Normal?
    modifies m
    ensures r1 == m.selector(heap1, args)
    ensures !invoked2 && r2 == r1
  {
    var invoked1;
    r1, invoked1 := m.Call(heap1, args);
    ShallowEqualIsEquality(args, args);
    r2, invoked2 := m.Call(heap2, args);
  }

  /** A throw leaves the slot alone: after `a` returned, a call with `b`
      that throws does not replace it, so `a` again is a hit with the first
      value. */
  method ThrowKeepsSlot(m: MemoizedResultsFunc, heap: Heap, a: seq<Value>, b: seq<Value>)
    returns (r1: Completion<Value>, r2: Completion<Value>, r3: Completion<Value>, invoked3: bool)
    requires m.prevArgs == None && a != b
    requires m.selector(heap, a).Normal? && m.selector(heap, b).Throw?
    modifies m
    ensures r1 == m.selector(heap, a) && r2 == m.selector(heap, b)
    ensures !invoked3 && r3 == r1
  {
    var invoked1, invoked2;
    r1, invoked1 := m.Call(heap, a);
    ShallowEqualIsEquality(b, a);
    r2, invoked2 := m.Call(heap, b);
    ShallowEqualIsEquality(a, a);
    r3, invoked3 := m.Call(heap, a);
  }
}
