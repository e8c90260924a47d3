/** The slice of JavaScript's value model that the selector library depends on. */
module JsValues {

  /** A JavaScript object, compared by identity only. `{}`, `new WeakMap()`
      and `new WeakSet()` each allocate a fresh one; what such an object
      contains is kept by whoever owns it. */
  class JsObject {
    constructor () {}
  }

  /** A JavaScript value. Numbers are integers here (no NaN, no fractions),
      so `===` on two values is exactly equality of `Value`s. */
  datatype Value =
    | Undefined
    | Null
    | Bool(b: bool)
    | Num(n: int)
    | Str(s: string)
    | Obj(ref: JsObject)

  /** `v == null`: loose equality with null holds for null and undefined only. */
  predicate IsNullish(v: Value) {
    v == Undefined || v == Null
  }

  /** JavaScript's ToBoolean. */
  predicate IsTruthy(v: Value) {
    match v
    case Undefined => false
    case Null => false
    case Bool(b) => b
    case Num(n) => n != 0
    case Str(s) => s != ""
    case Obj(_) => true
  }

  /** Whether a value may be a key of a `WeakMap` or a member of a `WeakSet`:
      only objects can. */
  predicate CanBeHeldWeakly(v: Value) {
    v.Obj?
  }

  /** Property read `val[key]` in the current state of the heap. Which
      objects hold which properties is not modelled: a heap is this function,
      and mutating an object means calling later with a different one. */
  type Heap = (Value, Value) -> Value

  /** Why a JavaScript operation threw a `TypeError`. */
  datatype TypeError =
    | InvalidWeakMapKey   // WeakMap.prototype.set with a key that is not an object
    | NotAFunction        // calling a value that is not callable
    | NotIterable         // spreading `undefined` into a call

  /** How a JavaScript call ends: it returns a value or throws. */
  datatype Completion<+T> = Normal(value: T) | Throw(error: TypeError)

  /** Positional argument `i`; `undefined` when the call passed fewer. */
  function Slot(args: seq<Value>, i: nat): Value {
    if i < |args| then args[i] else Undefined
  }

  /** A value that may be absent. */
  datatype Option<T> = None | Some(value: T)

  /** Element-wise `===` of two argument lists of the same length: what
      the `shallowequal` package decides for two arrays. */
  predicate ShallowEqual(a: seq<Value>, b: seq<Value>) {
    |a| == |b| && forall i | 0 <= i < |a| :: a[i] == b[i]
  }

  /** Shallow equality of two argument arrays is identity of the argument
      lists: equal length and `===` at every index. */
  lemma ShallowEqualIsEquality(a: seq<Value>, b: seq<Value>)
    ensures ShallowEqual(a, b) <==> a == b
  {
    if ShallowEqual(a, b) {
      assert a == b;
    }
  }
}
