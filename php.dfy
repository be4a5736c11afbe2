/** PHP values and the two truthiness tests the adapter relies on: `empty()` and `isset()`. */
module Php {

  datatype Option<T> = None | Some(value: T)

  /** A thrown `Exception`; only its message is observable to callers. */
  datatype Exception = Exception(message: string)

  /** The outcome of a PHP call that either returns a value or throws. */
  datatype Result<T> = Ok(value: T) | Err(error: Exception)

  /**
   * The PHP values that reach the adapter: `null`, booleans, integers, strings,
   * arrays (by their elements) and objects (by an opaque handle).
   */
  datatype Value =
    | Null
    | Bool(b: bool)
    | Int(i: int)
    | Str(s: string)
    | Arr(items: seq<Value>)
    | Object(handle: nat)

  /** The properties of an object such as a `WP_Post`, by name. */
  type Fields = map<string, Value>

  /** PHP's `empty()`: null, false, 0, "", "0" and the empty array; never an object. */
  predicate IsEmpty(v: Value) {
    match v
    case Null => true
    case Bool(b) => !b
    case Int(i) => i == 0
    case Str(s) => s == "" || s == "0"
    case Arr(items) => items == []
    case Object(_) => false
  }

  /** PHP's boolean conversion, as in `if ($id)`: exactly the values that are not `empty()`. */
  predicate Truthy(v: Value) {
    !IsEmpty(v)
  }

  /** PHP's `isset($o->key)` / `isset($a['key'])`: present and not null. */
  predicate IsSet(fields: Fields, key: string) {
    key in fields && fields[key] != Null
  }

  /** `w` occurs somewhere inside `s`. */
  predicate Contains(s: string, w: string)
    decreases |s|
  {
    w <= s || (s != [] && Contains(s[1..], w))
  }

  lemma {:induction false} ContainsInfix(a: string, w: string, b: string)
    ensures Contains(a + w + b, w)
    decreases |a|
  {
    if a == [] {
      assert a + w + b == w + b;
    } else {
      assert (a + w + b)[1..] == a[1..] + w + b;
      ContainsInfix(a[1..], w, b);
    }
  }
}
