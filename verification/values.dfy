/** Python values as they travel through the change hook: dialect options,
    the fields of a change dictionary, and the discard flag.
 */
module Values {

  datatype Option<+T> = None | Some(value: T)

  /** The Python values the change hook handles. Floats are not modelled. */
  datatype Value =
    | Null
    | Bool(b: bool)
    | Int(i: int)
    | Str(s: string)
    | List(items: seq<Value>)
    | Tuple(items: seq<Value>)
    | Dict(entries: map<string, Value>)

  /** A change as a plugin yields it: a dictionary of keyword arguments for
      the master's addChange. */
  type Change = map<string, Value>

  /** The key a plugin sets to ask for a change to be dropped. */
  const DiscardKey: string := "_discard_change"

  /** Python truthiness of a value. */
  predicate Truthy(v: Value) {
    match v
    case Null => false
    case Bool(b) => b
    case Int(i) => i != 0
    case Str(s) => |s| > 0
    case List(xs) => |xs| > 0
    case Tuple(xs) => |xs| > 0
    case Dict(m) => |m| > 0
  }

  /** Python's `v == False`. A bool or an int equals False exactly when it
      is falsy; a value of any other type never does, falsy or not. */
  function EqualsFalse(v: Value): (r: bool)
    ensures (v.Bool? || v.Int?) ==> (r <==> !Truthy(v))
    ensures !(v.Bool? || v.Int?) ==> !r
  {
    v == Bool(false) || v == Int(0)
  }

  /** `change.get('_discard_change', False) != False`. A change without the
      key is kept; a bool or int flag discards exactly when it is truthy; a
      flag of any other type discards, even a falsy one such as None or "". */
  function Discarded(c: Change): (r: bool)
    ensures DiscardKey !in c ==> !r
    ensures DiscardKey in c && (c[DiscardKey].Bool? || c[DiscardKey].Int?) ==> (r <==> Truthy(c[DiscardKey]))
    ensures DiscardKey in c && !(c[DiscardKey].Bool? || c[DiscardKey].Int?) ==> r
  {
    DiscardKey in c && !EqualsFalse(c[DiscardKey])
  }
}
