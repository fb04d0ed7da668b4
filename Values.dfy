/** The dynamic JavaScript values the components inspect: instance
    records arrive from the data service as plain objects whose keys are
    only known at run time. An object is an ordered sequence of
    (key, value) pairs, in its property enumeration order; numbers are
    integers. */
module Values {
  import opened Text

  datatype Value =
    | Undefined
    | Null
    | Bool(b: bool)
    | Num(n: int)
    | Str(s: string)
    | Arr(items: seq<Value>)
    | Obj(props: seq<(string, Value)>)

  /** JavaScript truthiness (`!!v`). */
  predicate Truthy(v: Value) {
    match v
    case Undefined => false
    case Null => false
    case Bool(b) => b
    case Num(n) => n != 0
    case Str(s) => s != ""
    case Arr(_) => true
    case Obj(_) => true
  }

  /** `v && typeof v === "object"`: a non-null object or array. */
  predicate IsObjectLike(v: Value) {
    v.Arr? || v.Obj?
  }

  function PropsLookup(props: seq<(string, Value)>, key: string): (r: Value)
    ensures r != Undefined ==> exists i :: 0 <= i < |props| && props[i] == (key, r)
    ensures (forall i :: 0 <= i < |props| ==> props[i].0 != key) ==> r == Undefined
  {
    if props == [] then Undefined
    else if props[0].0 == key then props[0].1
    else PropsLookup(props[1..], key)
  }

  /** Named property access `v[key]`. Arrays and primitives have none of the
      named properties the components read, so they give `undefined`. */
  function Prop(v: Value, key: string): Value {
    if v.Obj? then PropsLookup(v.props, key) else Undefined
  }

  /** `Object.entries(v)` for an object or array (array entries are keyed by
      their decimal index). */
  function Entries(v: Value): (r: seq<(string, Value)>)
    ensures v.Obj? ==> r == v.props
    ensures v.Arr? ==> |r| == |v.items| &&
                       forall i :: 0 <= i < |r| ==> r[i] == (NatToString(i), v.items[i])
  {
    match v
    case Obj(props) => props
    case Arr(items) => seq(|items|, i requires 0 <= i < |items| => (NatToString(i), items[i]))
    case _ => []
  }

  function IntToString(n: int): string {
    if n < 0 then "-" + NatToString(-n) else NatToString(n)
  }

  /** How `Array.prototype.join` renders one element: null and undefined
      become the empty string. */
  function ElementString(v: Value): string
    decreases v, 2
  {
    if v.Null? || v.Undefined? then "" else ToJsString(v)
  }

  /** `String(v)`. */
  function ToJsString(v: Value): string
    decreases v, 1
  {
    match v
    case Undefined => "undefined"
    case Null => "null"
    case Bool(b) => if b then "true" else "false"
    case Num(n) => IntToString(n)
    case Str(s) => s
    case Arr(items) => Join(seq(|items|, i requires 0 <= i < |items| => ElementString(items[i])), ",")
    case Obj(_) => "[object Object]"
  }
}
