/**
  Caller-supplied metadata: an open `Dict[str, Any]` whose values are numbers,
  booleans, strings, lists of strings, lists of record ids or `None`.
 */
module Metadata {
  import opened Wrappers

  /** A record identifier (MongoDB's `_id`), opaque apart from equality. */
  type Id = nat

  datatype Value =
    | Num(r: real)
    | Flag(b: bool)
    | Text(s: string)
    | Texts(ss: seq<string>)
    | Ids(ids: seq<Id>)
    | Null

  type Meta = map<string, Value>

  /** `m.get(key, default)`. */
  function Get(m: Meta, key: string, default: Value): Value
  {
    if key in m then m[key] else default
  }

  /** Python truthiness of a metadata value. */
  predicate Truthy(v: Value)
  {
    match v
    case Num(r) => r != 0.0
    case Flag(b) => b
    case Text(s) => |s| > 0
    case Texts(ss) => |ss| > 0
    case Ids(ids) => |ids| > 0
    case Null => false
  }

  /** The number Python arithmetic sees (`True` is 1, `False` is 0); other values raise `TypeError`. */
  function AsNumber(v: Value): Option<real>
  {
    match v
    case Num(r) => Some(r)
    case Flag(b) => Some(if b then 1.0 else 0.0)
    case _ => None
  }

  /** `{**left, **right}`: the right mapping's entries win. */
  function Overlay(left: Meta, right: Meta): (m: Meta)
    ensures m.Keys == left.Keys + right.Keys
    ensures forall k :: k in right ==> m[k] == right[k]
    ensures forall k :: k in left && k !in right ==> m[k] == left[k]
  {
    left + right
  }
}
