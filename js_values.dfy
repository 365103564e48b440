/** JavaScript values as the weather app's store and helpers see them.

    A missing argument or property (`undefined`) is `None`; a value that
    `JSON.parse` can produce is a `Json`. Numbers are exact reals: NaN and
    the infinities never come out of `JSON.parse`. */
module JsValues {

  datatype Option<+T> = None | Some(value: T)

  /** A value produced by `JSON.parse`. Objects keep their own fields only. */
  datatype Json =
    | JNull
    | JBool(b: bool)
    | JNum(n: real)
    | JStr(s: string)
    | JArr(items: seq<Json>)
    | JObj(fields: map<string, Json>)

  /** The property read `v.key` on a value that is not null (reading from
      null throws, so callers test for `JNull` first). Only objects have the
      own fields this app reads; on any other value the read is undefined. */
  function Prop(v: Json, key: string): (p: Option<Json>)
    requires v != JNull
    ensures p.Some? <==> v.JObj? && key in v.fields
    ensures p.Some? ==> p.value == v.fields[key]
  {
    if v.JObj? && key in v.fields then Some(v.fields[key]) else None
  }

  /** A property value that `===` compares by value: undefined or a primitive.
      Arrays and objects compare by reference. */
  predicate Primitive(p: Option<Json>) {
    p.None? || !(p.value.JArr? || p.value.JObj?)
  }

  /** `a === b` where `a` and `b` never share a reference: every array or
      object in play comes from its own `JSON.parse` or from the caller, so
      two of them are never the same reference. */
  predicate StrictEq(a: Option<Json>, b: Option<Json>) {
    Primitive(a) && Primitive(b) && a == b
  }

  /** `===` is symmetric, and reflexive exactly on primitives. */
  lemma StrictEqProperties(a: Option<Json>, b: Option<Json>)
    ensures StrictEq(a, b) <==> StrictEq(b, a)
    ensures StrictEq(a, a) <==> Primitive(a)
    ensures StrictEq(a, b) ==> a == b
  {
  }
}
