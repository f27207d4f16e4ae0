/** The JavaScript values the client code handles, with the truthiness test
    that `||`, `&&` and `?:` apply and the property access `obj[k]`. */
module JsValues {
  import opened Wrappers
  import opened Strings

  /** Numbers are integers here; objects are maps from property names to
      values (own properties only). */
  datatype Value =
    | Undefined
    | Null
    | Bool(b: bool)
    | Num(n: int)
    | Str(s: string)
    | Obj(props: map<string, Value>)

  /** ToBoolean: `undefined`, `null`, `false`, `0` and `""` are falsy,
      everything else is truthy. */
  predicate Truthy(v: Value) {
    match v
    case Undefined => false
    case Null => false
    case Bool(b) => b
    case Num(n) => n != 0
    case Str(s) => s != []
    case Obj(_) => true
  }

  /** `a || b` */
  function Or(a: Value, b: Value): Value {
    if Truthy(a) then a else b
  }

  /** `v[k]` for a value that is neither `null` nor `undefined` (where the
      source guards against those). An object yields its own property; a
      string yields the one-character string at a canonical index below its
      length, and its length for `"length"`; anything else is `undefined`. */
  function Get(v: Value, k: string): (r: Value)
    ensures v.Obj? ==> r == if k in v.props then v.props[k] else Undefined
    ensures v.Str? && k == "length" ==> r == Num(|v.s|)
    ensures v.Str? && k != "length" ==>
      (r != Undefined <==> ParseNat(k).Some? && ParseNat(k).value < |v.s|)
    ensures v.Str? && r != Undefined && k != "length" ==> r == Str([v.s[ParseNat(k).value]])
    ensures !v.Obj? && !v.Str? ==> r == Undefined
  {
    match v
    case Obj(m) => if k in m then m[k] else Undefined
    case Str(s) =>
      if k == "length" then Num(|s|)
      else (match ParseNat(k)
            case Some(i) => if i < |s| then Str([s[i]]) else Undefined
            case None => Undefined)
    case _ => Undefined
  }

  /** `v?.k`: `undefined` when `v` is `null` or `undefined`. */
  function OptGet(v: Value, k: string): (r: Value)
    ensures v.Undefined? || v.Null? ==> r == Undefined
    ensures !v.Undefined? && !v.Null? ==> r == Get(v, k)
  {
    if v.Undefined? || v.Null? then Undefined else Get(v, k)
  }

  /** `v.toString()` for a value other than `null` and `undefined`. */
  function ToString(v: Value): string
    requires !v.Undefined? && !v.Null?
  {
    match v
    case Bool(b) => if b then "true" else "false"
    case Num(n) => IntToString(n)
    case Str(s) => s
    case Obj(_) => "[object Object]"
  }

  /** A string index property of a string selects that character. */
  lemma StringIndex(s: string, i: nat)
    requires i < |s|
    ensures Get(Str(s), NatToString(i)) == Str([s[i]])
  {
    ParseNatToString(i);
    assert NatToString(i) != "length";
  }
}
