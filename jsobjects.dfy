/** The fragment of JavaScript's value model that `isPrimitive`, `deepEqual`
    and `diffProperties` exercise: primitives, arrays and plain objects, with
    `Object.keys`, the `in` operator, property access and `===`. */
module JsObjects {
  import opened Results
  import Text

  /** A JavaScript value. Numbers are whole numbers; an object lists its own
      enumerable properties in enumeration order. */
  datatype Value =
    | Undefined
    | Null
    | Bool(b: bool)
    | Num(n: int)
    | Str(s: string)
    | Arr(items: seq<Value>)
    | Obj(props: seq<Prop>)

  /** An own property of an object: its name and its value. */
  datatype Prop = Prop(name: string, value: Value)

  /** `isPrimitive(v)`: `v !== Object(v)`, true for everything but arrays and objects. */
  predicate IsPrimitive(v: Value)
  {
    !(v.Arr? || v.Obj?)
  }

  /** `a === b`. Two array or object operands are treated as separate
      allocations, so `===` is value equality on primitives and false otherwise. */
  predicate StrictEquals(a: Value, b: Value)
  {
    IsPrimitive(a) && a == b
  }

  function Names(props: seq<Prop>): (names: seq<string>)
    ensures |names| == |props|
    ensures forall i :: 0 <= i < |props| ==> names[i] == props[i].name
  {
    seq(|props|, i requires 0 <= i < |props| => props[i].name)
  }

  /** The value of the first property called `k`, if there is one. */
  function Lookup(props: seq<Prop>, k: string): (v: Value)
    ensures k !in Names(props) ==> v == Undefined
  {
    if |props| == 0 then Undefined
    else if props[0].name == k then props[0].value
    else
      assert Names(props[1..]) == Names(props)[1..];
      Lookup(props[1..], k)
  }

  /** `Object.keys(v)`; throws a TypeError for `undefined` and `null`. */
  function Keys(v: Value): (r: Result<seq<string>>)
    ensures r.Err? <==> v.Undefined? || v.Null?
    ensures r.Err? ==> r.error == TypeError(KeysOfNullish)
  {
    match v
    case Undefined => Err(TypeError(KeysOfNullish))
    case Null => Err(TypeError(KeysOfNullish))
    case Bool(_) => Ok([])
    case Num(_) => Ok([])
    case Str(s) => Ok(Text.IndexKeys(|s|))
    case Arr(items) => Ok(Text.IndexKeys(|items|))
    case Obj(props) => Ok(Names(props))
  }

  /** `k in v`: an own property of an array (its indices and `length`) or of
      an object; a TypeError when `v` is not an object. */
  function HasProperty(v: Value, k: string): (r: Result<bool>)
    ensures r.Err? <==> IsPrimitive(v)
  {
    match v
    case Arr(items) => Ok(k == "length" || Text.IsIndexKey(k, |items|))
    case Obj(props) => Ok(k in Names(props))
    case _ => Err(TypeError(InOnPrimitive))
  }

  /** `v[k]` on a value that is not `undefined` or `null`. */
  function Get(v: Value, k: string): Value
    requires !v.Undefined? && !v.Null?
  {
    match v
    case Str(s) =>
      if k == "length" then Num(|s|)
      else if Text.IsIndexKey(k, |s|) then Str([s[Text.DigitsValue(k)]])
      else Undefined
    case Arr(items) =>
      if k == "length" then Num(|items|)
      else if Text.IsIndexKey(k, |items|) then items[Text.DigitsValue(k)]
      else Undefined
    case Obj(props) => Lookup(props, k)
    case _ => Undefined
  }

  /** The first property called `k` supplies its value. */
  lemma {:induction false} LookupAt(props: seq<Prop>, k: string, i: nat)
    requires i < |props| && props[i].name == k
    requires forall j :: 0 <= j < i ==> props[j].name != k
    ensures Lookup(props, k) == props[i].value
  {
    if i > 0 {
      LookupAt(props[1..], k, i - 1);
    }
  }

  /** Reading index `i` through its key gives element `i`. */
  lemma GetIndex(items: seq<Value>, i: nat)
    requires i < |items|
    ensures Text.IsIndexKey(Text.Decimal(i), |items|)
    ensures Get(Arr(items), Text.Decimal(i)) == items[i]
  {
    assert Text.Decimal(i) != "length" by {
      assert Text.IsDigit(Text.Decimal(i)[0]);
    }
  }

  /** An array of strings, such as `Object.keys(...).sort()` produces. */
  function StrArray(xs: seq<string>): (v: Value)
    ensures v.Arr? && |v.items| == |xs|
    ensures forall i :: 0 <= i < |xs| ==> v.items[i] == Str(xs[i]) && IsPrimitive(v.items[i])
  {
    Arr(seq(|xs|, i requires 0 <= i < |xs| => Str(xs[i])))
  }

  lemma StrArrayInjective(xs: seq<string>, ys: seq<string>)
    ensures StrArray(xs) == StrArray(ys) <==> xs == ys
  {
    if StrArray(xs) == StrArray(ys) {
      forall i | 0 <= i < |xs|
        ensures xs[i] == ys[i]
      {
        assert StrArray(xs).items[i] == StrArray(ys).items[i];
      }
    }
  }

  /* A size measure for recursion through property access. */

  function Size(v: Value): nat
  {
    match v
    case Arr(items) => 2 + ItemsSize(items)
    case Obj(props) => 2 + PropsSize(props)
    case _ => 1
  }

  function ItemsSize(items: seq<Value>): nat
  {
    if |items| == 0 then 0 else Size(items[0]) + ItemsSize(items[1..])
  }

  function PropsSize(props: seq<Prop>): nat
  {
    if |props| == 0 then 0
    else Size(props[0].value) + PropsSize(props[1..])
  }

  lemma {:induction false} ItemSmaller(items: seq<Value>, i: nat)
    requires i < |items|
    ensures Size(items[i]) <= ItemsSize(items)
  {
    if i > 0 { ItemSmaller(items[1..], i - 1); }
  }

  lemma {:induction false} LookupSmaller(props: seq<Prop>, k: string)
    ensures Size(Lookup(props, k)) <= PropsSize(props) + 1
  {
    if |props| > 0 && props[0].name != k { LookupSmaller(props[1..], k); }
  }

  /** Whatever `v[k]` finds on an object is smaller than the object. */
  lemma GetSmaller(v: Value, k: string)
    requires v.Arr? || v.Obj?
    ensures Size(Get(v, k)) < Size(v)
  {
    match v
    case Arr(items) =>
      if k != "length" && Text.IsIndexKey(k, |items|) { ItemSmaller(items, Text.DigitsValue(k)); }
    case Obj(props) => LookupSmaller(props, k);
  }
}
