/** `deepEqual` and `diffProperties`, the structural comparison the whole
    change-set rests on (src/utils.mjs:154-195). Each has a functional
    definition, which the rest of the model uses, and a method that performs
    the source's loop and is proved to compute the same result. */
module Compare {
  import opened Results
  import opened JsObjects
  import Text

  /* ---------------------------------------------------------------------- */
  /* deepEqual                                                               */
  /* ---------------------------------------------------------------------- */

  /** `deepEqual(a, b)`: `===` first; two primitives compare with `===`;
      otherwise the key counts must agree and every key of `a`, in
      enumeration order, must be present in `b` with a deep-equal value.
      `Object.keys` of `undefined`/`null` and `in` on a primitive throw. */
  function DeepEqual(a: Value, b: Value): (r: Result<bool>)
    ensures IsPrimitive(a) && IsPrimitive(b) ==> r == Ok(a == b)
    ensures r.Err? ==> r.error.TypeError?
    decreases Size(b), 1, 0
  {
    if StrictEquals(a, b) then Ok(true)
    else if IsPrimitive(a) && IsPrimitive(b) then Ok(false)
    else
      var ka :- Keys(a);
      var kb :- Keys(b);
      if |ka| != |kb| then Ok(false)
      else EveryKeyDeepEqual(a, b, ka)
  }

  /** The `for (let key in a)` loop of `deepEqual` over the keys `ks`. */
  function EveryKeyDeepEqual(a: Value, b: Value, ks: seq<string>): (r: Result<bool>)
    requires !a.Undefined? && !a.Null?
    ensures r.Err? ==> r.error.TypeError?
    decreases Size(b), 0, |ks|
  {
    if |ks| == 0 then Ok(true)
    else
      var has :- HasProperty(b, ks[0]);
      if !has then Ok(false)
      else
        GetSmaller(b, ks[0]);
        var same :- DeepEqual(Get(a, ks[0]), Get(b, ks[0]));
        if !same then Ok(false) else EveryKeyDeepEqual(a, b, ks[1..])
  }

  /** The source's recursive procedure; it computes exactly `DeepEqual`. */
  method DeepEqualIter(a: Value, b: Value) returns (r: Result<bool>)
    ensures r == DeepEqual(a, b)
    decreases Size(b), 1
  {
    if StrictEquals(a, b) {
      return Ok(true);
    }
    if IsPrimitive(a) && IsPrimitive(b) {
      return Ok(false);
    }
    var ka :- Keys(a);
    var kb :- Keys(b);
    if |ka| != |kb| {
      return Ok(false);
    }
    r := EveryKeyIter(a, b, ka);
  }

  /** The early-returning `for (let key in a)` loop of `deepEqual`. */
  method EveryKeyIter(a: Value, b: Value, ks: seq<string>) returns (r: Result<bool>)
    requires !a.Undefined? && !a.Null?
    ensures r == EveryKeyDeepEqual(a, b, ks)
    decreases Size(b), 0
  {
    var i := 0;
    while i < |ks|
      invariant 0 <= i <= |ks|
      invariant EveryKeyDeepEqual(a, b, ks) == EveryKeyDeepEqual(a, b, ks[i..])
    {
      var key := ks[i];
      assert ks[i..][0] == key && ks[i..][1..] == ks[i + 1..];
      var has :- HasProperty(b, key);
      if !has {
        return Ok(false);
      }
      GetSmaller(b, key);
      var same :- DeepEqualIter(Get(a, key), Get(b, key));
      if !same {
        return Ok(false);
      }
      i := i + 1;
    }
    return Ok(true);
  }

  /** Every value is deep-equal to itself, so the `===` shortcut for an object
      compared with itself returns what the structural comparison would. */
  lemma {:induction false} DeepEqualReflexive(v: Value)
    ensures DeepEqual(v, v) == Ok(true)
    decreases Size(v), 1
  {
    if !IsPrimitive(v) {
      EveryOwnKeyReflexive(v, 0);
    }
  }

  lemma {:induction false} EveryOwnKeyReflexive(v: Value, i: nat)
    requires v.Arr? || v.Obj?
    requires i <= |Keys(v).value|
    ensures EveryKeyDeepEqual(v, v, Keys(v).value[i..]) == Ok(true)
    decreases Size(v), 0, |Keys(v).value| - i
  {
    var ks := Keys(v).value;
    if i < |ks| {
      var k := ks[i];
      assert ks[i..][0] == k && ks[i..][1..] == ks[i + 1..];
      assert HasProperty(v, k) == Ok(true) by {
        if v.Arr? {
          assert k == Text.Decimal(i);
        }
      }
      GetSmaller(v, k);
      DeepEqualReflexive(Get(v, k));
      EveryOwnKeyReflexive(v, i + 1);
    }
  }

  /** Arrays of primitives are deep-equal exactly when they have the same
      elements in the same order. */
  lemma PrimitiveArrays(xs: seq<Value>, ys: seq<Value>)
    requires forall i :: 0 <= i < |xs| ==> IsPrimitive(xs[i])
    requires forall i :: 0 <= i < |ys| ==> IsPrimitive(ys[i])
    ensures DeepEqual(Arr(xs), Arr(ys)) == Ok(xs == ys)
  {
    if |xs| == |ys| {
      PrimitiveArraysFrom(xs, ys, 0);
      assert xs[0..] == xs && ys[0..] == ys;
    }
  }

  lemma {:induction false} PrimitiveArraysFrom(xs: seq<Value>, ys: seq<Value>, i: nat)
    requires |xs| == |ys| && i <= |xs|
    requires forall j :: 0 <= j < |xs| ==> IsPrimitive(xs[j])
    requires forall j :: 0 <= j < |ys| ==> IsPrimitive(ys[j])
    ensures EveryKeyDeepEqual(Arr(xs), Arr(ys), Text.IndexKeys(|xs|)[i..]) == Ok(xs[i..] == ys[i..])
    decreases |xs| - i
  {
    if i < |xs| {
      PrimitiveArrayStep(xs, ys, i);
      PrimitiveArraysFrom(xs, ys, i + 1);
      SliceEquality(xs, ys, i);
    }
  }

  lemma SliceEquality(xs: seq<Value>, ys: seq<Value>, i: nat)
    requires |xs| == |ys| && i < |xs|
    ensures (xs[i..] == ys[i..]) == (xs[i] == ys[i] && xs[i + 1..] == ys[i + 1..])
  {
    assert xs[i..] == [xs[i]] + xs[i + 1..];
    assert ys[i..] == [ys[i]] + ys[i + 1..];
  }

  /** One step of the loop over the index keys of two arrays of primitives. */
  lemma PrimitiveArrayStep(xs: seq<Value>, ys: seq<Value>, i: nat)
    requires |xs| == |ys| && i < |xs|
    requires IsPrimitive(xs[i]) && IsPrimitive(ys[i])
    ensures EveryKeyDeepEqual(Arr(xs), Arr(ys), Text.IndexKeys(|xs|)[i..]) ==
      if xs[i] == ys[i] then EveryKeyDeepEqual(Arr(xs), Arr(ys), Text.IndexKeys(|xs|)[i + 1..]) else Ok(false)
  {
    var ks := Text.IndexKeys(|xs|);
    assert ks[i..][0] == Text.Decimal(i) && ks[i..][1..] == ks[i + 1..];
    GetIndex(xs, i);
    GetIndex(ys, i);
  }

  /** For two arrays or objects, `deepEqual` is true exactly when the key
      counts agree and every key of the first is a key of the second whose
      value is deep-equal. */
  lemma DeepEqualObjects(a: Value, b: Value)
    requires (a.Arr? || a.Obj?) && (b.Arr? || b.Obj?)
    ensures DeepEqual(a, b) == Ok(true) <==>
      && |Keys(a).value| == |Keys(b).value|
      && forall k :: k in Keys(a).value ==>
           HasProperty(b, k) == Ok(true) && DeepEqual(Get(a, k), Get(b, k)) == Ok(true)
  {
    if |Keys(a).value| == |Keys(b).value| {
      EveryKeyExact(a, b, Keys(a).value);
    }
  }

  lemma {:induction false} EveryKeyExact(a: Value, b: Value, ks: seq<string>)
    requires (a.Arr? || a.Obj?) && (b.Arr? || b.Obj?)
    ensures EveryKeyDeepEqual(a, b, ks) == Ok(true) <==>
      forall k :: k in ks ==> HasProperty(b, k) == Ok(true) && DeepEqual(Get(a, k), Get(b, k)) == Ok(true)
  {
    if |ks| > 0 {
      EveryKeyExact(a, b, ks[1..]);
      assert forall k :: k in ks <==> k == ks[0] || k in ks[1..] by {
        assert ks == [ks[0]] + ks[1..];
      }
    }
  }

  /** The comparisons the source's own tests make, and the cross-kind
      results that fall out of the same definition. */
  lemma DeepEqualCrossKind(n: int, xs: seq<Value>)
    ensures DeepEqual(Num(n), Obj([])) == Ok(true)
    ensures DeepEqual(Bool(true), Arr([])) == Ok(true)
    ensures DeepEqual(Undefined, Arr(xs)) == Err(TypeError(KeysOfNullish))
    ensures DeepEqual(Arr([Str("a")]), Str("a")) == Err(TypeError(InOnPrimitive))
  {
    assert Text.IndexKeys(1) == [Text.Decimal(0)];
    assert Text.IndexKeys(|"a"|) == [Text.Decimal(0)];
  }

  /* ---------------------------------------------------------------------- */
  /* diffProperties                                                          */
  /* ---------------------------------------------------------------------- */

  /** `diffProperties(a, b)`: the sorted key lists must be deep-equal (else
      "Object keys don't match"); the result holds the keys, in sorted order,
      whose values are not deep-equal. */
  function DiffProperties(a: Value, b: Value): (r: Result<set<string>>)
    ensures (a.Undefined? || a.Null? || ((b.Undefined? || b.Null?))) ==> r == Err(TypeError(KeysOfNullish))
  {
    var ka :- Keys(a);
    var kb :- Keys(b);
    var sa := Text.SortStrings(ka);
    var sb := Text.SortStrings(kb);
    var same :- DeepEqual(StrArray(sa), StrArray(sb));
    if !same then Err(KeysMismatch(sa, sb))
    else ChangedKeys(a, b, sa)
  }

  /** The loop of `diffProperties`: the keys among `ks` whose values differ;
      the first `deepEqual` that throws ends it. */
  function ChangedKeys(a: Value, b: Value, ks: seq<string>): (r: Result<set<string>>)
    requires !a.Undefined? && !a.Null? && !b.Undefined? && !b.Null?
    ensures r.Ok? ==> forall k :: k in r.value <==> k in ks && DeepEqual(Get(a, k), Get(b, k)) == Ok(false)
    ensures r.Err? <==> exists k :: k in ks && DeepEqual(Get(a, k), Get(b, k)).Err?
    ensures r.Err? ==> r.error.TypeError?
  {
    if |ks| == 0 then Ok({})
    else
      assert forall k :: k in ks <==> k == ks[0] || k in ks[1..] by {
        assert ks == [ks[0]] + ks[1..];
      }
      var same :- DeepEqual(Get(a, ks[0]), Get(b, ks[0]));
      var rest :- ChangedKeys(a, b, ks[1..]);
      Ok(if same then rest else {ks[0]} + rest)
  }

  /** `out` added to a successful result; a failure stays as it is. */
  function AddTo(out: set<string>, r: Result<set<string>>): Result<set<string>>
  {
    if r.Ok? then Ok(out + r.value) else r
  }

  lemma AddToEmpty(r: Result<set<string>>)
    ensures AddTo({}, r) == r
  {
    if r.Ok? {
      assert {} + r.value == r.value;
    }
  }

  /** The source's procedure; it computes exactly `DiffProperties`. */
  method DiffPropertiesIter(a: Value, b: Value) returns (r: Result<set<string>>)
    ensures r == DiffProperties(a, b)
  {
    var ka :- Keys(a);
    var kb :- Keys(b);
    var sa := Text.SortStrings(ka);
    var sb := Text.SortStrings(kb);
    var same :- DeepEqualIter(StrArray(sa), StrArray(sb));
    if !same {
      return Err(KeysMismatch(sa, sb));
    }
    r := ChangedKeysIter(a, b, sa);
  }

  /** The loop of `diffProperties`: add each key whose values are not
      deep-equal to the Set `out`. */
  method ChangedKeysIter(a: Value, b: Value, ks: seq<string>) returns (r: Result<set<string>>)
    requires !a.Undefined? && !a.Null? && !b.Undefined? && !b.Null?
    ensures r == ChangedKeys(a, b, ks)
  {
    var out: set<string> := {};
    var i := 0;
    AddToEmpty(ChangedKeys(a, b, ks));
    assert ks[0..] == ks;
    while i < |ks|
      invariant 0 <= i <= |ks|
      invariant ChangedKeys(a, b, ks) == AddTo(out, ChangedKeys(a, b, ks[i..]))
    {
      var k := ks[i];
      assert ks[i..][0] == k && ks[i..][1..] == ks[i + 1..];
      var e :- DeepEqualIter(Get(a, k), Get(b, k));
      var rest := ChangedKeys(a, b, ks[i + 1..]);
      if !e {
        if rest.Ok? {
          assert out + ({k} + rest.value) == (out + {k}) + rest.value;
        }
        out := out + {k};
      }
      i := i + 1;
    }
    assert ks[i..] == [];
    return Ok(out);
  }

  /** Two string arrays are deep-equal exactly when they are equal. */
  lemma StrArraysDeepEqual(xs: seq<string>, ys: seq<string>)
    ensures DeepEqual(StrArray(xs), StrArray(ys)) == Ok(xs == ys)
  {
    PrimitiveArrays(StrArray(xs).items, StrArray(ys).items);
    StrArrayInjective(xs, ys);
  }

  /** The key check fails exactly when the two key lists are not
      rearrangements of each other. */
  lemma DiffPropertiesKeysMismatch(a: Value, b: Value)
    requires Keys(a).Ok? && Keys(b).Ok?
    ensures DiffProperties(a, b).Err? && DiffProperties(a, b).error.KeysMismatch?
      <==> multiset(Keys(a).value) != multiset(Keys(b).value)
  {
    var sa := Text.SortStrings(Keys(a).value);
    var sb := Text.SortStrings(Keys(b).value);
    StrArraysDeepEqual(sa, sb);
    Text.SortStringsEqual(Keys(a).value, Keys(b).value);
    if sa == sb {
      assert DiffProperties(a, b) == ChangedKeys(a, b, sa);
    } else {
      assert DiffProperties(a, b) == Err(KeysMismatch(sa, sb));
    }
  }

  /** A successful diff is exactly the keys of `a` whose values are not
      deep-equal to `b`'s, so it is a subset of the keys. */
  lemma DiffPropertiesExact(a: Value, b: Value)
    requires DiffProperties(a, b).Ok?
    ensures Keys(a).Ok? && Keys(b).Ok?
    ensures forall k :: k in DiffProperties(a, b).value <==>
      k in Keys(a).value && DeepEqual(Get(a, k), Get(b, k)) == Ok(false)
  {
    var sa := Text.SortStrings(Keys(a).value);
    SortedMembers(Keys(a).value);
    assert DiffProperties(a, b) == ChangedKeys(a, b, sa);
  }

  /** Sorting keeps the members. */
  lemma SortedMembers(ks: seq<string>)
    ensures forall k :: k in Text.SortStrings(ks) <==> k in ks
  {
    var s := Text.SortStrings(ks);
    assert forall k :: k in s <==> k in multiset(s);
    assert forall k :: k in ks <==> k in multiset(ks);
  }

  /** Two values with the same key list, none of whose values throw when
      compared: the diff is exactly the keys whose values differ. */
  lemma DiffPropertiesSameKeys(a: Value, b: Value)
    requires Keys(a).Ok? && Keys(a) == Keys(b)
    requires forall k :: k in Keys(a).value ==> DeepEqual(Get(a, k), Get(b, k)).Ok?
    ensures DiffProperties(a, b).Ok?
    ensures forall k :: k in DiffProperties(a, b).value <==>
      k in Keys(a).value && DeepEqual(Get(a, k), Get(b, k)) == Ok(false)
  {
    var s := Text.SortStrings(Keys(a).value);
    StrArraysDeepEqual(s, s);
    SortedMembers(Keys(a).value);
    assert DiffProperties(a, b) == ChangedKeys(a, b, s);
  }

  /** The same, with the outcome of the comparison of the `i`-th key given as `same[i]`. */
  lemma DiffPropertiesBy(a: Value, b: Value, same: seq<bool>)
    requires Keys(a).Ok? && Keys(a) == Keys(b) && |same| == |Keys(a).value|
    requires forall i :: 0 <= i < |same| ==>
      DeepEqual(Get(a, Keys(a).value[i]), Get(b, Keys(a).value[i])) == Ok(same[i])
    ensures DiffProperties(a, b).Ok?
    ensures forall k :: k in DiffProperties(a, b).value ==> k in Keys(a).value
    ensures forall i :: 0 <= i < |same| ==> (Keys(a).value[i] in DiffProperties(a, b).value <==> !same[i])
  {
    var ks := Keys(a).value;
    forall k | k in ks
      ensures DeepEqual(Get(a, k), Get(b, k)).Ok?
    {
      var i :| 0 <= i < |ks| && ks[i] == k;
    }
    DiffPropertiesSameKeys(a, b);
  }

  /** The same, for a diff known in advance: `changed` holds exactly the keys
      whose values differ. */
  lemma DiffPropertiesIs(a: Value, b: Value, changed: set<string>)
    requires Keys(a).Ok? && Keys(a) == Keys(b)
    requires forall k :: k in Keys(a).value ==>
      DeepEqual(Get(a, k), Get(b, k)).Ok? && (DeepEqual(Get(a, k), Get(b, k)).value <==> k !in changed)
    requires forall k :: k in changed ==> k in Keys(a).value
    ensures DiffProperties(a, b) == Ok(changed)
  {
    DiffPropertiesSameKeys(a, b);
    var r := DiffProperties(a, b).value;
    assert forall k :: k in r <==> k in changed;
    assert r == changed;
  }

  /** Comparing a value with itself yields an empty diff. */
  lemma DiffPropertiesIdentical(v: Value)
    requires !v.Undefined? && !v.Null?
    ensures DiffProperties(v, v) == Ok({})
  {
    var s := Text.SortStrings(Keys(v).value);
    StrArraysDeepEqual(s, s);
    NoneChanged(v, s);
  }

  lemma {:induction false} NoneChanged(v: Value, ks: seq<string>)
    requires !v.Undefined? && !v.Null?
    ensures ChangedKeys(v, v, ks) == Ok({})
  {
    if |ks| > 0 {
      DeepEqualReflexive(Get(v, ks[0]));
      NoneChanged(v, ks[1..]);
    }
  }
}
