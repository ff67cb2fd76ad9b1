/** The part of JSON Schema that the provisioner's configuration schemas use,
    with the meaning a validator compiled with `useDefaults` gives it: missing
    properties that declare a `default` are filled in first, and the filled-in
    document is then checked against the schema. */
module JsonSchema {
  import opened Results
  import opened JsObjects
  import Text

  /** `^[0-9]+(s1|...|sn)?$`: one or more decimal digits, then at most one of
      the listed suffixes. */
  datatype Pattern = DigitsWithSuffix(suffixes: seq<string>)

  /** A schema. Every object schema here is closed (`additionalProperties: false`). */
  datatype Schema =
    | StringType
    | PatternString(pattern: Pattern)
    | NumberType
    | BooleanType
    | Enum(options: seq<string>)
    | ArrayOf(items: Schema, uniqueItems: bool, minItems: nat, maxItems: Option<nat>)
    | Object(properties: seq<Property>, required: seq<string>)

  /** An entry of an object schema's `properties`, with its `default` if it has one. */
  datatype Property = Property(name: string, schema: Schema, default: Option<Value>)

  /** The declared property names, in order. */
  function PropertyNames(props: seq<Property>): seq<string>
  {
    seq(|props|, i requires 0 <= i < |props| => props[i].name)
  }

  predicate DistinctNames(props: seq<Property>)
  {
    forall i, j :: 0 <= i < j < |props| ==> props[i].name != props[j].name
  }

  /** The string matches the pattern. */
  predicate Matches(s: string, p: Pattern)
  {
    exists i :: 1 <= i <= |s| && Text.IsDigits(s[..i]) && (s[i..] == "" || s[i..] in p.suffixes)
  }

  /** `v` satisfies `s`. */
  predicate Validates(v: Value, s: Schema)
    decreases s
  {
    match s
    case StringType => v.Str?
    case PatternString(p) => v.Str? && Matches(v.s, p)
    case NumberType => v.Num?
    case BooleanType => v.Bool?
    case Enum(options) => v.Str? && v.s in options
    case ArrayOf(items, unique, minItems, maxItems) =>
      && v.Arr?
      && (forall i :: 0 <= i < |v.items| ==> Validates(v.items[i], items))
      && (unique ==> forall i, j :: 0 <= i < j < |v.items| ==> v.items[i] != v.items[j])
      && minItems <= |v.items|
      && (maxItems.Some? ==> |v.items| <= maxItems.value)
    case Object(props, required) =>
      && v.Obj?
      && (forall n :: n in Names(v.props) ==> n in PropertyNames(props))
      && (forall r :: r in required ==> r in Names(v.props))
      && (forall i :: 0 <= i < |props| && props[i].name in Names(v.props) ==>
            Validates(Lookup(v.props, props[i].name), props[i].schema))
  }

  /** The document after default filling: inside an object, every present
      property gets its own defaults filled in, and every absent property that
      has a default is appended, in schema order, with that default (itself
      filled in). Values of the wrong shape are left as they are. */
  function ApplyDefaults(v: Value, s: Schema): Value
    decreases s
  {
    match s
    case ArrayOf(items, _, _, _) =>
      if v.Arr? then Arr(seq(|v.items|, i requires 0 <= i < |v.items| => ApplyDefaults(v.items[i], items)))
      else v
    case Object(props, _) =>
      if v.Obj? then Obj(DefaultsInside(v.props, props) + MissingDefaults(v.props, props))
      else v
    case _ => v
  }

  function DefaultsInside(vprops: seq<Prop>, props: seq<Property>): (r: seq<Prop>)
    decreases props, 1
    ensures |r| == |vprops|
  {
    seq(|vprops|, j requires 0 <= j < |vprops| =>
      Prop(vprops[j].name, DefaultProp(vprops[j].name, vprops[j].value, props)))
  }

  /** The value `x` of property `n` with the defaults of `n`'s schema filled in. */
  function DefaultProp(n: string, x: Value, props: seq<Property>): Value
    decreases props, 0
  {
    if |props| == 0 then x
    else if props[0].name == n then ApplyDefaults(x, props[0].schema)
    else DefaultProp(n, x, props[1..])
  }

  function MissingDefaults(vprops: seq<Prop>, props: seq<Property>): seq<Prop>
    decreases props
  {
    if |props| == 0 then []
    else
      var p := props[0];
      var head := if p.default.Some? && p.name !in Names(vprops)
                  then [Prop(p.name, ApplyDefaults(p.default.value, p.schema))]
                  else [];
      head + MissingDefaults(vprops, props[1..])
  }

  /** What a validator compiled with `useDefaults` answers for `doc`. */
  predicate Accepts(doc: Value, s: Schema)
  {
    Validates(ApplyDefaults(doc, s), s)
  }

  /** The value of an object's property (`undefined` when absent or not an object). */
  function Field(v: Value, name: string): (r: Value)
    ensures !v.Obj? ==> r == Undefined
  {
    if v.Obj? then Lookup(v.props, name) else Undefined
  }

  /* ---------------------------------------------------------------------- */
  /* reading properties after default filling                               */
  /* ---------------------------------------------------------------------- */

  lemma NamesAppend(a: seq<Prop>, b: seq<Prop>)
    ensures Names(a + b) == Names(a) + Names(b)
  {
  }

  lemma {:induction false} LookupAppend(a: seq<Prop>, b: seq<Prop>, n: string)
    ensures Names(a + b) == Names(a) + Names(b)
    ensures Lookup(a + b, n) == if n in Names(a) then Lookup(a, n) else Lookup(b, n)
  {
    NamesAppend(a, b);
    if |a| > 0 {
      assert (a + b)[1..] == a[1..] + b;
      assert n in Names(a) <==> a[0].name == n || n in Names(a[1..]) by {
        NamesAppend([a[0]], a[1..]);
        assert a == [a[0]] + a[1..];
      }
      LookupAppend(a[1..], b, n);
    } else {
      assert a + b == b;
    }
  }

  lemma {:induction false} LookupInside(vprops: seq<Prop>, props: seq<Property>, n: string)
    ensures Names(DefaultsInside(vprops, props)) == Names(vprops)
    ensures Lookup(DefaultsInside(vprops, props), n) ==
            if n in Names(vprops) then DefaultProp(n, Lookup(vprops, n), props) else Undefined
  {
    if |vprops| > 0 {
      assert DefaultsInside(vprops, props)[1..] == DefaultsInside(vprops[1..], props);
      assert Names(vprops) == [vprops[0].name] + Names(vprops[1..]);
      LookupInside(vprops[1..], props, n);
    }
  }

  lemma {:induction false} DefaultPropAt(n: string, x: Value, props: seq<Property>, i: nat)
    requires DistinctNames(props) && i < |props| && props[i].name == n
    ensures DefaultProp(n, x, props) == ApplyDefaults(x, props[i].schema)
  {
    if i > 0 {
      DefaultPropAt(n, x, props[1..], i - 1);
    }
  }

  lemma {:induction false} MissingAt(vprops: seq<Prop>, props: seq<Property>, i: nat)
    requires DistinctNames(props) && i < |props| && props[i].name !in Names(vprops)
    ensures props[i].default.Some? ==>
              props[i].name in Names(MissingDefaults(vprops, props)) &&
              Lookup(MissingDefaults(vprops, props), props[i].name) ==
                ApplyDefaults(props[i].default.value, props[i].schema)
    ensures props[i].default.None? ==> props[i].name !in Names(MissingDefaults(vprops, props))
  {
    var p := props[0];
    var head := if p.default.Some? && p.name !in Names(vprops)
                then [Prop(p.name, ApplyDefaults(p.default.value, p.schema))]
                else [];
    assert MissingDefaults(vprops, props) == head + MissingDefaults(vprops, props[1..]);
    LookupAppend(head, MissingDefaults(vprops, props[1..]), props[i].name);
    if i > 0 {
      MissingAt(vprops, props[1..], i - 1);
    } else {
      MissingAbsent(vprops, props[1..], props[0].name);
    }
  }

  lemma {:induction false} MissingAbsent(vprops: seq<Prop>, props: seq<Property>, n: string)
    requires n !in PropertyNames(props)
    ensures n !in Names(MissingDefaults(vprops, props))
  {
    if |props| > 0 {
      var p := props[0];
      var head := if p.default.Some? && p.name !in Names(vprops)
                  then [Prop(p.name, ApplyDefaults(p.default.value, p.schema))]
                  else [];
      assert PropertyNames(props) == [p.name] + PropertyNames(props[1..]);
      MissingAbsent(vprops, props[1..], n);
      LookupAppend(head, MissingDefaults(vprops, props[1..]), n);
    }
  }

  /** After default filling, property `i` of an object schema holds the given
      value with its defaults filled in, or else its default, or else nothing. */
  lemma DefaultedField(v: Value, props: seq<Property>, required: seq<string>, i: nat)
    requires v.Obj? && DistinctNames(props) && i < |props|
    ensures ApplyDefaults(v, Object(props, required)).Obj?
    ensures props[i].name in Names(ApplyDefaults(v, Object(props, required)).props) <==>
            props[i].name in Names(v.props) || props[i].default.Some?
    ensures Field(ApplyDefaults(v, Object(props, required)), props[i].name) ==
            if props[i].name in Names(v.props) then ApplyDefaults(Lookup(v.props, props[i].name), props[i].schema)
            else if props[i].default.Some? then ApplyDefaults(props[i].default.value, props[i].schema)
            else Undefined
  {
    var n := props[i].name;
    LookupInside(v.props, props, n);
    LookupAppend(DefaultsInside(v.props, props), MissingDefaults(v.props, props), n);
    if n in Names(v.props) {
      DefaultPropAt(n, Lookup(v.props, n), props, i);
    } else {
      MissingAt(v.props, props, i);
    }
  }

  /** Default filling adds properties but never drops one. */
  lemma DefaultedNames(v: Value, props: seq<Property>, required: seq<string>, n: string)
    requires v.Obj?
    ensures ApplyDefaults(v, Object(props, required)).Obj?
    ensures n in Names(v.props) ==> n in Names(ApplyDefaults(v, Object(props, required)).props)
  {
    LookupInside(v.props, props, n);
    LookupAppend(DefaultsInside(v.props, props), MissingDefaults(v.props, props), n);
  }

  /* ---------------------------------------------------------------------- */
  /* reading a validated object                                              */
  /* ---------------------------------------------------------------------- */

  /** A valid object's declared property satisfies its schema when present,
      and a required one is present. */
  lemma FieldValidates(v: Value, s: Schema, i: nat)
    requires s.Object? && Validates(v, s) && i < |s.properties|
    ensures v.Obj?
    ensures s.properties[i].name in s.required ==> s.properties[i].name in Names(v.props)
    ensures s.properties[i].name in Names(v.props) ==>
              Validates(Field(v, s.properties[i].name), s.properties[i].schema)
  {
  }

  /** The strings of an array of strings. */
  function StringsOf(v: Value): (r: seq<string>)
    requires v.Arr? && forall i :: 0 <= i < |v.items| ==> v.items[i].Str?
    ensures StrArray(r) == v
  {
    var r := seq(|v.items|, i requires 0 <= i < |v.items| => v.items[i].s);
    assert StrArray(r).items == v.items;
    r
  }

  /** Schemas without object parts have no defaults to fill in. */
  predicate Flat(s: Schema)
  {
    !s.ArrayOf? && !s.Object?
  }

  lemma FlatDefaults(v: Value, s: Schema)
    requires Flat(s) || (s.ArrayOf? && Flat(s.items))
    ensures ApplyDefaults(v, s) == v
  {
    if s.ArrayOf? && v.Arr? {
      assert ApplyDefaults(v, s).items == v.items;
    }
  }

  /** Only an object can satisfy an object schema, before or after default filling. */
  lemma AcceptedObject(v: Value, s: Schema)
    requires s.Object? && Accepts(v, s)
    ensures v.Obj?
  {
  }

  /** Default filling of a property whose value and default need no filling of
      their own: a present value stays, an absent one takes the default. */
  lemma DefaultedSimple(v: Value, s: Schema, i: nat)
    requires s.Object? && v.Obj? && DistinctNames(s.properties) && i < |s.properties|
    requires Flat(s.properties[i].schema) || (s.properties[i].schema.ArrayOf? && Flat(s.properties[i].schema.items))
    requires s.properties[i].default.Some? ==>
               ApplyDefaults(s.properties[i].default.value, s.properties[i].schema) == s.properties[i].default.value
    ensures var p := s.properties[i];
      p.name in Names(ApplyDefaults(v, s).props) <==> p.name in Names(v.props) || p.default.Some?
    ensures var p := s.properties[i];
      Field(ApplyDefaults(v, s), p.name) ==
        if p.name in Names(v.props) then Field(v, p.name)
        else if p.default.Some? then p.default.value
        else Undefined
  {
    var p := s.properties[i];
    DefaultedField(v, s.properties, s.required, i);
    FlatDefaults(Field(v, p.name), p.schema);
  }

  /** An accepted object names only declared properties. */
  lemma AcceptedClosed(v: Value, s: Schema)
    requires s.Object? && Accepts(v, s)
    ensures v.Obj?
    ensures forall n :: n in Names(v.props) ==> n in PropertyNames(s.properties)
  {
    forall n | n in Names(v.props)
      ensures n in PropertyNames(s.properties)
    {
      DefaultedNames(v, s.properties, s.required, n);
    }
  }

  /** Each property of an accepted object is accepted by its own schema, and a
      required property without a default is present. */
  lemma AcceptedField(v: Value, s: Schema, i: nat)
    requires s.Object? && Accepts(v, s) && DistinctNames(s.properties) && i < |s.properties|
    ensures v.Obj?
    ensures s.properties[i].name in s.required && s.properties[i].default.None? ==>
              s.properties[i].name in Names(v.props)
    ensures s.properties[i].name in Names(v.props) ==>
              Accepts(Field(v, s.properties[i].name), s.properties[i].schema)
  {
    DefaultedField(v, s.properties, s.required, i);
    FieldValidates(ApplyDefaults(v, s), s, i);
  }

  /** An accepted array has the allowed length and accepted items. */
  lemma AcceptedArray(v: Value, s: Schema)
    requires s.ArrayOf? && Accepts(v, s)
    ensures v.Arr? && s.minItems <= |v.items|
    ensures s.maxItems.Some? ==> |v.items| <= s.maxItems.value
    ensures forall i :: 0 <= i < |v.items| ==> Accepts(v.items[i], s.items)
  {
    var d := ApplyDefaults(v, s);
    forall i | 0 <= i < |v.items|
      ensures Accepts(v.items[i], s.items)
    {
      assert d.items[i] == ApplyDefaults(v.items[i], s.items);
    }
  }

  /** A required property without a default and without object parts is
      present in an accepted object and satisfies its schema as given. */
  lemma AcceptedRequired(v: Value, s: Schema, i: nat)
    requires s.Object? && Accepts(v, s) && DistinctNames(s.properties) && i < |s.properties|
    requires Flat(s.properties[i].schema) || (s.properties[i].schema.ArrayOf? && Flat(s.properties[i].schema.items))
    requires s.properties[i].name in s.required && s.properties[i].default.None?
    ensures s.properties[i].name in Names(v.props)
    ensures Validates(Field(v, s.properties[i].name), s.properties[i].schema)
  {
    AcceptedField(v, s, i);
    FlatDefaults(Field(v, s.properties[i].name), s.properties[i].schema);
  }
}
