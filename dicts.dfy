/** A JavaScript plain object used as a dictionary from names to values, as
    the provisioner builds them with `Object.fromEntries` and with
    `reduce((out, x) => { out[key] = x; return out; }, {})`. Keys keep their
    first insertion position; a later write to the same key replaces only the
    value. */
module Dicts {

  datatype Dict<V> = Dict(keys: seq<string>, values: map<string, V>)

  /** The keys are distinct and are exactly the keys that have a value. */
  ghost predicate Valid<V>(d: Dict<V>)
  {
    && (forall i, j :: 0 <= i < j < |d.keys| ==> d.keys[i] != d.keys[j])
    && (forall k :: k in d.values <==> k in d.keys)
  }

  function Empty<V>(): (d: Dict<V>)
    ensures Valid(d) && d.keys == [] && d.values == map[]
  {
    Dict([], map[])
  }

  /** `out[k] = v`: a new key goes to the end, an existing key keeps its place. */
  function Put<V>(d: Dict<V>, k: string, v: V): (r: Dict<V>)
    requires Valid(d)
    ensures Valid(r)
    ensures r.values == d.values[k := v]
    ensures k in d.values ==> r.keys == d.keys
    ensures k !in d.values ==> r.keys == d.keys + [k]
  {
    if k in d.values then Dict(d.keys, d.values[k := v])
    else Dict(d.keys + [k], d.values[k := v])
  }

  /** `Object.fromEntries(entries)`, equivalently the `reduce` accumulation above. */
  function FromEntries<V>(entries: seq<(string, V)>): (d: Dict<V>)
    ensures Valid(d)
    ensures forall k :: k in d.values <==> exists i :: 0 <= i < |entries| && entries[i].0 == k
  {
    if |entries| == 0 then Empty()
    else
      var init := entries[..|entries| - 1];
      var d := FromEntries(init);
      assert forall i :: 0 <= i < |init| ==> init[i] == entries[i];
      Put(d, entries[|entries| - 1].0, entries[|entries| - 1].1)
  }

  /** Where several entries share a key, the last one's value is kept. */
  lemma {:induction false} FromEntriesLastWins<V>(entries: seq<(string, V)>, j: nat)
    requires j < |entries|
    requires forall i :: j < i < |entries| ==> entries[i].0 != entries[j].0
    ensures entries[j].0 in FromEntries(entries).values
    ensures FromEntries(entries).values[entries[j].0] == entries[j].1
  {
    if j < |entries| - 1 {
      var init := entries[..|entries| - 1];
      assert forall i :: 0 <= i < |init| ==> init[i] == entries[i];
      FromEntriesLastWins(init, j);
    }
  }

  /** Every value comes from an entry with its key. */
  lemma {:induction false} FromEntriesFrom<V>(entries: seq<(string, V)>, k: string)
    requires k in FromEntries(entries).values
    ensures exists i :: 0 <= i < |entries| && entries[i] == (k, FromEntries(entries).values[k])
  {
    var n := |entries| - 1;
    if entries[n].0 != k {
      FromEntriesFrom(entries[..n], k);
      var i :| 0 <= i < n && entries[..n][i] == (k, FromEntries(entries[..n]).values[k]);
      assert entries[i] == entries[..n][i];
    }
  }

  /** The key order depends only on the sequence of names. */
  lemma {:induction false} FromEntriesKeys<V, W>(entries: seq<(string, V)>, others: seq<(string, W)>)
    requires |entries| == |others|
    requires forall i :: 0 <= i < |entries| ==> entries[i].0 == others[i].0
    ensures FromEntries(entries).keys == FromEntries(others).keys
  {
    if |entries| > 0 {
      var n := |entries| - 1;
      var e, o := entries[..n], others[..n];
      FromEntriesKeys(e, o);
      forall k | k in FromEntries(e).values
        ensures k in FromEntries(o).values
      {
        var i :| 0 <= i < |e| && e[i].0 == k;
        assert o[i].0 == k;
      }
      forall k | k in FromEntries(o).values
        ensures k in FromEntries(e).values
      {
        var i :| 0 <= i < |o| && o[i].0 == k;
        assert e[i].0 == k;
      }
    }
  }

  /** The number of keys, `Object.keys(d).length`, is the number of distinct names. */
  lemma KeyCount<V>(d: Dict<V>)
    requires Valid(d)
    ensures |d.keys| == |d.values.Keys|
  {
    DistinctCardinality(d.keys);
    assert d.values.Keys == set k | k in d.keys;
  }

  lemma {:induction false} DistinctCardinality(s: seq<string>)
    requires forall i, j :: 0 <= i < j < |s| ==> s[i] != s[j]
    ensures |set k | k in s| == |s|
  {
    if |s| > 0 {
      var t := s[..|s| - 1];
      DistinctCardinality(t);
      assert (set k | k in s) == (set k | k in t) + {s[|s| - 1]};
      assert s[|s| - 1] !in t;
    }
  }

  /** `Object.values(d)`: the values in key order. */
  function Values<V>(d: Dict<V>): (vs: seq<V>)
    requires Valid(d)
    ensures |vs| == |d.keys|
    ensures forall i :: 0 <= i < |d.keys| ==> vs[i] == d.values[d.keys[i]]
  {
    seq(|d.keys|, i requires 0 <= i < |d.keys| => d.values[d.keys[i]])
  }
}
