/** The name lists of the change set (src/index.mjs:48-51, :78-81): the
    configured names to create and the live names to delete. */
module ChangeLists {
  import opened Results
  import LegacySchema

  /** `keys.filter((k) => !(k in other))`: the names of `keys` that `other`
      lacks, in their order. */
  function Missing<V>(keys: seq<string>, other: map<string, V>): (r: seq<string>)
    ensures forall k :: k in r <==> k in keys && k !in other
  {
    if |keys| == 0 then []
    else (if keys[0] in other then [] else [keys[0]]) + Missing(keys[1..], other)
  }

  /** `keys.filter((k) => k in other)`: the names of `keys` that `other` has. */
  function Present<V>(keys: seq<string>, other: map<string, V>): (r: seq<string>)
    ensures forall k :: k in r <==> k in keys && k in other
  {
    if |keys| == 0 then []
    else (if keys[0] in other then [keys[0]] else []) + Present(keys[1..], other)
  }

  predicate Distinct(xs: seq<string>)
  {
    forall i, j :: 0 <= i < j < |xs| ==> xs[i] != xs[j]
  }

  /** Filtering distinct names leaves them distinct. */
  lemma {:induction false} MissingDistinct<V>(keys: seq<string>, other: map<string, V>)
    requires Distinct(keys)
    ensures Distinct(Missing(keys, other))
  {
    if |keys| > 0 {
      MissingDistinct(keys[1..], other);
      var rest := Missing(keys[1..], other);
      assert forall j :: 0 <= j < |keys[1..]| ==> keys[1..][j] == keys[j + 1];
      assert keys[0] !in keys[1..];
      assert keys[0] !in rest;
    }
  }

  /** Every name filtered out and every name kept: `Missing` and `Present`
      split `keys` between them. */
  lemma {:induction false} MissingPresentSplit<V>(keys: seq<string>, other: map<string, V>)
    ensures |Missing(keys, other)| + |Present(keys, other)| == |keys|
  {
    if |keys| > 0 {
      MissingPresentSplit(keys[1..], other);
    }
  }

  /** A live entry that may be deleted: its name and its uid or gid. */
  type Candidate = (string, int)

  /** `range[0] <= id && id <= range[1]`, both ends included. */
  predicate InRange(id: int, range: LegacySchema.Range)
  {
    range.lo <= id <= range.hi
  }

  /** `live.filter((n) => !(n in configured) && range[0] <= id(n) && id(n) <= range[1])`.
      The range is read only for names that are not configured, so an absent
      range throws exactly when such a name exists. */
  function Deletions<V>(live: seq<Candidate>, configured: map<string, V>, range: Option<LegacySchema.Range>)
    : (r: Result<seq<string>>)
    ensures r.Err? <==> range.None? && exists i :: 0 <= i < |live| && live[i].0 !in configured
    ensures r.Err? ==> r.error == TypeError(IndexOfUndefined)
    ensures r.Ok? && range.None? ==> r.value == []
    ensures r.Ok? && range.Some? ==> forall k :: k in r.value <==>
      exists i :: 0 <= i < |live| && live[i].0 == k && k !in configured && InRange(live[i].1, range.value)
  {
    if |live| == 0 then Ok([])
    else
      var (name, id) := live[0];
      var rest := Deletions(live[1..], configured, range);
      assert forall i :: 0 <= i < |live[1..]| ==> live[1..][i] == live[i + 1];
      if name in configured then rest
      else if range.None? then Err(TypeError(IndexOfUndefined))
      else if rest.Err? then rest
      else if InRange(id, range.value) then Ok([name] + rest.value)
      else rest
  }
}
