/** Users and groups as the provisioner compares them, and their JavaScript
    object form, on which `diffProperties` runs (src/utils.mjs:66-152,
    src/index.mjs:52-85). */
module Records {
  import opened Results
  import opened JsObjects
  import Compare

  /** A user as both directories describe it. A live user's primary group is
      missing when no group has its gid, and its shell when the passwd line
      has fewer than seven fields. */
  datatype UserRecord = UserRecord(
    username: string,
    uid: int,
    primaryGroup: Option<string>,
    additionalGroups: seq<string>,
    shell: Option<string>)

  /** A group without its member list. */
  datatype GroupRecord = GroupRecord(groupname: string, gid: int)

  /** `undefined` or a string. */
  function OptStr(o: Option<string>): (v: Value)
    ensures IsPrimitive(v)
    ensures o.None? <==> v.Undefined?
    ensures o.Some? ==> v == Str(o.value)
  {
    if o.Some? then Str(o.value) else Undefined
  }

  lemma OptStrInjective(a: Option<string>, b: Option<string>)
    ensures OptStr(a) == OptStr(b) <==> a == b
  {
  }

  /** The object `{username, uid, primary_group, additional_groups, shell}`. */
  function UserValue(r: UserRecord): Value
  {
    Obj([ Prop("username", Str(r.username)),
          Prop("uid", Num(r.uid)),
          Prop("primary_group", OptStr(r.primaryGroup)),
          Prop("additional_groups", StrArray(r.additionalGroups)),
          Prop("shell", OptStr(r.shell)) ])
  }

  /** The object `{groupname, gid}`. */
  function GroupValue(g: GroupRecord): Value
  {
    Obj([Prop("groupname", Str(g.groupname)), Prop("gid", Num(g.gid))])
  }

  /** The five fields of a user object. */
  const UserFieldNames: seq<string> := ["username", "uid", "primary_group", "additional_groups", "shell"]

  /** The keys of a user object. */
  lemma UserKeys(a: UserRecord)
    ensures Keys(UserValue(a)) == Ok(UserFieldNames)
  {
    assert Names(UserValue(a).props) == UserFieldNames;
  }

  /** `diffProperties` of two user objects never throws and reports exactly
      the fields whose values differ, and nothing else; additional groups are
      compared as ordered lists. */
  lemma UserDiff(a: UserRecord, b: UserRecord)
    ensures Compare.DiffProperties(UserValue(a), UserValue(b)).Ok?
    ensures var diff := Compare.DiffProperties(UserValue(a), UserValue(b)).value;
      && (forall k :: k in diff ==> k in UserFieldNames)
      && ("username" in diff <==> a.username != b.username)
      && ("uid" in diff <==> a.uid != b.uid)
      && ("primary_group" in diff <==> a.primaryGroup != b.primaryGroup)
      && ("additional_groups" in diff <==> a.additionalGroups != b.additionalGroups)
      && ("shell" in diff <==> a.shell != b.shell)
  {
    UserKeys(a);
    UserKeys(b);
    UserComparisons(a, b);
    DiffOfFields(UserValue(a), UserValue(b), UserFieldNames, a, b);
  }

  /** The diff of two objects with the five keys `ks`, the user fields, given
      how the fields compare. */
  lemma DiffOfFields(va: Value, vb: Value, ks: seq<string>, a: UserRecord, b: UserRecord)
    requires Keys(va) == Keys(vb) == Ok(ks) && |ks| == 5
    requires ks[0] == "username" && ks[1] == "uid" && ks[2] == "primary_group"
    requires ks[3] == "additional_groups" && ks[4] == "shell"
    requires forall i :: 0 <= i < 5 ==>
      Compare.DeepEqual(Get(va, ks[i]), Get(vb, ks[i])) == Ok(SameFields(a, b)[i])
    ensures Compare.DiffProperties(va, vb).Ok?
    ensures var diff := Compare.DiffProperties(va, vb).value;
      && (forall k :: k in diff ==> k in ks)
      && ("username" in diff <==> a.username != b.username)
      && ("uid" in diff <==> a.uid != b.uid)
      && ("primary_group" in diff <==> a.primaryGroup != b.primaryGroup)
      && ("additional_groups" in diff <==> a.additionalGroups != b.additionalGroups)
      && ("shell" in diff <==> a.shell != b.shell)
  {
    Compare.DiffPropertiesBy(va, vb, SameFields(a, b));
    var diff := Compare.DiffProperties(va, vb).value;
    assert ("username" in diff <==> !SameFields(a, b)[0]) && ("uid" in diff <==> !SameFields(a, b)[1]);
    assert "primary_group" in diff <==> !SameFields(a, b)[2];
    assert "additional_groups" in diff <==> !SameFields(a, b)[3];
    assert "shell" in diff <==> !SameFields(a, b)[4];
  }

  /** Which of the five user fields agree, in the order of `UserFieldNames`. */
  function SameFields(a: UserRecord, b: UserRecord): (r: seq<bool>)
    ensures |r| == |UserFieldNames|
  {
    [a.username == b.username, a.uid == b.uid, a.primaryGroup == b.primaryGroup,
     a.additionalGroups == b.additionalGroups, a.shell == b.shell]
  }

  /** Each user field of `a` and `b` compares as `SameFields` says. */
  lemma UserComparisons(a: UserRecord, b: UserRecord)
    ensures forall i :: 0 <= i < 5 ==>
      Compare.DeepEqual(Get(UserValue(a), UserFieldNames[i]), Get(UserValue(b), UserFieldNames[i]))
        == Ok(SameFields(a, b)[i])
  {
    forall i | 0 <= i < 5
      ensures Compare.DeepEqual(Get(UserValue(a), UserFieldNames[i]), Get(UserValue(b), UserFieldNames[i]))
        == Ok(SameFields(a, b)[i])
    {
      FieldComparison(a, b, i);
    }
  }


  /** Field `i` of the user objects of `a` and `b` compares as `SameFields` says. */
  lemma FieldComparison(a: UserRecord, b: UserRecord, i: nat)
    requires i < 5
    ensures Compare.DeepEqual(Get(UserValue(a), UserFieldNames[i]), Get(UserValue(b), UserFieldNames[i]))
      == Ok(SameFields(a, b)[i])
  {
    UserField(a, i);
    UserField(b, i);
    var x, y := UserValue(a).props[i].value, UserValue(b).props[i].value;
    if i == 3 {
      Compare.StrArraysDeepEqual(a.additionalGroups, b.additionalGroups);
    } else if i == 2 {
      OptStrInjective(a.primaryGroup, b.primaryGroup);
    } else if i == 4 {
      OptStrInjective(a.shell, b.shell);
    }
  }

  /** Field `i` of a user object holds the `i`-th property's value. */
  lemma UserField(a: UserRecord, i: nat)
    requires i < 5
    ensures Get(UserValue(a), UserFieldNames[i]) == UserValue(a).props[i].value
  {
    var props := UserValue(a).props;
    assert Names(props) == UserFieldNames;
    LookupAt(props, UserFieldNames[i], i);
  }




  /** Comparing the group objects field by field. */
  lemma GroupFields(a: GroupRecord, b: GroupRecord)
    ensures Keys(GroupValue(a)) == Keys(GroupValue(b)) == Ok(["groupname", "gid"])
    ensures Compare.DeepEqual(Get(GroupValue(a), "groupname"), Get(GroupValue(b), "groupname"))
      == Ok(a.groupname == b.groupname)
    ensures Compare.DeepEqual(Get(GroupValue(a), "gid"), Get(GroupValue(b), "gid")) == Ok(a.gid == b.gid)
  {
    GroupKeys(a);
    GroupKeys(b);
    LookupAt(GroupValue(a).props, "gid", 1);
    LookupAt(GroupValue(b).props, "gid", 1);
  }

  lemma GroupKeys(a: GroupRecord)
    ensures Keys(GroupValue(a)) == Ok(["groupname", "gid"])
  {
    assert Names(GroupValue(a).props) == ["groupname", "gid"];
  }


  /** `diffProperties` of two group objects reports exactly the fields that differ. */
  lemma GroupDiff(a: GroupRecord, b: GroupRecord)
    ensures Compare.DiffProperties(GroupValue(a), GroupValue(b)) ==
      Ok((if a.groupname != b.groupname then {"groupname"} else {}) + (if a.gid != b.gid then {"gid"} else {}))
  {
    var va, vb := GroupValue(a), GroupValue(b);
    var changed := (if a.groupname != b.groupname then {"groupname"} else {}) + (if a.gid != b.gid then {"gid"} else {});
    GroupFields(a, b);
    forall k | k in Keys(va).value
      ensures Compare.DeepEqual(Get(va, k), Get(vb, k)).Ok?
      ensures Compare.DeepEqual(Get(va, k), Get(vb, k)).value <==> k !in changed
    {
      if k == "groupname" {
      } else {
        assert k == "gid";
      }
    }
    Compare.DiffPropertiesIs(va, vb, changed);
  }
}
