/** The phases of the change-set computation (src/index.mjs:52-133): the
    property diffs of the groups and users present on both sides, their
    update arguments, the users whose SSH keys need rewriting and the users
    whose passwords need setting. Each `map` and `filter` runs in order, and
    the first callback that throws ends the computation. */
module Plan {
  import opened Results
  import opened Text
  import opened JsObjects
  import opened Records
  import Compare
  import LegacySchema
  import opened ModArgs
  import ExistingDirectory

  type LiveGroup = ExistingDirectory.LiveGroup

  /* ---------------------------------------------------------------------- */
  /* groups                                                                  */
  /* ---------------------------------------------------------------------- */

  /** A configured group as an object. */
  function ConfiguredGroupRecord(g: LegacySchema.Group): GroupRecord
  {
    GroupRecord(g.groupname, g.gid)
  }

  /** `const { users, ...existingGroup } = groups[g]`: a live group without
      its member list. */
  function LiveGroupRecord(g: LiveGroup): GroupRecord
  {
    GroupRecord(g.groupname, g.gid)
  }

  /** `diffProperties(configGroups[g], existingGroup)`: the fields of the
      two group objects that differ. */
  function GroupPropertyDiff(cg: LegacySchema.Group, lg: LiveGroup): (r: Result<set<string>>)
    ensures r == Ok((if cg.groupname != lg.groupname then {"groupname"} else {}) + (if cg.gid != lg.gid then {"gid"} else {}))
  {
    GroupDiff(ConfiguredGroupRecord(cg), LiveGroupRecord(lg));
    Compare.DiffProperties(GroupValue(ConfiguredGroupRecord(cg)), GroupValue(LiveGroupRecord(lg)))
  }

  /** `groupPropertyDiff` over `names`, the configured groups that are
      live: each group's changed properties, keeping the non-empty ones.
      Both objects always have the keys `groupname` and `gid`, so
      `diffProperties` cannot throw here. */
  function GroupDiffs(names: seq<string>, configured: map<string, LegacySchema.Group>, live: map<string, LiveGroup>)
    : (r: seq<(string, set<string>)>)
    requires forall g :: g in names ==> g in configured && g in live
    ensures forall p :: p in r ==> p.0 in names && p.1 != {}
  {
    if |names| == 0 then []
    else
      var g := names[0];
      var diff := GroupPropertyDiff(configured[g], live[g]).value;
      (if diff != {} then [(g, diff)] else []) + GroupDiffs(names[1..], configured, live)
  }

  /** `groupModArgs`: the arguments of each diff in turn. */
  function GroupArgsAll(diffs: seq<(string, set<string>)>, configured: map<string, LegacySchema.Group>, live: map<string, LiveGroup>)
    : Result<seq<seq<string>>>
    requires forall p :: p in diffs ==> p.0 in configured && p.0 in live
  {
    if |diffs| == 0 then Ok([])
    else
      var args :- GroupArgs(diffs[0].0, diffs[0].1, configured[diffs[0].0].gid, live[diffs[0].0].gid);
      var rest :- GroupArgsAll(diffs[1..], configured, live);
      Ok([args] + rest)
  }

  /** `groupPropertyDiff` followed by `groupModArgs`. */
  function GroupModArgsOf(names: seq<string>, configured: map<string, LegacySchema.Group>, live: map<string, LiveGroup>)
    : Result<seq<seq<string>>>
    requires forall g :: g in names ==> g in configured && g in live
  {
    GroupArgsAll(GroupDiffs(names, configured, live), configured, live)
  }

  /** Both sides keyed by group name. */
  predicate GroupsKeyed(names: seq<string>, configured: map<string, LegacySchema.Group>, live: map<string, LiveGroup>)
  {
    forall g :: g in names ==> g in configured && g in live && configured[g].groupname == g && live[g].groupname == g
  }

  /** The reference outcome for groups: refused for the first group whose
      gids differ, otherwise nothing to modify. */
  function GidChanges(names: seq<string>, configured: map<string, LegacySchema.Group>, live: map<string, LiveGroup>)
    : Result<seq<seq<string>>>
    requires forall g :: g in names ==> g in configured && g in live
  {
    if |names| == 0 then Ok([])
    else if configured[names[0]].gid != live[names[0]].gid then
      Err(GidChange(names[0], configured[names[0]].gid, live[names[0]].gid))
    else GidChanges(names[1..], configured, live)
  }

  /** The reference outcome succeeds exactly when every group's gids agree,
      and then there is nothing to modify. */
  lemma {:induction false} GidChangesOutcome(names: seq<string>, configured: map<string, LegacySchema.Group>, live: map<string, LiveGroup>)
    requires forall g :: g in names ==> g in configured && g in live
    ensures GidChanges(names, configured, live).Ok? <==> forall g :: g in names ==> configured[g].gid == live[g].gid
    ensures GidChanges(names, configured, live).Ok? ==> GidChanges(names, configured, live).value == []
    ensures GidChanges(names, configured, live).Err? ==> GidChanges(names, configured, live).error.GidChange?
  {
    if |names| > 0 {
      GidChangesOutcome(names[1..], configured, live);
      assert forall x :: x in names <==> x == names[0] || x in names[1..] by {
        assert names == [names[0]] + names[1..];
      }
    }
  }

  /** One step of `groupPropertyDiff`: between groups keyed by the same name
      only the gid can differ. */
  lemma GroupDiffsStep(names: seq<string>, configured: map<string, LegacySchema.Group>, live: map<string, LiveGroup>)
    requires |names| > 0 && GroupsKeyed(names, configured, live)
    ensures GroupDiffs(names, configured, live) ==
      (if configured[names[0]].gid != live[names[0]].gid then [(names[0], {"gid"})] else [])
      + GroupDiffs(names[1..], configured, live)
  {
    var g := names[0];
    assert GroupPropertyDiff(configured[g], live[g]).value == if configured[g].gid != live[g].gid then {"gid"} else {};
  }

  /** With both sides keyed by name, the group arguments are exactly the
      reference outcome: no group is ever modified, and the first gid
      mismatch is refused. */
  lemma {:induction false} GroupPhase(names: seq<string>, configured: map<string, LegacySchema.Group>, live: map<string, LiveGroup>)
    requires GroupsKeyed(names, configured, live)
    ensures GroupModArgsOf(names, configured, live) == GidChanges(names, configured, live)
  {
    if |names| > 0 {
      var g := names[0];
      GroupPhase(names[1..], configured, live);
      GroupDiffsStep(names, configured, live);
      var rest := GroupDiffs(names[1..], configured, live);
      if configured[g].gid != live[g].gid {
        var d := [(g, {"gid"})] + rest;
        assert d[0] == (g, {"gid"});
      }
    }
  }

  /* ---------------------------------------------------------------------- */
  /* `u in newUsers`                                                         */
  /* ---------------------------------------------------------------------- */

  /** Two readings of `u in newUsers`. `newUsers` is an array, so as
      written `in` asks whether `u` is one of its property keys: "length" or
      an index below its length. The evident intent is whether `u` is one of
      its elements. */
  datatype MembershipTest = IndexKeyTest | ElementTest

  function InNewUsers(test: MembershipTest, u: string, newUsers: seq<string>): (b: bool)
    ensures test.IndexKeyTest? ==> HasProperty(StrArray(newUsers), u) == Ok(b)
    ensures test.ElementTest? ==> (b <==> u in newUsers)
  {
    match test
    case IndexKeyTest => u == "length" || IsIndexKey(u, |newUsers|)
    case ElementTest => u in newUsers
  }

  /* ---------------------------------------------------------------------- */
  /* users                                                                   */
  /* ---------------------------------------------------------------------- */

  /** `users[u]` as a value: `undefined` for a user that is not live. */
  function LiveUserValue(live: map<string, UserRecord>, u: string): (v: Value)
    ensures u !in live <==> v.Undefined?
  {
    if u in live then UserValue(live[u]) else Undefined
  }

  /** `diffProperties(configUsers[u], users[u])`: for a live user, the
      fields of the two user objects that differ; for a user that is not
      live, the keys of `undefined` cannot be read. */
  function UserPropertyDiff(cu: UserRecord, live: map<string, UserRecord>, u: string): (r: Result<set<string>>)
    ensures u !in live ==> r == Err(TypeError(KeysOfNullish))
    ensures u in live ==> var lu := live[u];
      && r.Ok?
      && (forall k :: k in r.value ==> k in UserFieldNames)
      && ("username" in r.value <==> cu.username != lu.username)
      && ("uid" in r.value <==> cu.uid != lu.uid)
      && ("primary_group" in r.value <==> cu.primaryGroup != lu.primaryGroup)
      && ("additional_groups" in r.value <==> cu.additionalGroups != lu.additionalGroups)
      && ("shell" in r.value <==> cu.shell != lu.shell)
  {
    UserDiff(cu, if u in live then live[u] else cu);
    Compare.DiffProperties(UserValue(cu), LiveUserValue(live, u))
  }

  /** `userPropertyDiff`: for each configured user that `newUsers` does not
      hold, the properties changed between its configured and live records,
      keeping the non-empty ones. */
  function UserDiffs(names: seq<string>, test: MembershipTest, newUsers: seq<string>,
                     configured: map<string, UserRecord>, live: map<string, UserRecord>)
    : (r: Result<seq<(string, set<string>)>>)
    requires forall u :: u in names ==> u in configured
    ensures r.Ok? ==> forall p :: p in r.value ==> p.0 in names && p.0 in live && p.1 != {}
  {
    if |names| == 0 then Ok([])
    else
      var u := names[0];
      if InNewUsers(test, u, newUsers) then UserDiffs(names[1..], test, newUsers, configured, live)
      else
        var diff :- UserPropertyDiff(configured[u], live, u);
        var rest :- UserDiffs(names[1..], test, newUsers, configured, live);
        Ok((if diff != {} then [(u, diff)] else []) + rest)
  }

  /** `userModArgs`: the arguments of each diff in turn. */
  function UserArgsAll(diffs: seq<(string, set<string>)>, configured: map<string, UserRecord>,
                       live: map<string, UserRecord>, groups: map<string, LegacySchema.Group>)
    : Result<seq<seq<Value>>>
    requires forall p :: p in diffs ==> p.0 in configured && p.0 in live
  {
    if |diffs| == 0 then Ok([])
    else
      var (u, diff) := diffs[0];
      var args :- UserArgs(u, diff, configured[u], live[u], groups);
      var rest :- UserArgsAll(diffs[1..], configured, live, groups);
      Ok([args] + rest)
  }

  /** `userPropertyDiff` followed by `userModArgs`. */
  function UserModArgsOf(names: seq<string>, test: MembershipTest, newUsers: seq<string>,
                         configured: map<string, UserRecord>, live: map<string, UserRecord>,
                         groups: map<string, LegacySchema.Group>)
    : Result<seq<seq<Value>>>
    requires forall u :: u in names ==> u in configured
  {
    var diffs :- UserDiffs(names, test, newUsers, configured, live);
    UserArgsAll(diffs, configured, live, groups)
  }

  /** A user diff fails exactly when some user that `newUsers` does not hold
      is not live: `diffProperties` then reads the keys of `undefined`. */
  lemma {:induction false} UserDiffsFail(names: seq<string>, test: MembershipTest, newUsers: seq<string>,
                                         configured: map<string, UserRecord>, live: map<string, UserRecord>)
    requires forall u :: u in names ==> u in configured
    ensures var r := UserDiffs(names, test, newUsers, configured, live);
      && (r.Err? <==> exists u :: u in names && !InNewUsers(test, u, newUsers) && u !in live)
      && (r.Err? ==> r.error == TypeError(KeysOfNullish))
  {
    if |names| > 0 {
      var u := names[0];
      UserDiffsFail(names[1..], test, newUsers, configured, live);
      assert forall x :: x in names <==> x == u || x in names[1..] by {
        assert names == [u] + names[1..];
      }
    }
  }

  /** A configured user can be brought in line with its live record: the
      uids agree, and a changed primary group is configured. */
  predicate Updatable(cu: UserRecord, lu: UserRecord, groups: map<string, LegacySchema.Group>)
  {
    cu.uid == lu.uid && (cu.primaryGroup != lu.primaryGroup ==> GroupKey(cu.primaryGroup) in groups)
  }

  /** The flags that bring `lu` in line with `cu`, field by field. */
  function FieldFlags(cu: UserRecord, lu: UserRecord, groups: map<string, LegacySchema.Group>): seq<Value>
    requires Updatable(cu, lu, groups)
  {
    (if cu.primaryGroup != lu.primaryGroup then [Str("--gid"), Num(groups[GroupKey(cu.primaryGroup)].gid)] else [])
    + (if cu.additionalGroups != lu.additionalGroups then [Str("--groups"), Str(Join(cu.additionalGroups, ","))] else [])
    + (if cu.shell != lu.shell then [Str("--shell"), OptStr(cu.shell)] else [])
  }

  /** Why a user that is not updatable is refused. */
  function Refusal(u: string, cu: UserRecord, lu: UserRecord, groups: map<string, LegacySchema.Group>): Error
    requires !Updatable(cu, lu, groups)
  {
    if cu.uid != lu.uid then UidChange(u, cu.uid, lu.uid) else DanglingPrimaryGroup(u, GroupKey(cu.primaryGroup))
  }

  /** The reference outcome for users: for each configured user that is
      live and differs from its live record, its field flags and its name;
      the first user that is not updatable is refused. */
  function ExpectedUserArgs(names: seq<string>, configured: map<string, UserRecord>, live: map<string, UserRecord>,
                            groups: map<string, LegacySchema.Group>)
    : Result<seq<seq<Value>>>
    requires forall u :: u in names ==> u in configured
  {
    if |names| == 0 then Ok([])
    else
      var u := names[0];
      if u !in live then ExpectedUserArgs(names[1..], configured, live, groups)
      else if !Updatable(configured[u], live[u], groups) then Err(Refusal(u, configured[u], live[u], groups))
      else
        var rest :- ExpectedUserArgs(names[1..], configured, live, groups);
        Ok((if configured[u] == live[u] then [] else [FieldFlags(configured[u], live[u], groups) + [Str(u)]]) + rest)
  }

  /** The reference outcome fails only with a refusal: a uid change or a
      primary group that is not configured. */
  lemma {:induction false} ExpectedErrors(names: seq<string>, configured: map<string, UserRecord>,
                                          live: map<string, UserRecord>, groups: map<string, LegacySchema.Group>)
    requires forall u :: u in names ==> u in configured
    ensures var r := ExpectedUserArgs(names, configured, live, groups);
      r.Err? ==> r.error.UidChange? || r.error.DanglingPrimaryGroup?
  {
    if |names| > 0 {
      ExpectedErrors(names[1..], configured, live, groups);
    }
  }

  /** Both user dictionaries keyed by username, `newUsers` read by element
      and holding exactly the configured users that are not live. */
  predicate UsersKeyed(names: seq<string>, newUsers: seq<string>, configured: map<string, UserRecord>, live: map<string, UserRecord>)
  {
    forall u :: u in names ==>
      && u in configured && configured[u].username == u
      && (u in live ==> live[u].username == u)
      && (u in newUsers <==> u !in live)
  }

  /** One live user's arguments: its diff is empty exactly when the two
      records agree, and what `userModArgs` makes of it is its field flags
      and name, or its refusal. */
  lemma OneUser(u: string, cu: UserRecord, live: map<string, UserRecord>, groups: map<string, LegacySchema.Group>)
    requires u in live && cu.username == u && live[u].username == u
    ensures UserPropertyDiff(cu, live, u).Ok?
    ensures var diff := UserPropertyDiff(cu, live, u).value; var lu := live[u];
      && (diff == {} <==> cu == lu)
      && (Updatable(cu, lu, groups) ==> UserArgs(u, diff, cu, lu, groups) == Ok(FieldFlags(cu, lu, groups) + [Str(u)]))
      && (!Updatable(cu, lu, groups) ==> UserArgs(u, diff, cu, lu, groups) == Err(Refusal(u, cu, lu, groups)))
  {
    var lu := live[u];
    var diff := UserPropertyDiff(cu, live, u).value;
    assert diff - Handled == {} by {
      forall k | k in diff ensures k in Handled {
      }
    }
  }

  /** One step of `userPropertyDiff`, read by element: a user outside
      `newUsers` is live, and contributes its diff when its records differ. */
  lemma UserDiffsStep(names: seq<string>, newUsers: seq<string>, configured: map<string, UserRecord>, live: map<string, UserRecord>)
    requires |names| > 0 && UsersKeyed(names, newUsers, configured, live)
    requires UserDiffs(names[1..], ElementTest, newUsers, configured, live).Ok?
    ensures var u := names[0]; var rest := UserDiffs(names[1..], ElementTest, newUsers, configured, live).value;
      UserDiffs(names, ElementTest, newUsers, configured, live) ==
        Ok((if u in live && UserPropertyDiff(configured[u], live, u).value != {}
            then [(u, UserPropertyDiff(configured[u], live, u).value)] else []) + rest)
  {
    var u := names[0];
    var rest := UserDiffs(names[1..], ElementTest, newUsers, configured, live);
    assert InNewUsers(ElementTest, u, newUsers) <==> u !in live;
    if u in live {
      var diff := UserPropertyDiff(configured[u], live, u);
      assert diff.Ok?;
      if diff.value == {} {
        assert [] + rest.value == rest.value;
      }
    } else {
      assert [] + rest.value == rest.value;
      assert rest == Ok(rest.value);
    }
  }

  /** `userModArgs` over a non-empty list: the first diff's arguments, then the rest's. */
  lemma UserArgsAllCons(diffs: seq<(string, set<string>)>, configured: map<string, UserRecord>,
                        live: map<string, UserRecord>, groups: map<string, LegacySchema.Group>)
    requires |diffs| > 0 && forall p :: p in diffs ==> p.0 in configured && p.0 in live
    ensures var u := diffs[0].0;
      UserArgsAll(diffs, configured, live, groups) ==
        match UserArgs(u, diffs[0].1, configured[u], live[u], groups)
        case Err(e) => Err(e)
        case Ok(args) =>
          match UserArgsAll(diffs[1..], configured, live, groups)
          case Err(e) => Err(e)
          case Ok(rest) => Ok([args] + rest)
  {
  }

  /** Read by element, the user phase never fails on a missing live user,
      and its outcome is exactly the reference outcome. */
  lemma {:induction false} UserPhase(names: seq<string>, newUsers: seq<string>, configured: map<string, UserRecord>,
                                     live: map<string, UserRecord>, groups: map<string, LegacySchema.Group>)
    requires UsersKeyed(names, newUsers, configured, live)
    ensures UserDiffs(names, ElementTest, newUsers, configured, live).Ok?
    ensures UserModArgsOf(names, ElementTest, newUsers, configured, live, groups) == ExpectedUserArgs(names, configured, live, groups)
  {
    if |names| > 0 {
      var u := names[0];
      UserPhase(names[1..], newUsers, configured, live, groups);
      UserDiffsStep(names, newUsers, configured, live);
      var rest := UserDiffs(names[1..], ElementTest, newUsers, configured, live).value;
      var all := UserDiffs(names, ElementTest, newUsers, configured, live).value;
      assert UserModArgsOf(names, ElementTest, newUsers, configured, live, groups) == UserArgsAll(all, configured, live, groups);
      assert UserModArgsOf(names[1..], ElementTest, newUsers, configured, live, groups) == UserArgsAll(rest, configured, live, groups);
      var expected := ExpectedUserArgs(names[1..], configured, live, groups);
      if u in live {
        var cu, lu := configured[u], live[u];
        OneUser(u, cu, live, groups);
        var diff := UserPropertyDiff(cu, live, u).value;
        if diff != {} {
          assert all[0] == (u, diff) && all[1..] == rest;
          UserArgsAllCons(all, configured, live, groups);
          if Updatable(cu, lu, groups) {
            assert ExpectedUserArgs(names, configured, live, groups) ==
              if expected.Err? then expected else Ok([FieldFlags(cu, lu, groups) + [Str(u)]] + expected.value);
          } else {
            assert ExpectedUserArgs(names, configured, live, groups) == Err(Refusal(u, cu, lu, groups));
          }
        } else {
          assert all == rest;
          assert ExpectedUserArgs(names, configured, live, groups) ==
            if expected.Err? then expected else Ok([] + expected.value);
          assert expected.Ok? ==> [] + expected.value == expected.value;
        }
      } else {
        assert all == rest;
        assert ExpectedUserArgs(names, configured, live, groups) == expected;
      }
    }
  }

  /* ---------------------------------------------------------------------- */
  /* SSH keys                                                                */
  /* ---------------------------------------------------------------------- */

  /** `sshKeys[u]` as a value: `undefined` for a user without a key list. */
  function LiveKeysValue(live: map<string, seq<string>>, u: string): (v: Value)
    ensures u !in live <==> v.Undefined?
  {
    if u in live then StrArray(live[u]) else Undefined
  }

  /** `requiresSSHKeyUpdate`: the configured users that `newUsers` does not
      hold and whose live key list is not deeply equal to the configured one. */
  function KeyUpdates(names: seq<string>, test: MembershipTest, newUsers: seq<string>,
                      live: map<string, seq<string>>, configured: map<string, seq<string>>)
    : (r: Result<seq<string>>)
    requires forall u :: u in names ==> u in configured
    ensures r.Ok? ==> forall u :: u in r.value ==> u in names && !InNewUsers(test, u, newUsers)
  {
    if |names| == 0 then Ok([])
    else
      var u := names[0];
      if InNewUsers(test, u, newUsers) then KeyUpdates(names[1..], test, newUsers, live, configured)
      else
        var same :- Compare.DeepEqual(LiveKeysValue(live, u), StrArray(configured[u]));
        var rest :- KeyUpdates(names[1..], test, newUsers, live, configured);
        Ok((if same then [] else [u]) + rest)
  }

  /** Read by element, when every user outside `newUsers` has a live key
      list, the key updates never fail and hold exactly the users outside
      `newUsers` whose live keys differ from the configured ones. */
  lemma {:induction false} KeyPhase(names: seq<string>, newUsers: seq<string>,
                                    live: map<string, seq<string>>, configured: map<string, seq<string>>)
    requires forall u :: u in names ==> u in configured && (u !in newUsers ==> u in live)
    ensures KeyUpdates(names, ElementTest, newUsers, live, configured).Ok?
    ensures forall u :: u in KeyUpdates(names, ElementTest, newUsers, live, configured).value <==>
      u in names && u !in newUsers && live[u] != configured[u]
  {
    if |names| > 0 {
      var u := names[0];
      KeyPhase(names[1..], newUsers, live, configured);
      assert forall x :: x in names <==> x == u || x in names[1..] by {
        assert names == [u] + names[1..];
      }
      if u !in newUsers {
        Compare.StrArraysDeepEqual(live[u], configured[u]);
      }
    }
  }

  /* ---------------------------------------------------------------------- */
  /* passwords                                                               */
  /* ---------------------------------------------------------------------- */

  /** `passwords[u]` as a value: `undefined` for a user without a shadow
      entry or without a password field. */
  function LivePasswordValue(live: map<string, Option<string>>, u: string): Value
  {
    if u in live then OptStr(live[u]) else Undefined
  }

  /** `passwordsToSet`: the configured users whose configured password is not
      strictly equal to the live one, and that are new or always have their
      password updated. */
  function PasswordsToSet(names: seq<string>, test: MembershipTest, newUsers: seq<string>,
                          configured: map<string, string>, live: map<string, Option<string>>,
                          policy: map<string, LegacySchema.UpdatePolicy>)
    : (r: seq<string>)
    requires forall u :: u in names ==> u in configured && u in policy
    ensures forall u :: u in r <==>
      && u in names
      && !(u in live && live[u] == Some(configured[u]))
      && (InNewUsers(test, u, newUsers) || policy[u] == LegacySchema.Always)
  {
    if |names| == 0 then []
    else
      var u := names[0];
      var rest := PasswordsToSet(names[1..], test, newUsers, configured, live, policy);
      assert forall x :: x in names <==> x == u || x in names[1..] by {
        assert names == [u] + names[1..];
      }
      if Str(configured[u]) != LivePasswordValue(live, u)
         && (InNewUsers(test, u, newUsers) || policy[u] == LegacySchema.Always)
      then [u] + rest
      else rest
  }
}
