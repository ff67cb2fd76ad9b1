/** The update arguments of one group or user (src/index.mjs:60-76,
    :87-125): what `groupModArgs` and `userModArgs` make of the set of
    properties `diffProperties` found changed. */
module ModArgs {
  import opened Results
  import opened JsObjects
  import opened Text
  import opened Records
  import Compare
  import LegacySchema

  /* ---------------------------------------------------------------------- */
  /* groups                                                                  */
  /* ---------------------------------------------------------------------- */

  /** The arguments for group `g` with changed properties `diff`: a changed
      gid is refused; any other leftover property reaches `diff.join`, which a
      `Set` does not have; otherwise the group's name alone. */
  function GroupArgs(g: string, diff: set<string>, configured: int, live: int): Result<seq<string>>
  {
    if "gid" in diff then Err(GidChange(g, configured, live))
    else if diff != {} then Err(TypeError(JoinNotAFunction))
    else Ok([g])
  }

  /** The callback of `groupPropertyDiff.map`: `diff.delete("gid")`, the
      leftover check, then `args.push(g)`. */
  method GroupModArgs(g: string, diff: set<string>, configured: int, live: int) returns (r: Result<seq<string>>)
    ensures r == GroupArgs(g, diff, configured, live)
    ensures r.Ok? <==> diff == {}
    ensures r.Ok? ==> r.value == [g]
  {
    var left := diff;
    var args: seq<string> := [];
    var hadGid := "gid" in left;
    left := left - {"gid"};
    if hadGid {
      return Err(GidChange(g, configured, live));
    }
    assert left == diff;
    if |left| > 0 {
      return Err(TypeError(JoinNotAFunction));
    }
    assert left == {};
    args := args + [g];
    assert args == [g];
    assert GroupArgs(g, diff, configured, live) == Ok([g]);
    return Ok(args);
  }

  /** Between a configured group and a live group of the same name, only a
      gid can differ: the arguments are refused with a gid change exactly when
      the gids differ, and the leftover-property error never happens. */
  lemma GroupUpdate(g: string, configured: int, live: int)
    ensures var diff := Compare.DiffProperties(GroupValue(GroupRecord(g, configured)), GroupValue(GroupRecord(g, live)));
      && diff.Ok?
      && (diff.value == {} <==> configured == live)
      && (diff.value != {} ==> GroupArgs(g, diff.value, configured, live) == Err(GidChange(g, configured, live)))
  {
    GroupDiff(GroupRecord(g, configured), GroupRecord(g, live));
  }

  /* ---------------------------------------------------------------------- */
  /* users                                                                   */
  /* ---------------------------------------------------------------------- */

  /** The property key a primary group is looked up under in `configGroups`:
      a missing primary group is the key "undefined". */
  function GroupKey(pg: Option<string>): (k: string)
    ensures pg.Some? ==> k == pg.value
  {
    if pg.Some? then pg.value else "undefined"
  }

  /** The user properties `userModArgs` deletes from the diff. */
  const Handled: set<string> := {"uid", "primary_group", "additional_groups", "shell"}

  /** `--gid` with the configured primary group's gid, when it changed. */
  function GidFlag(diff: set<string>, cu: UserRecord, groups: map<string, LegacySchema.Group>): seq<Value>
    requires "primary_group" in diff ==> GroupKey(cu.primaryGroup) in groups
  {
    if "primary_group" in diff then [Str("--gid"), Num(groups[GroupKey(cu.primaryGroup)].gid)] else []
  }

  /** `--groups` with the configured additional groups joined by commas, when they changed. */
  function GroupsFlag(diff: set<string>, cu: UserRecord): seq<Value>
  {
    if "additional_groups" in diff then [Str("--groups"), Str(Join(cu.additionalGroups, ","))] else []
  }

  /** `--shell` with the configured shell, when it changed. */
  function ShellFlag(diff: set<string>, cu: UserRecord): seq<Value>
  {
    if "shell" in diff then [Str("--shell"), OptStr(cu.shell)] else []
  }

  /** The arguments for user `u` with changed properties `diff`, configured
      record `cu` and live record `lu`: a changed uid is refused, then a
      changed primary group that is not configured, then any property other
      than the four handled ones; otherwise the flags of the changed
      properties followed by the username. */
  function UserArgs(u: string, diff: set<string>, cu: UserRecord, lu: UserRecord, groups: map<string, LegacySchema.Group>)
    : Result<seq<Value>>
  {
    if "uid" in diff then Err(UidChange(u, cu.uid, lu.uid))
    else if "primary_group" in diff && GroupKey(cu.primaryGroup) !in groups then
      Err(DanglingPrimaryGroup(u, GroupKey(cu.primaryGroup)))
    else RemainingArgs(u, diff, cu, GidFlag(diff, cu, groups))
  }

  /** After the uid and primary group: any property other than the four
      handled ones is refused; otherwise `prefix`, the flags of the other
      changed properties and the username. */
  function RemainingArgs(u: string, diff: set<string>, cu: UserRecord, prefix: seq<Value>): Result<seq<Value>>
  {
    if diff - Handled != {} then Err(MissingUpdateFunctions(u, diff - Handled))
    else Ok(prefix + GroupsFlag(diff, cu) + ShellFlag(diff, cu) + [Str(u)])
  }

  /** `if (diff.delete(prop)) args.push(...flag)`. */
  method DeleteAndPush(left: set<string>, args: seq<Value>, prop: string, flag: seq<Value>)
    returns (left': set<string>, args': seq<Value>)
    ensures left' == left - {prop}
    ensures args' == if prop in left then args + flag else args
  {
    left', args' := left, args;
    if prop in left' {
      left' := left' - {prop};
      args' := args' + flag;
    }
  }

  /** The callback of `userPropertyDiff.map`: each handled property is
      deleted from the diff as its flag is pushed, and whatever is left over
      is refused. */
  method UserModArgs(u: string, diff: set<string>, cu: UserRecord, lu: UserRecord, groups: map<string, LegacySchema.Group>)
    returns (r: Result<seq<Value>>)
    ensures r == UserArgs(u, diff, cu, lu, groups)
  {
    var left := diff;
    var args: seq<Value> := [];
    if "uid" in left {
      return Err(UidChange(u, cu.uid, lu.uid));
    }
    if "primary_group" in left {
      left := left - {"primary_group"};
      var key := GroupKey(cu.primaryGroup);
      if key !in groups {
        return Err(DanglingPrimaryGroup(u, key));
      }
      args := args + [Str("--gid"), Num(groups[key].gid)];
    }
    assert args == GidFlag(diff, cu, groups);
    assert left == diff - {"uid", "primary_group"};
    r := PushRemaining(u, diff, cu, left, args);
  }

  /** The rest of that callback, from the `additional_groups` check on. */
  method PushRemaining(u: string, diff: set<string>, cu: UserRecord, left0: set<string>, args0: seq<Value>)
    returns (r: Result<seq<Value>>)
    requires left0 == diff - {"uid", "primary_group"}
    ensures r == RemainingArgs(u, diff, cu, args0)
  {
    var left, args := DeleteAndPush(left0, args0, "additional_groups", GroupsFlag({"additional_groups"}, cu));
    left, args := DeleteAndPush(left, args, "shell", ShellFlag({"shell"}, cu));
    assert args == args0 + GroupsFlag(diff, cu) + ShellFlag(diff, cu);
    assert left == diff - Handled;
    if |left| > 0 {
      return Err(MissingUpdateFunctions(u, left));
    }
    assert left == {};
    args := args + [Str(u)];
    return Ok(args);
  }

  /** Between a configured and a live record of the same user, the diff
      holds exactly the fields that differ, so: a uid change is refused; a
      changed primary group that is not configured is refused; and otherwise
      each flag is present exactly when its field differs, the username
      comes last, and the missing-update-functions error never happens. */
  lemma UserUpdate(cu: UserRecord, lu: UserRecord, groups: map<string, LegacySchema.Group>)
    requires cu.username == lu.username
    ensures Compare.DiffProperties(UserValue(cu), UserValue(lu)).Ok?
    ensures var diff := Compare.DiffProperties(UserValue(cu), UserValue(lu)).value;
      var r := UserArgs(cu.username, diff, cu, lu, groups);
      && (cu.uid != lu.uid ==> r == Err(UidChange(cu.username, cu.uid, lu.uid)))
      && (cu.uid == lu.uid && cu.primaryGroup != lu.primaryGroup && GroupKey(cu.primaryGroup) !in groups ==>
            r == Err(DanglingPrimaryGroup(cu.username, GroupKey(cu.primaryGroup))))
      && (cu.uid == lu.uid && (cu.primaryGroup != lu.primaryGroup ==> GroupKey(cu.primaryGroup) in groups) ==>
            && r.Ok?
            && (GidFlag(diff, cu, groups) != [] <==> cu.primaryGroup != lu.primaryGroup)
            && (GroupsFlag(diff, cu) != [] <==> cu.additionalGroups != lu.additionalGroups)
            && (ShellFlag(diff, cu) != [] <==> cu.shell != lu.shell)
            && r.value == GidFlag(diff, cu, groups) + GroupsFlag(diff, cu) + ShellFlag(diff, cu) + [Str(cu.username)])
  {
    UserDiff(cu, lu);
    var diff := Compare.DiffProperties(UserValue(cu), UserValue(lu)).value;
    assert "username" !in diff;
    assert diff - Handled == {} by {
      forall k | k in diff ensures k in Handled {
      }
    }
  }

  /** The arguments, when produced, are pairs of a flag and its value in the
      order `--gid`, `--groups`, `--shell`, then the username. */
  lemma UserArgsShape(u: string, diff: set<string>, cu: UserRecord, lu: UserRecord, groups: map<string, LegacySchema.Group>)
    requires UserArgs(u, diff, cu, lu, groups).Ok?
    ensures var args := UserArgs(u, diff, cu, lu, groups).value;
      && |args| == 1 + 2 * |diff|
      && args[|args| - 1] == Str(u)
      && diff <= Handled - {"uid"}
  {
    var rest := diff - {"primary_group"};
    var rest2 := rest - {"additional_groups"};
    assert rest2 - {"shell"} == {};
    assert |diff| == (if "primary_group" in diff then 1 else 0) + |rest|;
    assert |rest| == (if "additional_groups" in diff then 1 else 0) + |rest2|;
    assert |rest2| == if "shell" in diff then 1 else 0;
  }
}
