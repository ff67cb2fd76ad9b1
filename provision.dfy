/** The provisioner's plan (src/index.mjs:12-133): from the configuration
    document and the live account files to the change set — the groups and
    users to create, delete and modify, the users whose SSH keys need
    rewriting and the users whose passwords need setting. */
module Provision {
  import opened Results
  import opened Text
  import opened Dicts
  import opened JsObjects
  import opened Records
  import JsonSchema
  import LegacySchema
  import opened ChangeLists
  import opened ConfiguredDirectory
  import opened ExistingDirectory
  import opened SshKeys
  import Plan

  /** What changes for groups. */
  datatype GroupChanges = GroupChanges(
    newGroups: seq<string>,
    groupsToDelete: seq<string>,
    groupModArgs: seq<seq<string>>)

  /** What changes for users. */
  datatype UserChanges = UserChanges(
    newUsers: seq<string>,
    usersToDelete: seq<string>,
    userModArgs: seq<seq<Value>>,
    requiresSSHKeyUpdate: seq<string>,
    passwordsToSet: seq<string>)

  /** The change set. */
  datatype ChangeSet = ChangeSet(groups: GroupChanges, users: UserChanges)

  /** The configured dictionaries are well formed, and the four user
      dictionaries share their keys. */
  ghost predicate Coherent(cd: Configured)
  {
    && Valid(cd.groups) && Valid(cd.users) && Valid(cd.passwords) && Valid(cd.sshKeys) && Valid(cd.updatePassword)
    && cd.passwords.keys == cd.users.keys && cd.sshKeys.keys == cd.users.keys && cd.updatePassword.keys == cd.users.keys
  }

  lemma ConfiguredCoherent(config: LegacySchema.Config)
    ensures Coherent(GetConfiguredDirectory(config))
  {
    ConfiguredUserKeys(config);
  }

  /** Each live group's name and gid, in key order. */
  function GroupIds(d: Dict<LiveGroup>): (c: seq<Candidate>)
    requires forall k :: k in d.keys ==> k in d.values
    ensures |c| == |d.keys|
    ensures forall i :: 0 <= i < |c| ==> c[i] == (d.keys[i], d.values[d.keys[i]].gid)
  {
    seq(|d.keys|, i requires 0 <= i < |d.keys| => (d.keys[i], d.values[d.keys[i]].gid))
  }

  /** Each live user's name and uid, in key order. */
  function UserIds(d: Dict<UserRecord>): (c: seq<Candidate>)
    requires forall k :: k in d.keys ==> k in d.values
    ensures |c| == |d.keys|
    ensures forall i :: 0 <= i < |c| ==> c[i] == (d.keys[i], d.values[d.keys[i]].uid)
  {
    seq(|d.keys|, i requires 0 <= i < |d.keys| => (d.keys[i], d.values[d.keys[i]].uid))
  }

  /** `newGroups`, `groupsToDelete`, `groupPropertyDiff` and `groupModArgs`. */
  function GroupChangesOf(cd: Configured, ex: Existing, gidRange: Option<LegacySchema.Range>): (r: Result<GroupChanges>)
    requires Valid(cd.groups) && Valid(ex.groups)
  {
    var newGroups := Missing(cd.groups.keys, ex.groups.values);
    var groupsToDelete :- Deletions(GroupIds(ex.groups), cd.groups.values, gidRange);
    var groupModArgs :- Plan.GroupModArgsOf(Present(cd.groups.keys, ex.groups.values), cd.groups.values, ex.groups.values);
    Ok(GroupChanges(newGroups, groupsToDelete, groupModArgs))
  }

  /** `newUsers`, `usersToDelete`, `userPropertyDiff`, `userModArgs`,
      `requiresSSHKeyUpdate` and `passwordsToSet`. */
  function UserChangesOf(test: Plan.MembershipTest, cd: Configured, ex: Existing, uidRange: Option<LegacySchema.Range>,
                         sshKeys: Dict<seq<string>>)
    : (r: Result<UserChanges>)
    requires Coherent(cd) && Valid(ex.users)
    ensures var deletions := Deletions(UserIds(ex.users), cd.users.values, uidRange);
      var modArgs := Plan.UserModArgsOf(cd.users.keys, test, Missing(cd.users.keys, ex.users.values), cd.users.values,
                                        ex.users.values, cd.groups.values);
      var keys := Plan.KeyUpdates(cd.sshKeys.keys, test, Missing(cd.users.keys, ex.users.values), sshKeys.values,
                                  cd.sshKeys.values);
      && (r.Ok? <==> deletions.Ok? && modArgs.Ok? && keys.Ok?)
      && (r.Err? ==> r.error == if deletions.Err? then deletions.error else if modArgs.Err? then modArgs.error else keys.error)
      && (r.Ok? ==> r.value == UserChanges(Missing(cd.users.keys, ex.users.values), deletions.value, modArgs.value, keys.value,
                                           Plan.PasswordsToSet(cd.passwords.keys, test, Missing(cd.users.keys, ex.users.values),
                                                               cd.passwords.values, ex.passwords.values, cd.updatePassword.values)))
  {
    var newUsers := Missing(cd.users.keys, ex.users.values);
    var usersToDelete :- Deletions(UserIds(ex.users), cd.users.values, uidRange);
    var userModArgs :- Plan.UserModArgsOf(cd.users.keys, test, newUsers, cd.users.values, ex.users.values, cd.groups.values);
    var keyUpdates :- Plan.KeyUpdates(cd.sshKeys.keys, test, newUsers, sshKeys.values, cd.sshKeys.values);
    var passwordsToSet := Plan.PasswordsToSet(cd.passwords.keys, test, newUsers, cd.passwords.values,
                                              ex.passwords.values, cd.updatePassword.values);
    Ok(UserChanges(newUsers, usersToDelete, userModArgs, keyUpdates, passwordsToSet))
  }

  /** The change set of a loaded configuration against the live directory
      and the live users' SSH keys, each list computed in the source's order
      so that the first step that throws decides the error. */
  function ChangeSetOf(test: Plan.MembershipTest, config: LegacySchema.Config, ex: Existing, sshKeys: Dict<seq<string>>)
    : (r: Result<ChangeSet>)
    requires Valid(ex.users) && Valid(ex.groups)
  {
    var cd := GetConfiguredDirectory(config);
    ConfiguredCoherent(config);
    var groups :- GroupChangesOf(cd, ex, config.gidRange);
    var users :- UserChangesOf(test, cd, ex, config.uidRange, sshKeys);
    Ok(ChangeSet(groups, users))
  }

  /** Deleting among a dictionary's entries: the names picked are the live
      names that are not configured and whose id is in range. */
  lemma DeletionsOf<V>(ids: seq<Candidate>, keys: seq<string>, idOf: map<string, int>, configured: map<string, V>,
                       range: LegacySchema.Range)
    requires |ids| == |keys| && forall i :: 0 <= i < |ids| ==> keys[i] in idOf && ids[i] == (keys[i], idOf[keys[i]])
    requires Deletions(ids, configured, Some(range)).Ok?
    ensures forall k :: k in Deletions(ids, configured, Some(range)).value <==>
      k in keys && k !in configured && InRange(idOf[k], range)
  {
    forall k | k in keys && k !in configured && InRange(idOf[k], range)
      ensures exists i :: 0 <= i < |ids| && ids[i].0 == k && k !in configured && InRange(ids[i].1, range)
    {
      var i :| 0 <= i < |keys| && keys[i] == k;
      assert ids[i].0 == k;
    }
  }

  /** The group lists: `newGroups` holds the configured groups that are not
      live, and `groupsToDelete` the live groups that are not configured and
      whose gid is in the managed range (none when there is no range). */
  lemma GroupLists(cd: Configured, ex: Existing, gidRange: Option<LegacySchema.Range>)
    requires Valid(cd.groups) && Valid(ex.groups)
    requires GroupChangesOf(cd, ex, gidRange).Ok?
    ensures var c := GroupChangesOf(cd, ex, gidRange).value;
      && (forall g :: g in c.newGroups <==> g in cd.groups.values && g !in ex.groups.values)
      && (gidRange.None? ==> c.groupsToDelete == [])
      && (gidRange.Some? ==> forall g :: g in c.groupsToDelete <==>
            g in ex.groups.values && g !in cd.groups.values && InRange(ex.groups.values[g].gid, gidRange.value))
  {
    if gidRange.Some? {
      var idOf := map g | g in ex.groups.values :: ex.groups.values[g].gid as int;
      DeletionsOf(GroupIds(ex.groups), ex.groups.keys, idOf, cd.groups.values, gidRange.value);
    }
  }

  /** The user lists, likewise: `newUsers` holds the configured users that
      are not live, and `usersToDelete` the live users that are not
      configured and whose uid is in the managed range. */
  lemma UserLists(test: Plan.MembershipTest, cd: Configured, ex: Existing, uidRange: Option<LegacySchema.Range>,
                  sshKeys: Dict<seq<string>>)
    requires Coherent(cd) && Valid(ex.users)
    requires UserChangesOf(test, cd, ex, uidRange, sshKeys).Ok?
    ensures var c := UserChangesOf(test, cd, ex, uidRange, sshKeys).value;
      && (forall u :: u in c.newUsers <==> u in cd.users.values && u !in ex.users.values)
      && (uidRange.None? ==> c.usersToDelete == [])
      && (uidRange.Some? ==> forall u :: u in c.usersToDelete <==>
            u in ex.users.values && u !in cd.users.values && InRange(ex.users.values[u].uid, uidRange.value))
  {
    if uidRange.Some? {
      var idOf := map u | u in ex.users.values :: ex.users.values[u].uid;
      DeletionsOf(UserIds(ex.users), ex.users.keys, idOf, cd.users.values, uidRange.value);
    }
  }

  /** Both directories keyed by name. */
  ghost predicate Keyed(cd: Configured, ex: Existing)
  {
    && (forall g :: g in cd.groups.values ==> cd.groups.values[g].groupname == g)
    && (forall u :: u in cd.users.values ==> cd.users.values[u].username == u)
    && (forall g :: g in ex.groups.values ==> ex.groups.values[g].groupname == g)
    && (forall u :: u in ex.users.values ==> ex.users.values[u].username == u)
  }

  /** With both directories keyed by name, the group phase fails only on an
      absent gid range with an unconfigured live group, or on a gid
      mismatch; no group is ever modified. */
  lemma GroupOutcome(cd: Configured, ex: Existing, gidRange: Option<LegacySchema.Range>)
    requires Valid(cd.groups) && Valid(ex.groups) && Keyed(cd, ex)
    ensures var r := GroupChangesOf(cd, ex, gidRange);
      var both := Present(cd.groups.keys, ex.groups.values);
      && (r.Ok? <==> Deletions(GroupIds(ex.groups), cd.groups.values, gidRange).Ok?
                     && forall g :: g in both ==> cd.groups.values[g].gid == ex.groups.values[g].gid)
      && (r.Ok? ==> r.value.groupModArgs == [])
      && (r.Err? ==> r.error == TypeError(IndexOfUndefined) || r.error.GidChange?)
  {
    var both := Present(cd.groups.keys, ex.groups.values);
    Plan.GroupPhase(both, cd.groups.values, ex.groups.values);
    Plan.GidChangesOutcome(both, cd.groups.values, ex.groups.values);
  }

  /** With both directories keyed by name and `newUsers` read by element,
      the user phase fails only on an absent uid range with an unconfigured
      live user, or on the first configured user whose uid changed or whose
      changed primary group is not configured; otherwise the modification
      arguments are the reference ones. */
  lemma UserOutcome(cd: Configured, ex: Existing, uidRange: Option<LegacySchema.Range>, sshKeys: Dict<seq<string>>)
    requires Coherent(cd) && Valid(ex.users) && Keyed(cd, ex)
    requires forall u :: u in ex.users.values ==> u in sshKeys.values
    ensures var r := UserChangesOf(Plan.ElementTest, cd, ex, uidRange, sshKeys);
      var expected := Plan.ExpectedUserArgs(cd.users.keys, cd.users.values, ex.users.values, cd.groups.values);
      && (r.Ok? <==> Deletions(UserIds(ex.users), cd.users.values, uidRange).Ok? && expected.Ok?)
      && (r.Err? ==> r.error == TypeError(IndexOfUndefined) || r.error.UidChange? || r.error.DanglingPrimaryGroup?)
      && (r.Ok? ==> r.value.userModArgs == expected.value)
  {
    var names := cd.users.keys;
    var newUsers := Missing(names, ex.users.values);
    Plan.UserPhase(names, newUsers, cd.users.values, ex.users.values, cd.groups.values);
    Plan.KeyPhase(cd.sshKeys.keys, newUsers, sshKeys.values, cd.sshKeys.values);
    Plan.ExpectedErrors(names, cd.users.values, ex.users.values, cd.groups.values);
  }

  /** Read by element, the key updates are the live configured users whose
      key lists differ, and the passwords to set are those of configured
      users whose password differs and that are new or always updated. */
  lemma UserSettings(cd: Configured, ex: Existing, uidRange: Option<LegacySchema.Range>, sshKeys: Dict<seq<string>>)
    requires Coherent(cd) && Valid(ex.users)
    requires forall u :: u in ex.users.values ==> u in sshKeys.values
    requires UserChangesOf(Plan.ElementTest, cd, ex, uidRange, sshKeys).Ok?
    ensures var c := UserChangesOf(Plan.ElementTest, cd, ex, uidRange, sshKeys).value;
      && (forall u :: u in c.requiresSSHKeyUpdate <==>
            u in cd.users.values && u in ex.users.values && sshKeys.values[u] != cd.sshKeys.values[u])
      && (forall u :: u in c.passwordsToSet <==>
            && u in cd.users.values
            && !(u in ex.passwords.values && ex.passwords.values[u] == Some(cd.passwords.values[u]))
            && (u !in ex.users.values || cd.updatePassword.values[u] == LegacySchema.Always))
  {
    var newUsers := Missing(cd.users.keys, ex.users.values);
    Plan.KeyPhase(cd.sshKeys.keys, newUsers, sshKeys.values, cd.sshKeys.values);
  }

  /** As written, `u in newUsers` asks for a property key of the array, so a
      configured user that is not live and whose name is neither "length"
      nor a canonical decimal is not recognised as new: `diffProperties`
      then reads the keys of its `undefined` live record, and the user phase
      throws. */
  lemma AsWrittenNewUserFails(cd: Configured, ex: Existing, uidRange: Option<LegacySchema.Range>,
                              sshKeys: Dict<seq<string>>, u: string)
    requires Coherent(cd) && Valid(ex.users)
    requires u in cd.users.values && u !in ex.users.values && u != "length" && !IsCanonical(u)
    ensures UserChangesOf(Plan.IndexKeyTest, cd, ex, uidRange, sshKeys).Err?
    ensures Deletions(UserIds(ex.users), cd.users.values, uidRange).Ok? ==>
      UserChangesOf(Plan.IndexKeyTest, cd, ex, uidRange, sshKeys).error == TypeError(KeysOfNullish)
  {
    var newUsers := Missing(cd.users.keys, ex.users.values);
    Plan.UserDiffsFail(cd.users.keys, Plan.IndexKeyTest, newUsers, cd.users.values, ex.users.values);
    assert !Plan.InNewUsers(Plan.IndexKeyTest, u, newUsers);
  }

  /** The whole run: load and validate the configuration, read the live
      directory from the text of /etc/passwd, /etc/shadow and /etc/group,
      read each live user's authorized keys from `files`, and compute the
      change set. */
  function ProvisionPlan(test: Plan.MembershipTest, doc: Value, passwd: string, shadow: string, group: string,
                         files: map<string, string>)
    : (r: Result<ChangeSet>)
    requires WellFormed(passwd, group)
    ensures !JsonSchema.Accepts(doc, LegacySchema.ConfigSchema) ==> r == Err(InvalidConfig)
    ensures JsonSchema.Accepts(doc, LegacySchema.ConfigSchema) && GetExistingDirectory(passwd, shadow, group).Err? ==>
      r.Err? && r.error.CountMismatch?
  {
    var config :- LegacySchema.Load(doc);
    var ex :- GetExistingDirectory(passwd, shadow, group);
    var sshKeys := GetSSHKeys(ex.users.keys, config.sshKeyBaseDir, files);
    ChangeSetOf(test, config, ex, sshKeys)
  }

  /** One configured user "alice", nothing live: as written the run throws
      where it should create her and set her password. */
  function AliceOnly(): (cd: Configured)
    ensures Coherent(cd)
  {
    var alice := UserRecord("alice", 1000, Some("alice"), [], Some("/bin/bash"));
    Configured(Empty(), Dict(["alice"], map["alice" := alice]), Dict(["alice"], map["alice" := "secret"]),
               Dict(["alice"], map["alice" := []]), Dict(["alice"], map["alice" := LegacySchema.OnCreate]))
  }

  lemma NewUserExample()
    ensures var ex := Existing(Empty(), Empty(), Empty());
      && UserChangesOf(Plan.IndexKeyTest, AliceOnly(), ex, None, Empty()) == Err(TypeError(KeysOfNullish))
      && UserChangesOf(Plan.ElementTest, AliceOnly(), ex, None, Empty())
         == Ok(UserChanges(["alice"], [], [], [], ["alice"]))
  {
    var ex := Existing(Empty(), Empty(), Empty());
    AsWrittenNewUserFails(AliceOnly(), ex, None, Empty(), "alice");
    assert !IsCanonical("alice") by { assert !IsDigit('a'); }
    var cd := AliceOnly();
    var newUsers := Missing(cd.users.keys, ex.users.values);
    assert newUsers == ["alice"];
    assert Deletions(UserIds(ex.users), cd.users.values, None) == Ok([]);
    assert Plan.UserDiffs(cd.users.keys, Plan.ElementTest, newUsers, cd.users.values, ex.users.values) == Ok([]);
    assert Plan.KeyUpdates(cd.sshKeys.keys, Plan.ElementTest, newUsers, map[], cd.sshKeys.values) == Ok([]);
    assert Plan.PasswordsToSet(cd.passwords.keys, Plan.ElementTest, newUsers, cd.passwords.values, map[],
                               cd.updatePassword.values) == ["alice"];
  }

  /** A loaded configuration is coherent and keyed by name. */
  lemma ConfiguredKeyed(config: LegacySchema.Config)
    ensures var cd := GetConfiguredDirectory(config);
      && Coherent(cd)
      && (forall g :: g in cd.groups.values ==> cd.groups.values[g].groupname == g)
      && (forall u :: u in cd.users.values ==> cd.users.values[u].username == u)
  {
    ConfiguredCoherent(config);
    ConfiguredGroups(config);
    ConfiguredUsersKeyed(config);
  }

  /** A live directory read from well-formed files is keyed by name. */
  lemma ExistingKeyed(passwd: string, shadow: string, group: string)
    requires WellFormed(passwd, group) && GetExistingDirectory(passwd, shadow, group).Ok?
    ensures var ex := GetExistingDirectory(passwd, shadow, group).value;
      && Valid(ex.users) && Valid(ex.groups)
      && (forall g :: g in ex.groups.values ==> ex.groups.values[g].groupname == g)
      && (forall u :: u in ex.users.values ==> ex.users.values[u].username == u)
  {
    var ex := GetExistingDirectory(passwd, shadow, group).value;
    assert ex.groups == ParseGroups(group);
    assert ex.users == FromEntries(PasswdEntries(Lines(passwd), Values(ParseGroups(group))));
    LiveGroupsKeyed(group);
    LiveUsersKeyed(passwd, Values(ParseGroups(group)));
  }

  /** Read by element, over keyed directories and with a key list for every
      live user, the change set fails only on an absent id range with an
      unconfigured live entry, or on a refused uid, gid or primary group
      change; and no group is modified. */
  lemma CorrectedChangeSet(config: LegacySchema.Config, ex: Existing, sshKeys: Dict<seq<string>>)
    requires Valid(ex.users) && Valid(ex.groups) && Keyed(GetConfiguredDirectory(config), ex)
    requires forall u :: u in ex.users.values ==> u in sshKeys.values
    ensures var r := ChangeSetOf(Plan.ElementTest, config, ex, sshKeys);
      && (r.Err? ==> || r.error == TypeError(IndexOfUndefined)
                     || r.error.GidChange? || r.error.UidChange? || r.error.DanglingPrimaryGroup?)
      && (r.Ok? ==> r.value.groups.groupModArgs == [])
  {
    var cd := GetConfiguredDirectory(config);
    ConfiguredCoherent(config);
    GroupOutcome(cd, ex, config.gidRange);
    UserOutcome(cd, ex, config.uidRange, sshKeys);
  }

  /** Read by element, a whole run fails only on an invalid configuration,
      on mismatched passwd and shadow files, on an absent id range with an
      unconfigured live entry, or on a refused uid, gid or primary group
      change; and it never modifies a group. */
  lemma CorrectedPlan(doc: Value, passwd: string, shadow: string, group: string, files: map<string, string>)
    requires WellFormed(passwd, group)
    ensures var r := ProvisionPlan(Plan.ElementTest, doc, passwd, shadow, group, files);
      && (r.Err? ==> || r.error == InvalidConfig || r.error.CountMismatch?
                     || r.error == TypeError(IndexOfUndefined)
                     || r.error.GidChange? || r.error.UidChange? || r.error.DanglingPrimaryGroup?)
      && (r.Ok? ==> r.value.groups.groupModArgs == [])
  {
    var config := LegacySchema.Load(doc);
    var ex := GetExistingDirectory(passwd, shadow, group);
    if config.Ok? && ex.Ok? {
      ConfiguredKeyed(config.value);
      ExistingKeyed(passwd, shadow, group);
      SSHKeysKeys(ex.value.users.keys, config.value.sshKeyBaseDir, files);
      var sshKeys := GetSSHKeys(ex.value.users.keys, config.value.sshKeyBaseDir, files);
      CorrectedChangeSet(config.value, ex.value, sshKeys);
      assert ProvisionPlan(Plan.ElementTest, doc, passwd, shadow, group, files)
        == ChangeSetOf(Plan.ElementTest, config.value, ex.value, sshKeys);
    }
  }
}
