/** `getConfiguredDirectory` (src/utils.mjs:66-82): a loaded configuration
    keyed by name. */
module ConfiguredDirectory {
  import opened Results
  import opened Text
  import opened Dicts
  import opened Records
  import LegacySchema

  /** The configuration keyed by name. */
  datatype Configured = Configured(
    groups: Dict<LegacySchema.Group>,
    users: Dict<UserRecord>,
    passwords: Dict<string>,
    sshKeys: Dict<seq<string>>,
    updatePassword: Dict<LegacySchema.UpdatePolicy>)

  /** A configured user without `password`, `update_password` and
      `ssh_authorized_keys`, its additional groups sorted. */
  function ConfiguredUser(u: LegacySchema.User): (r: UserRecord)
    ensures r.username == u.username && r.uid == u.uid
    ensures r.primaryGroup == Some(u.primaryGroup) && r.shell == Some(u.shell)
    ensures Sorted(r.additionalGroups) && multiset(r.additionalGroups) == multiset(u.additionalGroups)
  {
    UserRecord(u.username, u.uid, Some(u.primaryGroup), SortStrings(u.additionalGroups), Some(u.shell))
  }

  /** The entries `[u.username, ...]` of the user list, one list per dictionary. */
  function UserEntries(us: seq<LegacySchema.User>): (e: seq<(string, UserRecord)>)
    ensures |e| == |us|
    ensures forall i :: 0 <= i < |us| ==> e[i] == (us[i].username, ConfiguredUser(us[i]))
  {
    seq(|us|, i requires 0 <= i < |us| => (us[i].username, ConfiguredUser(us[i])))
  }

  function PasswordEntries(us: seq<LegacySchema.User>): (e: seq<(string, string)>)
    ensures |e| == |us|
    ensures forall i :: 0 <= i < |us| ==> e[i] == (us[i].username, us[i].password)
  {
    seq(|us|, i requires 0 <= i < |us| => (us[i].username, us[i].password))
  }

  function KeyEntries(us: seq<LegacySchema.User>): (e: seq<(string, seq<string>)>)
    ensures |e| == |us|
    ensures forall i :: 0 <= i < |us| ==> e[i] == (us[i].username, us[i].sshAuthorizedKeys)
  {
    seq(|us|, i requires 0 <= i < |us| => (us[i].username, us[i].sshAuthorizedKeys))
  }

  function PolicyEntries(us: seq<LegacySchema.User>): (e: seq<(string, LegacySchema.UpdatePolicy)>)
    ensures |e| == |us|
    ensures forall i :: 0 <= i < |us| ==> e[i] == (us[i].username, us[i].updatePassword)
  {
    seq(|us|, i requires 0 <= i < |us| => (us[i].username, us[i].updatePassword))
  }

  function ByGroupname(gs: seq<LegacySchema.Group>): (e: seq<(string, LegacySchema.Group)>)
    ensures |e| == |gs|
    ensures forall i :: 0 <= i < |gs| ==> e[i] == (gs[i].groupname, gs[i])
  {
    seq(|gs|, i requires 0 <= i < |gs| => (gs[i].groupname, gs[i]))
  }

  /** `getConfiguredDirectory(config)`. */
  function GetConfiguredDirectory(c: LegacySchema.Config): (d: Configured)
  {
    Configured(
      FromEntries(ByGroupname(c.groups)),
      FromEntries(UserEntries(c.users)),
      FromEntries(PasswordEntries(c.users)),
      FromEntries(KeyEntries(c.users)),
      FromEntries(PolicyEntries(c.users)))
  }

  /** Groups are keyed by their names, and every key names a configured group. */
  lemma ConfiguredGroups(c: LegacySchema.Config)
    ensures var d := GetConfiguredDirectory(c);
      && Valid(d.groups)
      && (forall g :: g in d.groups.values <==> exists i :: 0 <= i < |c.groups| && c.groups[i].groupname == g)
      && (forall g :: g in d.groups.values ==> d.groups.values[g].groupname == g && d.groups.values[g] in c.groups)
  {
    var e := ByGroupname(c.groups);
    var d := FromEntries(e);
    forall g | g in d.values
      ensures d.values[g].groupname == g && d.values[g] in c.groups
    {
      FromEntriesFrom(e, g);
      var i :| 0 <= i < |e| && e[i] == (g, d.values[g]);
    }
    forall g | exists i :: 0 <= i < |c.groups| && c.groups[i].groupname == g
      ensures g in d.values
    {
      var i :| 0 <= i < |c.groups| && c.groups[i].groupname == g;
      assert e[i].0 == g;
    }
  }

  /** The four user dictionaries have the same keys, in the same order. */
  lemma ConfiguredUserKeys(c: LegacySchema.Config)
    ensures var d := GetConfiguredDirectory(c);
      && d.passwords.keys == d.users.keys && d.sshKeys.keys == d.users.keys
      && d.updatePassword.keys == d.users.keys
  {
    var e := UserEntries(c.users);
    FromEntriesKeys(PasswordEntries(c.users), e);
    FromEntriesKeys(KeyEntries(c.users), e);
    FromEntriesKeys(PolicyEntries(c.users), e);
  }

  /** Those keys are the configured usernames. */
  lemma ConfiguredUserNames(c: LegacySchema.Config)
    ensures var d := GetConfiguredDirectory(c);
      forall u :: u in d.users.keys <==> exists i :: 0 <= i < |c.users| && c.users[i].username == u
  {
    var e := UserEntries(c.users);
    forall u | exists i :: 0 <= i < |c.users| && c.users[i].username == u
      ensures u in FromEntries(e).values
    {
      var i :| 0 <= i < |c.users| && c.users[i].username == u;
      assert e[i].0 == u;
    }
  }

  /** The last configured user of a name supplies that name's record and password. */
  lemma ConfiguredUserEntry(c: LegacySchema.Config, i: nat)
    requires i < |c.users|
    requires forall j :: i < j < |c.users| ==> c.users[j].username != c.users[i].username
    ensures var d := GetConfiguredDirectory(c); var u := c.users[i];
      && u.username in d.users.values && d.users.values[u.username] == ConfiguredUser(u)
      && u.username in d.passwords.values && d.passwords.values[u.username] == u.password
  {
    FromEntriesLastWins(UserEntries(c.users), i);
    FromEntriesLastWins(PasswordEntries(c.users), i);
  }

  /** ... and that name's SSH keys and password update policy. */
  lemma ConfiguredUserSettings(c: LegacySchema.Config, i: nat)
    requires i < |c.users|
    requires forall j :: i < j < |c.users| ==> c.users[j].username != c.users[i].username
    ensures var d := GetConfiguredDirectory(c); var u := c.users[i];
      && u.username in d.sshKeys.values && d.sshKeys.values[u.username] == u.sshAuthorizedKeys
      && u.username in d.updatePassword.values && d.updatePassword.values[u.username] == u.updatePassword
  {
    FromEntriesLastWins(KeyEntries(c.users), i);
    FromEntriesLastWins(PolicyEntries(c.users), i);
  }

  /** Every configured user record is keyed by its own username. */
  lemma ConfiguredUsersKeyed(c: LegacySchema.Config)
    ensures var d := GetConfiguredDirectory(c);
      forall u :: u in d.users.values ==> d.users.values[u].username == u
  {
    var e := UserEntries(c.users);
    var d := FromEntries(e);
    forall u | u in d.values
      ensures d.values[u].username == u
    {
      FromEntriesFrom(e, u);
      var i :| 0 <= i < |e| && e[i] == (u, d.values[u]);
    }
  }
}
