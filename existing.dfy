/** `getExistingDirectory` (src/utils.mjs:84-152) over the text of
    /etc/passwd, /etc/shadow and /etc/group, laid out as passwd(5), shadow(5)
    and group(5) describe. */
module ExistingDirectory {
  import opened Results
  import opened Text
  import opened Dicts
  import opened Records

  /** A field that `Number` reads as a whole number: decimal digits only (the
      empty string reads as 0). */
  predicate Numeric(s: string)
  {
    forall i :: 0 <= i < |s| ==> IsDigit(s[i])
  }

  /** `t[i]` of a split line: `undefined` past the last field. */
  function FieldAt(t: seq<string>, i: nat): (f: Option<string>)
    ensures f.Some? <==> i < |t|
  {
    if i < |t| then Some(t[i]) else None
  }

  /** A live group with its member list. */
  datatype LiveGroup = LiveGroup(groupname: string, gid: nat, users: seq<string>)

  /** An /etc/group line whose gid field `Number` can read. */
  predicate GroupLine(l: string)
  {
    var t := Split(l, ':');
    |t| >= 3 && Numeric(t[2])
  }

  /** An /etc/passwd line whose uid and gid fields `Number` can read. */
  predicate PasswdLine(l: string)
  {
    var t := Split(l, ':');
    |t| >= 4 && Numeric(t[2]) && Numeric(t[3])
  }

  /** The member field of an /etc/group line, `""` when it is missing. */
  function MemberField(l: string): string
  {
    var t := Split(l, ':');
    if |t| > 3 then t[3] else ""
  }

  /** `{groupname: t[0], gid: Number(t[2]), users: t[3] ? t[3].split(",") : []}`.
      The members joined with commas give back the member field, and an empty
      or missing member field gives no members. */
  function ParseGroup(l: string): (g: LiveGroup)
    requires GroupLine(l)
    ensures Join(g.users, ",") == MemberField(l)
    ensures forall m :: m in g.users ==> ',' !in m && ':' !in m
    ensures g.users == [] <==> MemberField(l) == ""
  {
    var t := Split(l, ':');
    var members := MemberField(l);
    assert ':' !in members;
    var users := if members != "" then Split(members, ',') else [];
    assert forall m :: m in users ==> ':' !in m by {
      if members != "" {
        forall m | m in users
          ensures ':' !in m
        {
          var k :| 0 <= k < |users| && users[k] == m;
          JoinedPart(users, ",", k);
        }
      }
    }
    LiveGroup(t[0], DigitsValue(t[2]), users)
  }

  /** A piece of a joined list is part of the joined text. */
  lemma {:induction false} JoinedPart(parts: seq<string>, sep: string, k: nat)
    requires k < |parts|
    ensures forall c :: c in parts[k] ==> c in Join(parts, sep)
  {
    if k > 0 {
      JoinedPart(parts[1..], sep, k - 1);
    }
  }

  /** The entries `[groupname, group]` of the group file's lines. */
  function GroupFileEntries(lines: seq<string>): (e: seq<(string, LiveGroup)>)
    requires forall l :: l in lines ==> GroupLine(l)
    ensures |e| == |lines|
    ensures forall i :: 0 <= i < |lines| ==> e[i] == (ParseGroup(lines[i]).groupname, ParseGroup(lines[i]))
  {
    seq(|lines|, i requires 0 <= i < |lines| => (ParseGroup(lines[i]).groupname, ParseGroup(lines[i])))
  }

  /** `groups`: the groups keyed by name, a later line of a name replacing an earlier one. */
  function ParseGroups(text: string): Dict<LiveGroup>
    requires forall l :: l in Lines(text) ==> GroupLine(l)
  {
    FromEntries(GroupFileEntries(Lines(text)))
  }

  /** Every live group is keyed by its own name, and the last line of a name supplies it. */
  lemma LiveGroupEntry(text: string, i: nat)
    requires forall l :: l in Lines(text) ==> GroupLine(l)
    requires i < |Lines(text)|
    requires forall j :: i < j < |Lines(text)| ==>
      Split(Lines(text)[j], ':')[0] != Split(Lines(text)[i], ':')[0]
    ensures var name := Split(Lines(text)[i], ':')[0];
      name in ParseGroups(text).values && ParseGroups(text).values[name] == ParseGroup(Lines(text)[i])
  {
    FromEntriesLastWins(GroupFileEntries(Lines(text)), i);
  }

  lemma LiveGroupsKeyed(text: string)
    requires forall l :: l in Lines(text) ==> GroupLine(l)
    ensures forall g :: g in ParseGroups(text).values ==> ParseGroups(text).values[g].groupname == g
  {
    var e := GroupFileEntries(Lines(text));
    forall g | g in FromEntries(e).values
      ensures FromEntries(e).values[g].groupname == g
    {
      FromEntriesFrom(e, g);
    }
  }

  /** `gidToGroupName`: each gid mapped to the name of the last group with that gid. */
  function GidNames(gs: seq<LiveGroup>): (m: map<nat, string>)
    ensures forall gid :: gid in m <==> exists i :: 0 <= i < |gs| && gs[i].gid == gid
  {
    if |gs| == 0 then map[]
    else
      var n := |gs| - 1;
      assert forall i :: 0 <= i < n ==> gs[..n][i] == gs[i];
      GidNames(gs[..n])[gs[n].gid := gs[n].groupname]
  }

  /** The primary group is the last group listing the gid. */
  lemma {:induction false} GidNamesLastWins(gs: seq<LiveGroup>, i: nat)
    requires i < |gs|
    requires forall j :: i < j < |gs| ==> gs[j].gid != gs[i].gid
    ensures gs[i].gid in GidNames(gs) && GidNames(gs)[gs[i].gid] == gs[i].groupname
  {
    var n := |gs| - 1;
    if i < n {
      assert forall j :: i < j < n ==> gs[..n][j] == gs[j];
      GidNamesLastWins(gs[..n], i);
    }
  }

  /** `n` copies of `x`. */
  function Repeat(x: string, n: nat): (r: seq<string>)
    ensures |r| == n
    ensures forall i :: 0 <= i < n ==> r[i] == x
  {
    seq(n, i => x)
  }

  /** The names of the groups whose member lists name `u`, in group order, a
      group once for each time it lists `u`. */
  function GroupsOf(gs: seq<LiveGroup>, u: string): seq<string>
  {
    if |gs| == 0 then []
    else
      var n := |gs| - 1;
      GroupsOf(gs[..n], u) + Repeat(gs[n].groupname, multiset(gs[n].users)[u])
  }

  /** A group is in `GroupsOf(gs, u)` exactly when it lists `u`. */
  lemma {:induction false} GroupsOfMembers(gs: seq<LiveGroup>, u: string, x: string)
    ensures x in GroupsOf(gs, u) <==> exists i :: 0 <= i < |gs| && gs[i].groupname == x && u in gs[i].users
  {
    if |gs| > 0 {
      var n := |gs| - 1;
      GroupsOfMembers(gs[..n], u, x);
      assert forall i :: 0 <= i < n ==> gs[..n][i] == gs[i];
      var r := Repeat(gs[n].groupname, multiset(gs[n].users)[u]);
      assert x in r <==> x == gs[n].groupname && u in gs[n].users by {
        if u in gs[n].users { assert r[0] == gs[n].groupname; }
      }
    }
  }

  /** Taking one more group into account. */
  lemma GroupsOfStep(gs: seq<LiveGroup>, i: nat, u: string)
    requires i < |gs|
    ensures GroupsOf(gs[..i + 1], u) == GroupsOf(gs[..i], u) + Repeat(gs[i].groupname, multiset(gs[i].users)[u])
  {
    assert gs[..i + 1][..i] == gs[..i];
  }

  /** A user that no group lists belongs to no group. */
  lemma {:induction false} GroupsOfNone(gs: seq<LiveGroup>, u: string)
    requires forall k :: 0 <= k < |gs| ==> u !in gs[k].users
    ensures GroupsOf(gs, u) == []
  {
    if |gs| > 0 {
      var n := |gs| - 1;
      assert forall k :: 0 <= k < n ==> gs[..n][k] == gs[k];
      GroupsOfNone(gs[..n], u);
    }
  }

  lemma RepeatSnoc(x: string, n: nat)
    ensures Repeat(x, n) + [x] == Repeat(x, n + 1)
  {
  }

  /** What a user's list holds after the groups in `acc` and `xs` mentions
      of it in one group named `name`. */
  ghost function Pushed(acc: map<string, seq<string>>, name: string, xs: seq<string>, u: string): seq<string>
  {
    (if u in acc then acc[u] else []) + Repeat(name, multiset(xs)[u])
  }

  lemma PushedSnoc(acc: map<string, seq<string>>, name: string, xs: seq<string>, x: string, v: string)
    ensures Pushed(acc, name, xs + [x], v) == if v == x then Pushed(acc, name, xs, v) + [name] else Pushed(acc, name, xs, v)
  {
    assert multiset(xs + [x]) == multiset(xs) + multiset{x};
    if v == x {
      RepeatSnoc(name, multiset(xs)[v]);
    }
  }

  /** The body of the `userToGroups` reducer for one group: each member gets
      the group's name pushed onto its list, which starts out empty. */
  method PushGroup(acc: map<string, seq<string>>, g: LiveGroup) returns (out: map<string, seq<string>>)
    ensures forall u :: u in out <==> u in acc || u in g.users
    ensures forall u :: u in out ==>
      out[u] == (if u in acc then acc[u] else []) + Repeat(g.groupname, multiset(g.users)[u])
  {
    out := acc;
    for j := 0 to |g.users|
      invariant forall u :: u in out <==> u in acc || u in g.users[..j]
      invariant forall u :: u in out ==> out[u] == Pushed(acc, g.groupname, g.users[..j], u)
    {
      var u := g.users[j];
      ghost var before := out;
      assert g.users[..j + 1] == g.users[..j] + [u];
      var old_list := if u in out then out[u] else [];
      out := out[u := old_list + [g.groupname]];
      forall v | v in out
        ensures out[v] == Pushed(acc, g.groupname, g.users[..j + 1], v)
      {
        PushedSnoc(acc, g.groupname, g.users[..j], u, v);
        if v == u && u !in before {
          assert multiset(g.users[..j])[u] == 0;
        }
      }
    }
    assert g.users[..|g.users|] == g.users;
  }

  /** `userToGroups`: for every user named in a member list, the groups naming
      it, in group order. */
  method UserToGroups(gs: seq<LiveGroup>) returns (out: map<string, seq<string>>)
    ensures forall u :: u in out <==> exists i :: 0 <= i < |gs| && u in gs[i].users
    ensures forall u :: u in out ==> out[u] == GroupsOf(gs, u)
  {
    out := map[];
    for i := 0 to |gs|
      invariant forall u :: u in out <==> exists k :: 0 <= k < i && u in gs[k].users
      invariant forall u :: u in out ==> out[u] == GroupsOf(gs[..i], u)
    {
      var acc := out;
      out := PushGroup(acc, gs[i]);
      forall u | u in out
        ensures out[u] == GroupsOf(gs[..i + 1], u)
      {
        GroupsOfStep(gs, i, u);
        if u !in acc {
          GroupsOfNone(gs[..i], u);
        }
      }
    }
    assert gs[..|gs|] == gs;
  }

  /** `xs.filter((g) => g !== p)`: with `p` undefined nothing is removed. */
  function Drop(xs: seq<string>, p: Option<string>): (r: seq<string>)
    ensures forall x :: x in r <==> x in xs && Some(x) != p
  {
    if p.Some? then
      var r := Without(xs, p.value);
      assert forall x :: x in r <==> x in multiset(r);
      r
    else xs
  }

  /** A live user's `additional_groups`: the sorted names of the groups that
      name the user in their member field, the primary group left out; `[]`
      when no group names the user. */
  function AdditionalGroups(gs: seq<LiveGroup>, u: string, primary: Option<string>): (r: seq<string>)
    ensures Sorted(r)
    ensures forall x :: x in r <==>
      (exists i :: 0 <= i < |gs| && gs[i].groupname == x && u in gs[i].users) && Some(x) != primary
    ensures (forall i :: 0 <= i < |gs| ==> u !in gs[i].users) ==> r == []
  {
    var r := SortStrings(Drop(GroupsOf(gs, u), primary));
    assert forall x :: x in r <==> x in multiset(r);
    assert forall x :: x in GroupsOf(gs, u) <==> x in multiset(GroupsOf(gs, u));
    forall x
      ensures x in GroupsOf(gs, u) <==> exists i :: 0 <= i < |gs| && gs[i].groupname == x && u in gs[i].users
    {
      GroupsOfMembers(gs, u, x);
    }
    assert (forall i :: 0 <= i < |gs| ==> u !in gs[i].users) ==> r == [] by {
      if r != [] { assert r[0] in r; }
    }
    r
  }

  /** A user of /etc/passwd: `username` is field 1, `uid` field 3,
      `primary_group` the name of the group whose gid is field 4, and `shell`
      field 7. */
  function LiveUser(l: string, gs: seq<LiveGroup>): UserRecord
    requires PasswdLine(l)
  {
    var t := Split(l, ':');
    var gid := DigitsValue(t[3]);
    var names := GidNames(gs);
    var primary := if gid in names then Some(names[gid]) else None;
    UserRecord(t[0], DigitsValue(t[2]), primary, AdditionalGroups(gs, t[0], primary), FieldAt(t, 6))
  }

  /** A live user's primary group is missing exactly when no group has the
      gid in field 4; otherwise it is the name of the last group with that gid. */
  lemma LivePrimaryGroup(l: string, gs: seq<LiveGroup>)
    requires PasswdLine(l)
    ensures var gid := DigitsValue(Split(l, ':')[3]); var p := LiveUser(l, gs).primaryGroup;
      && (p.None? <==> forall i :: 0 <= i < |gs| ==> gs[i].gid != gid)
      && (p.Some? ==> exists i :: 0 <= i < |gs| && gs[i].gid == gid && gs[i].groupname == p.value
                                 && forall j :: i < j < |gs| ==> gs[j].gid != gid)
  {
    var gid := DigitsValue(Split(l, ':')[3]);
    var p := LiveUser(l, gs).primaryGroup;
    if p.Some? {
      LastWithGid(gs, gid);
    }
  }

  /** The group that `GidNames` maps a gid to is the last group with that gid. */
  lemma {:induction false} LastWithGid(gs: seq<LiveGroup>, gid: nat)
    requires gid in GidNames(gs)
    ensures exists i :: 0 <= i < |gs| && gs[i].gid == gid && gs[i].groupname == GidNames(gs)[gid]
                        && forall j :: i < j < |gs| ==> gs[j].gid != gid
  {
    var n := |gs| - 1;
    var m := GidNames(gs[..n]);
    assert GidNames(gs) == m[gs[n].gid := gs[n].groupname];
    if gs[n].gid != gid {
      LastWithGid(gs[..n], gid);
      var i :| 0 <= i < n && gs[..n][i].gid == gid && gs[..n][i].groupname == m[gid]
               && forall j :: i < j < n ==> gs[..n][j].gid != gid;
      assert gs[i] == gs[..n][i];
      forall j | i < j < |gs|
        ensures gs[j].gid != gid
      {
        if j < n {
          assert gs[j] == gs[..n][j];
        }
      }
    }
  }

  /** The entries `[username, user]` of the passwd file's lines. */
  function PasswdEntries(lines: seq<string>, gs: seq<LiveGroup>): (e: seq<(string, UserRecord)>)
    requires forall l :: l in lines ==> PasswdLine(l)
    ensures |e| == |lines|
    ensures forall i :: 0 <= i < |lines| ==> e[i] == (Split(lines[i], ':')[0], LiveUser(lines[i], gs))
  {
    seq(|lines|, i requires 0 <= i < |lines| => (Split(lines[i], ':')[0], LiveUser(lines[i], gs)))
  }

  /** The entries `[username, password]` of the shadow file's lines; the
      password is missing when the line has no second field. */
  function ShadowEntries(lines: seq<string>): (e: seq<(string, Option<string>)>)
    ensures |e| == |lines|
    ensures forall i :: 0 <= i < |lines| ==> e[i] == (Split(lines[i], ':')[0], FieldAt(Split(lines[i], ':'), 1))
  {
    seq(|lines|, i requires 0 <= i < |lines| => (Split(lines[i], ':')[0], FieldAt(Split(lines[i], ':'), 1)))
  }

  /** The distinct first fields of some lines. */
  function LineNames(lines: seq<string>): set<string>
  {
    set l | l in lines :: Split(l, ':')[0]
  }

  /** The live directory. */
  datatype Existing = Existing(users: Dict<UserRecord>, passwords: Dict<Option<string>>, groups: Dict<LiveGroup>)

  predicate WellFormed(passwd: string, group: string)
  {
    && (forall l :: l in Lines(passwd) ==> PasswdLine(l))
    && (forall l :: l in Lines(group) ==> GroupLine(l))
  }

  /** `getExistingDirectory()` over the text of /etc/passwd, /etc/shadow and
      /etc/group: blank lines are skipped, and it fails with "user and password
      lists don't match up!" exactly when the two files hold different numbers
      of distinct usernames. */
  function GetExistingDirectory(passwd: string, shadow: string, group: string): (r: Result<Existing>)
    requires WellFormed(passwd, group)
    ensures r.Err? <==> |LineNames(Lines(passwd))| != |LineNames(Lines(shadow))|
    ensures r.Err? ==> r.error.CountMismatch?
    ensures r.Ok? ==> r.value.groups == ParseGroups(group)
    ensures r.Ok? ==> r.value.users == FromEntries(PasswdEntries(Lines(passwd), Values(ParseGroups(group))))
    ensures r.Ok? ==> r.value.passwords == FromEntries(ShadowEntries(Lines(shadow)))
  {
    var groups := ParseGroups(group);
    var gs := Values(groups);
    var ue := PasswdEntries(Lines(passwd), gs);
    var se := ShadowEntries(Lines(shadow));
    var users := FromEntries(ue);
    var passwords := FromEntries(se);
    EntryCount(ue, Lines(passwd));
    EntryCount(se, Lines(shadow));
    if |users.keys| != |passwords.keys| then Err(CountMismatch(users.keys, passwords.keys))
    else Ok(Existing(users, passwords, groups))
  }

  /** A dictionary built from one entry per line, keyed by the line's first
      field, has one key per distinct first field. */
  lemma EntryCount<V>(e: seq<(string, V)>, lines: seq<string>)
    requires |e| == |lines|
    requires forall i :: 0 <= i < |lines| ==> e[i].0 == Split(lines[i], ':')[0]
    ensures |FromEntries(e).keys| == |LineNames(lines)|
  {
    var d := FromEntries(e);
    KeyCount(d);
    forall k | k in LineNames(lines)
      ensures k in d.values
    {
      var l :| l in lines && Split(l, ':')[0] == k;
      var i :| 0 <= i < |lines| && lines[i] == l;
      assert e[i].0 == k;
    }
    forall k | k in d.values
      ensures k in LineNames(lines)
    {
      var i :| 0 <= i < |e| && e[i].0 == k;
      assert lines[i] in lines;
    }
    assert d.values.Keys == LineNames(lines);
  }

  /** The last passwd line of a name describes that user. */
  lemma LiveUserEntry(passwd: string, gs: seq<LiveGroup>, i: nat)
    requires forall l :: l in Lines(passwd) ==> PasswdLine(l)
    requires i < |Lines(passwd)|
    requires forall j :: i < j < |Lines(passwd)| ==>
      Split(Lines(passwd)[j], ':')[0] != Split(Lines(passwd)[i], ':')[0]
    ensures var name := Split(Lines(passwd)[i], ':')[0]; var d := FromEntries(PasswdEntries(Lines(passwd), gs));
      name in d.values && d.values[name] == LiveUser(Lines(passwd)[i], gs)
  {
    FromEntriesLastWins(PasswdEntries(Lines(passwd), gs), i);
  }

  /** Every live user record is keyed by its own username. */
  lemma LiveUsersKeyed(passwd: string, gs: seq<LiveGroup>)
    requires forall l :: l in Lines(passwd) ==> PasswdLine(l)
    ensures var d := FromEntries(PasswdEntries(Lines(passwd), gs));
      forall u :: u in d.values ==> d.values[u].username == u
  {
    var e := PasswdEntries(Lines(passwd), gs);
    forall u | u in FromEntries(e).values
      ensures FromEntries(e).values[u].username == u
    {
      FromEntriesFrom(e, u);
    }
  }

  /** The last shadow line of a name gives that user's password field. */
  lemma LivePasswordEntry(shadow: string, i: nat)
    requires i < |Lines(shadow)|
    requires forall j :: i < j < |Lines(shadow)| ==>
      Split(Lines(shadow)[j], ':')[0] != Split(Lines(shadow)[i], ':')[0]
    ensures var t := Split(Lines(shadow)[i], ':'); var d := FromEntries(ShadowEntries(Lines(shadow)));
      t[0] in d.values && d.values[t[0]] == FieldAt(t, 1)
  {
    FromEntriesLastWins(ShadowEntries(Lines(shadow)), i);
  }
}
