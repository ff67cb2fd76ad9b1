/** The configuration schema the provisioner's entry point validates against
    (src/utils.mjs), and the typed configuration a valid document denotes. */
module LegacySchema {
  import opened Results
  import opened JsObjects
  import opened JsonSchema

  const DefaultShell: string := "/bin/bash"
  const DefaultKeyBaseDir: string := "/home"

  const UserSchema: Schema := Object(
    [ Property("username", StringType, None),
      Property("password", StringType, None),
      Property("update_password", Enum(["always", "on_create"]), None),
      Property("uid", NumberType, None),
      Property("primary_group", StringType, None),
      Property("additional_groups", ArrayOf(StringType, true, 0, None), Some(Arr([]))),
      Property("shell", StringType, Some(Str(DefaultShell))),
      Property("ssh_authorized_keys", ArrayOf(StringType, false, 0, None), Some(Arr([]))) ],
    ["username", "password", "update_password", "uid", "primary_group"])

  const GroupSchema: Schema := Object(
    [ Property("groupname", StringType, None),
      Property("gid", NumberType, None) ],
    ["groupname", "gid"])

  const RangeSchema: Schema := ArrayOf(NumberType, false, 2, Some(2))

  const ConfigSchema: Schema := Object(
    [ Property("users", ArrayOf(UserSchema, false, 0, None), None),
      Property("groups", ArrayOf(GroupSchema, false, 0, None), None),
      Property("managed_uid_range", RangeSchema, None),
      Property("managed_gid_range", RangeSchema, None),
      Property("user_ssh_key_base_dir", StringType, Some(Str(DefaultKeyBaseDir))) ],
    ["users", "groups"])

  /* ---------------------------------------------------------------------- */
  /* the configuration a valid document denotes                             */
  /* ---------------------------------------------------------------------- */

  /** `update_password`: re-set the password on every run, or only when creating the user. */
  datatype UpdatePolicy = Always | OnCreate

  datatype User = User(
    username: string,
    password: string,
    updatePassword: UpdatePolicy,
    uid: int,
    primaryGroup: string,
    additionalGroups: seq<string>,
    shell: string,
    sshAuthorizedKeys: seq<string>)

  datatype Group = Group(groupname: string, gid: int)

  /** `[lo, hi]`, both ends included. */
  datatype Range = Range(lo: int, hi: int)

  datatype Config = Config(
    users: seq<User>,
    groups: seq<Group>,
    uidRange: Option<Range>,
    gidRange: Option<Range>,
    sshKeyBaseDir: string)

  function DecodeStrings(v: Value, unique: bool): (r: seq<string>)
    requires Validates(v, ArrayOf(StringType, unique, 0, None))
    ensures StrArray(r) == v
  {
    assert forall i :: 0 <= i < |v.items| ==> Validates(v.items[i], StringType);
    StringsOf(v)
  }

  /** The typed user a valid user entry denotes; an absent optional field
      reads as its default. */
  function DecodeUser(u: Value): (user: User)
    requires Validates(u, UserSchema)
    ensures Field(u, "username") == Str(user.username)
    ensures Field(u, "password") == Str(user.password)
    ensures Field(u, "uid") == Num(user.uid)
    ensures Field(u, "primary_group") == Str(user.primaryGroup)
    ensures user.updatePassword == Always <==> Field(u, "update_password") == Str("always")
    ensures user.updatePassword == OnCreate <==> Field(u, "update_password") == Str("on_create")
    ensures Field(u, "additional_groups") == if "additional_groups" in Names(u.props) then StrArray(user.additionalGroups) else Undefined
    ensures "additional_groups" !in Names(u.props) ==> user.additionalGroups == []
    ensures Distinct(user.additionalGroups)
    ensures Field(u, "shell") == if "shell" in Names(u.props) then Str(user.shell) else Undefined
    ensures "shell" !in Names(u.props) ==> user.shell == DefaultShell
    ensures Field(u, "ssh_authorized_keys") == if "ssh_authorized_keys" in Names(u.props) then StrArray(user.sshAuthorizedKeys) else Undefined
    ensures "ssh_authorized_keys" !in Names(u.props) ==> user.sshAuthorizedKeys == []
  {
    UserFieldTypes(u);
    var groups := if "additional_groups" in Names(u.props) then DecodeStrings(Field(u, "additional_groups"), true) else [];
    assert Distinct(groups) by {
      if "additional_groups" in Names(u.props) {
        UniqueStrings(Field(u, "additional_groups"));
      }
    }
    User(
      Field(u, "username").s,
      Field(u, "password").s,
      if Field(u, "update_password").s == "always" then Always else OnCreate,
      Field(u, "uid").n,
      Field(u, "primary_group").s,
      groups,
      if "shell" in Names(u.props) then Field(u, "shell").s else DefaultShell,
      if "ssh_authorized_keys" in Names(u.props) then DecodeStrings(Field(u, "ssh_authorized_keys"), false) else [])
  }

  /** The types of the fields of a valid user entry. */
  lemma UserFieldTypes(u: Value)
    requires Validates(u, UserSchema)
    ensures u.Obj?
    ensures Field(u, "username").Str? && Field(u, "password").Str?
    ensures Field(u, "update_password").Str? && Field(u, "update_password").s in ["always", "on_create"]
    ensures Field(u, "uid").Num? && Field(u, "primary_group").Str?
    ensures "additional_groups" in Names(u.props) ==>
      Validates(Field(u, "additional_groups"), ArrayOf(StringType, true, 0, None))
    ensures "shell" in Names(u.props) ==> Field(u, "shell").Str?
    ensures "ssh_authorized_keys" in Names(u.props) ==>
      Validates(Field(u, "ssh_authorized_keys"), ArrayOf(StringType, false, 0, None))
  {
    FieldValidates(u, UserSchema, 0);
    FieldValidates(u, UserSchema, 1);
    FieldValidates(u, UserSchema, 2);
    FieldValidates(u, UserSchema, 3);
    FieldValidates(u, UserSchema, 4);
    FieldValidates(u, UserSchema, 5);
    FieldValidates(u, UserSchema, 6);
    FieldValidates(u, UserSchema, 7);
  }

  /** An array validated with `uniqueItems` holds distinct strings. */
  lemma UniqueStrings(v: Value)
    requires Validates(v, ArrayOf(StringType, true, 0, None))
    ensures Distinct(DecodeStrings(v, true))
  {
    var xs := DecodeStrings(v, true);
    forall i, j | 0 <= i < j < |xs|
      ensures xs[i] != xs[j]
    {
      assert v.items[i] == Str(xs[i]) && v.items[j] == Str(xs[j]);
    }
  }

  function DecodeGroup(g: Value): (group: Group)
    requires Validates(g, GroupSchema)
    ensures Field(g, "groupname") == Str(group.groupname)
    ensures Field(g, "gid") == Num(group.gid)
  {
    FieldValidates(g, GroupSchema, 0);
    FieldValidates(g, GroupSchema, 1);
    Group(Field(g, "groupname").s, Field(g, "gid").n)
  }

  /** An absent range, or the two ends of a present one. */
  function DecodeRange(v: Value): (r: Option<Range>)
    requires v == Undefined || Validates(v, RangeSchema)
    ensures r.None? <==> v == Undefined
    ensures r.Some? ==> v == Arr([Num(r.value.lo), Num(r.value.hi)])
  {
    if v == Undefined then None else Some(Range(v.items[0].n, v.items[1].n))
  }

  function DecodeUsers(v: Value): (users: seq<User>)
    requires Validates(v, ArrayOf(UserSchema, false, 0, None))
    ensures |users| == |v.items|
    ensures forall i :: 0 <= i < |users| ==> Validates(v.items[i], UserSchema) && users[i] == DecodeUser(v.items[i])
  {
    seq(|v.items|, i requires 0 <= i < |v.items| => DecodeUser(v.items[i]))
  }

  function DecodeGroups(v: Value): (groups: seq<Group>)
    requires Validates(v, ArrayOf(GroupSchema, false, 0, None))
    ensures |groups| == |v.items|
    ensures forall i :: 0 <= i < |groups| ==> Validates(v.items[i], GroupSchema) && groups[i] == DecodeGroup(v.items[i])
  {
    seq(|v.items|, i requires 0 <= i < |v.items| => DecodeGroup(v.items[i]))
  }

  /** The typed configuration a valid document denotes. */
  function Decode(d: Value): Config
    requires Validates(d, ConfigSchema)
  {
    FieldValidates(d, ConfigSchema, 0);
    FieldValidates(d, ConfigSchema, 1);
    FieldValidates(d, ConfigSchema, 2);
    FieldValidates(d, ConfigSchema, 3);
    FieldValidates(d, ConfigSchema, 4);
    Config(
      DecodeUsers(Field(d, "users")),
      DecodeGroups(Field(d, "groups")),
      DecodeRange(Field(d, "managed_uid_range")),
      DecodeRange(Field(d, "managed_gid_range")),
      if "user_ssh_key_base_dir" in Names(d.props) then Field(d, "user_ssh_key_base_dir").s else DefaultKeyBaseDir)
  }

  /** `validateConfig(config)` followed by reading the (default-filled) document:
      an invalid document ends the run with "Invalid config". */
  function Load(doc: Value): (r: Result<Config>)
    ensures r.Err? <==> !Accepts(doc, ConfigSchema)
    ensures r.Err? ==> r.error == InvalidConfig
  {
    var d := ApplyDefaults(doc, ConfigSchema);
    if Validates(d, ConfigSchema) then Ok(Decode(d)) else Err(InvalidConfig)
  }

  /* ---------------------------------------------------------------------- */
  /* what a loaded configuration says about the document                     */
  /* ---------------------------------------------------------------------- */

  /** Pairwise distinct. */
  predicate Distinct(xs: seq<string>)
  {
    forall i, j :: 0 <= i < j < |xs| ==> xs[i] != xs[j]
  }

  /** A user entry accepted by the schema is closed and has the five required
      fields with the right types; `update_password` is "always" or "on_create". */
  lemma DefaultedUser(u: Value)
    requires Accepts(u, UserSchema)
    ensures u.Obj?
    ensures forall n :: n in Names(u.props) ==> n in PropertyNames(UserSchema.properties)
    ensures var user := DecodeUser(ApplyDefaults(u, UserSchema));
      && Field(u, "username") == Str(user.username)
      && Field(u, "password") == Str(user.password)
      && Field(u, "uid") == Num(user.uid)
      && Field(u, "primary_group") == Str(user.primaryGroup)
      && (user.updatePassword == Always <==> Field(u, "update_password") == Str("always"))
      && (user.updatePassword == OnCreate <==> Field(u, "update_password") == Str("on_create"))
  {
    AcceptedUserClosed(u);
    RequiredUnchanged(u, 0);
    RequiredUnchanged(u, 1);
    RequiredUnchanged(u, 2);
    RequiredUnchanged(u, 3);
    RequiredUnchanged(u, 4);
    assert UserSchema.properties[0].name == "username" && UserSchema.properties[1].name == "password";
    assert UserSchema.properties[2].name == "update_password" && UserSchema.properties[3].name == "uid";
    assert UserSchema.properties[4].name == "primary_group";
  }

  lemma AcceptedUserClosed(u: Value)
    requires Accepts(u, UserSchema)
    ensures u.Obj?
    ensures forall n :: n in Names(u.props) ==> n in PropertyNames(UserSchema.properties)
  {
    AcceptedObject(u, UserSchema);
    forall n | n in Names(u.props)
      ensures n in PropertyNames(UserSchema.properties)
    {
      DefaultedNames(u, UserSchema.properties, UserSchema.required, n);
    }
  }

  /** The required fields have no default and read the same after default filling. */
  lemma RequiredUnchanged(u: Value, i: nat)
    requires Accepts(u, UserSchema) && i < 5
    ensures u.Obj?
    ensures Field(ApplyDefaults(u, UserSchema), UserSchema.properties[i].name) == Field(u, UserSchema.properties[i].name)
  {
    AcceptedObject(u, UserSchema);
    var p := UserSchema.properties[i];
    assert p.default.None? && p.name in UserSchema.required;
    FieldValidates(ApplyDefaults(u, UserSchema), UserSchema, i);
    DefaultedUserField(u, i);
  }

  /** `additional_groups` defaults to no groups; the groups are distinct. */
  lemma DefaultedAdditionalGroups(u: Value)
    requires Accepts(u, UserSchema)
    ensures u.Obj?
    ensures var user := DecodeUser(ApplyDefaults(u, UserSchema));
      && Field(u, "additional_groups") == (if "additional_groups" in Names(u.props) then StrArray(user.additionalGroups) else Undefined)
      && ("additional_groups" !in Names(u.props) ==> user.additionalGroups == [])
      && Distinct(user.additionalGroups)
  {
    AcceptedObject(u, UserSchema);
    var d := ApplyDefaults(u, UserSchema);
    DefaultedUserField(u, 5);
    assert UserSchema.properties[5].name == "additional_groups";
    var user := DecodeUser(d);
    assert "additional_groups" in Names(d.props);
    assert Field(d, "additional_groups") == StrArray(user.additionalGroups);
    if "additional_groups" !in Names(u.props) {
      assert |StrArray(user.additionalGroups).items| == 0;
    }
  }

  /** `shell` defaults to `/bin/bash`. */
  lemma DefaultedShell(u: Value)
    requires Accepts(u, UserSchema)
    ensures u.Obj?
    ensures Str(DecodeUser(ApplyDefaults(u, UserSchema)).shell) ==
            if "shell" in Names(u.props) then Field(u, "shell") else Str(DefaultShell)
  {
    AcceptedObject(u, UserSchema);
    var d := ApplyDefaults(u, UserSchema);
    DefaultedUserField(u, 6);
    assert "shell" in Names(d.props);
    var user := DecodeUser(d);
    assert Field(d, "shell") == Str(user.shell);
  }

  /** `ssh_authorized_keys` defaults to no keys. */
  lemma DefaultedKeys(u: Value)
    requires Accepts(u, UserSchema)
    ensures u.Obj?
    ensures var user := DecodeUser(ApplyDefaults(u, UserSchema));
      && Field(u, "ssh_authorized_keys") == (if "ssh_authorized_keys" in Names(u.props) then StrArray(user.sshAuthorizedKeys) else Undefined)
      && ("ssh_authorized_keys" !in Names(u.props) ==> user.sshAuthorizedKeys == [])
  {
    AcceptedObject(u, UserSchema);
    var d := ApplyDefaults(u, UserSchema);
    DefaultedUserField(u, 7);
    assert UserSchema.properties[7].name == "ssh_authorized_keys";
    var user := DecodeUser(d);
    assert "ssh_authorized_keys" in Names(d.props);
    assert Field(d, "ssh_authorized_keys") == StrArray(user.sshAuthorizedKeys);
    if "ssh_authorized_keys" !in Names(u.props) {
      assert |StrArray(user.sshAuthorizedKeys).items| == 0;
    }
  }

  /** Default filling leaves a present user field as it is and supplies the
      schema's default for an absent one. */
  lemma DefaultedUserField(u: Value, i: nat)
    requires u.Obj? && i < |UserSchema.properties|
    ensures var p := UserSchema.properties[i];
      Field(ApplyDefaults(u, UserSchema), p.name) ==
        if p.name in Names(u.props) then Field(u, p.name)
        else if p.default.Some? then p.default.value
        else Undefined
    ensures var p := UserSchema.properties[i];
      p.name in Names(ApplyDefaults(u, UserSchema).props) <==> p.name in Names(u.props) || p.default.Some?
  {
    var p := UserSchema.properties[i];
    assert DistinctNames(UserSchema.properties);
    DefaultedField(u, UserSchema.properties, UserSchema.required, i);
    FlatDefaults(Field(u, p.name), p.schema);
    if p.default.Some? {
      FlatDefaults(p.default.value, p.schema);
    }
  }

  /** Default filling at the top level of the document. */
  lemma DefaultedConfigField(doc: Value, i: nat)
    requires doc.Obj? && i < |ConfigSchema.properties|
    ensures var p := ConfigSchema.properties[i];
      p.name in Names(ApplyDefaults(doc, ConfigSchema).props) <==> p.name in Names(doc.props) || p.default.Some?
    ensures var p := ConfigSchema.properties[i];
      Field(ApplyDefaults(doc, ConfigSchema), p.name) ==
        if p.name in Names(doc.props) then ApplyDefaults(Field(doc, p.name), p.schema)
        else if p.default.Some? then p.default.value
        else Undefined
  {
    var p := ConfigSchema.properties[i];
    assert DistinctNames(ConfigSchema.properties);
    DefaultedField(doc, ConfigSchema.properties, ConfigSchema.required, i);
    if p.default.Some? {
      FlatDefaults(p.default.value, p.schema);
    }
  }

  /** A loaded configuration has one user per entry of `users`, in order, each
      entry accepted by the user schema and decoded after its defaults are filled. */
  lemma LoadedUsers(doc: Value)
    requires Load(doc).Ok?
    ensures doc.Obj? && "users" in Names(doc.props) && Field(doc, "users").Arr?
    ensures var items := Field(doc, "users").items;
      && |Load(doc).value.users| == |items|
      && forall i :: 0 <= i < |items| ==>
           Accepts(items[i], UserSchema) && Load(doc).value.users[i] == DecodeUser(ApplyDefaults(items[i], UserSchema))
  {
    AcceptedObject(doc, ConfigSchema);
    var d := ApplyDefaults(doc, ConfigSchema);
    DefaultedConfigField(doc, 0);
    FieldValidates(d, ConfigSchema, 0);
    var v, dv := Field(doc, "users"), Field(d, "users");
    assert dv == ApplyDefaults(v, ArrayOf(UserSchema, false, 0, None));
    assert v.Arr?;
    assert Load(doc).value.users == DecodeUsers(dv);
    forall i | 0 <= i < |v.items|
      ensures Accepts(v.items[i], UserSchema)
      ensures Load(doc).value.users[i] == DecodeUser(ApplyDefaults(v.items[i], UserSchema))
    {
      assert dv.items[i] == ApplyDefaults(v.items[i], UserSchema);
    }
  }

  lemma DefaultedGroup(g: Value)
    requires g.Obj?
    ensures Field(ApplyDefaults(g, GroupSchema), "groupname") == Field(g, "groupname")
    ensures Field(ApplyDefaults(g, GroupSchema), "gid") == Field(g, "gid")
  {
    DefaultedField(g, GroupSchema.properties, GroupSchema.required, 0);
    DefaultedField(g, GroupSchema.properties, GroupSchema.required, 1);
  }

  /** A loaded configuration has one group per entry of `groups`, in order,
      with that entry's name and gid. */
  lemma LoadedGroups(doc: Value)
    requires Load(doc).Ok?
    ensures doc.Obj? && "groups" in Names(doc.props) && Field(doc, "groups").Arr?
    ensures var items := Field(doc, "groups").items;
      && |Load(doc).value.groups| == |items|
      && forall i :: 0 <= i < |items| ==>
           && Accepts(items[i], GroupSchema)
           && Field(items[i], "groupname") == Str(Load(doc).value.groups[i].groupname)
           && Field(items[i], "gid") == Num(Load(doc).value.groups[i].gid)
  {
    AcceptedObject(doc, ConfigSchema);
    var d := ApplyDefaults(doc, ConfigSchema);
    DefaultedConfigField(doc, 1);
    FieldValidates(d, ConfigSchema, 1);
    var v, dv := Field(doc, "groups"), Field(d, "groups");
    assert dv == ApplyDefaults(v, ArrayOf(GroupSchema, false, 0, None));
    assert v.Arr?;
    var groups := Load(doc).value.groups;
    assert groups == DecodeGroups(dv);
    forall i | 0 <= i < |v.items|
      ensures Accepts(v.items[i], GroupSchema)
      ensures Field(v.items[i], "groupname") == Str(groups[i].groupname)
      ensures Field(v.items[i], "gid") == Num(groups[i].gid)
    {
      assert dv.items[i] == ApplyDefaults(v.items[i], GroupSchema);
      DecodedGroup(v.items[i], groups[i]);
    }
  }

  lemma DecodedGroup(g: Value, group: Group)
    requires Accepts(g, GroupSchema) && group == DecodeGroup(ApplyDefaults(g, GroupSchema))
    ensures Field(g, "groupname") == Str(group.groupname)
    ensures Field(g, "gid") == Num(group.gid)
  {
    AcceptedObject(g, GroupSchema);
    DefaultedGroup(g);
  }

  /** The managed ranges are optional: absent means none; present means exactly
      two numbers. The key directory defaults to `/home`. Nothing else may appear
      at the top level. */
  lemma LoadedSettings(doc: Value)
    requires Load(doc).Ok?
    ensures doc.Obj?
    ensures forall n :: n in Names(doc.props) ==> n in PropertyNames(ConfigSchema.properties)
    ensures var c := Load(doc).value;
      && (c.uidRange.None? <==> "managed_uid_range" !in Names(doc.props))
      && (c.uidRange.Some? ==> Field(doc, "managed_uid_range") == Arr([Num(c.uidRange.value.lo), Num(c.uidRange.value.hi)]))
      && (c.gidRange.None? <==> "managed_gid_range" !in Names(doc.props))
      && (c.gidRange.Some? ==> Field(doc, "managed_gid_range") == Arr([Num(c.gidRange.value.lo), Num(c.gidRange.value.hi)]))
      && Str(c.sshKeyBaseDir) == if "user_ssh_key_base_dir" in Names(doc.props) then Field(doc, "user_ssh_key_base_dir") else Str(DefaultKeyBaseDir)
  {
    LoadedNames(doc);
    LoadedUidRange(doc);
    LoadedGidRange(doc);
    LoadedKeyBaseDir(doc);
  }

  lemma LoadedNames(doc: Value)
    requires Load(doc).Ok?
    ensures doc.Obj?
    ensures forall n :: n in Names(doc.props) ==> n in PropertyNames(ConfigSchema.properties)
  {
    AcceptedObject(doc, ConfigSchema);
    forall n | n in Names(doc.props)
      ensures n in PropertyNames(ConfigSchema.properties)
    {
      DefaultedNames(doc, ConfigSchema.properties, ConfigSchema.required, n);
    }
  }

  lemma LoadedUidRange(doc: Value)
    requires Load(doc).Ok?
    ensures doc.Obj?
    ensures var c := Load(doc).value;
      && (c.uidRange.None? <==> "managed_uid_range" !in Names(doc.props))
      && (c.uidRange.Some? ==> Field(doc, "managed_uid_range") == Arr([Num(c.uidRange.value.lo), Num(c.uidRange.value.hi)]))
  {
    RangeField(doc, 2);
    assert ConfigSchema.properties[2].name == "managed_uid_range";
  }

  lemma LoadedGidRange(doc: Value)
    requires Load(doc).Ok?
    ensures doc.Obj?
    ensures var c := Load(doc).value;
      && (c.gidRange.None? <==> "managed_gid_range" !in Names(doc.props))
      && (c.gidRange.Some? ==> Field(doc, "managed_gid_range") == Arr([Num(c.gidRange.value.lo), Num(c.gidRange.value.hi)]))
  {
    RangeField(doc, 3);
    assert ConfigSchema.properties[3].name == "managed_gid_range";
  }

  /** A managed range reads the same before and after default filling, and is
      absent exactly when the document does not name it. */
  lemma RangeField(doc: Value, i: nat)
    requires Load(doc).Ok? && (i == 2 || i == 3)
    ensures doc.Obj?
    ensures var n := ConfigSchema.properties[i].name; var d := ApplyDefaults(doc, ConfigSchema);
      && Field(d, n) == Field(doc, n)
      && (Field(doc, n) == Undefined <==> n !in Names(doc.props))
  {
    AcceptedObject(doc, ConfigSchema);
    var d := ApplyDefaults(doc, ConfigSchema);
    var n := ConfigSchema.properties[i].name;
    assert ConfigSchema.properties[i].schema == RangeSchema;
    DefaultedConfigField(doc, i);
    FieldValidates(d, ConfigSchema, i);
    FlatDefaults(Field(doc, n), RangeSchema);
  }

  lemma LoadedKeyBaseDir(doc: Value)
    requires Load(doc).Ok?
    ensures doc.Obj?
    ensures var c := Load(doc).value;
      Str(c.sshKeyBaseDir) == if "user_ssh_key_base_dir" in Names(doc.props) then Field(doc, "user_ssh_key_base_dir") else Str(DefaultKeyBaseDir)
  {
    AcceptedObject(doc, ConfigSchema);
    var d := ApplyDefaults(doc, ConfigSchema);
    DefaultedConfigField(doc, 4);
    FieldValidates(d, ConfigSchema, 4);
  }
}
