/** The newer configuration schema (src/schema.mjs): per-user disk quotas,
    lingering, a templated key directory, and the size strings quota limits
    are written in. */
module ProvisionerSchema {
  import opened Results
  import opened JsObjects
  import opened JsonSchema
  import Text

  /* ---------------------------------------------------------------------- */
  /* quota limit strings                                                     */
  /* ---------------------------------------------------------------------- */

  /** `^[0-9]+(Ki|Mi|Gi)?$`: a byte count with an optional binary multiplier. */
  const ByteLimit: Pattern := DigitsWithSuffix(["Ki", "Mi", "Gi"])

  /** `^[0-9]+(k|m|g|t)?$`: an inode count with an optional decimal multiplier. */
  const InodeLimit: Pattern := DigitsWithSuffix(["k", "m", "g", "t"])

  /** Every suffix is non-empty and starts with something other than a digit,
      so the digits of a limit string end exactly where its suffix starts. */
  predicate LetterSuffixes(p: Pattern)
  {
    forall x :: x in p.suffixes ==> |x| > 0 && !Text.IsDigit(x[0])
  }

  /** The length of the run of digits at the start of `s`. */
  function LeadingDigits(s: string): (k: nat)
    ensures k <= |s|
    ensures forall i :: 0 <= i < k ==> Text.IsDigit(s[i])
    ensures k < |s| ==> !Text.IsDigit(s[k])
  {
    if |s| == 0 || !Text.IsDigit(s[0]) then 0 else 1 + LeadingDigits(s[1..])
  }

  /** A limit string read left to right: its digits, then what follows them,
      which must be empty or one of the pattern's suffixes. */
  function SplitLimit(s: string, p: Pattern): Option<(string, string)>
  {
    var k := LeadingDigits(s);
    if k >= 1 && (s[k..] == "" || s[k..] in p.suffixes) then Some((s[..k], s[k..])) else None
  }

  /** Reading left to right accepts exactly the strings the pattern matches. */
  lemma SplitLimitMatches(s: string, p: Pattern)
    requires LetterSuffixes(p)
    ensures SplitLimit(s, p).Some? <==> Matches(s, p)
    ensures SplitLimit(s, p).Some? ==>
              var (digits, suffix) := SplitLimit(s, p).value;
              Text.IsDigits(digits) && digits + suffix == s && (suffix == "" || suffix in p.suffixes)
  {
    var k := LeadingDigits(s);
    if SplitLimit(s, p).Some? {
      assert Text.IsDigits(s[..k]);
      assert s[..k] + s[k..] == s;
    }
    if Matches(s, p) {
      var i :| 1 <= i <= |s| && Text.IsDigits(s[..i]) && (s[i..] == "" || s[i..] in p.suffixes);
      assert forall j :: 0 <= j < i ==> Text.IsDigit(s[..i][j]);
    }
  }

  lemma LimitPatternsHaveLetterSuffixes()
    ensures LetterSuffixes(ByteLimit) && LetterSuffixes(InodeLimit)
  {
  }

  function Pow(b: nat, e: nat): nat
  {
    if e == 0 then 1 else b * Pow(b, e - 1)
  }

  /** What a suffix multiplies the digits by: `Ki`, `Mi`, `Gi` are 2^10, 2^20,
      2^30; `k`, `m`, `g`, `t` are 10^3, 10^6, 10^9, 10^12. */
  function Multiplier(suffix: string): nat
  {
    match suffix
    case "Ki" => 1024
    case "Mi" => 1048576
    case "Gi" => 1073741824
    case "k" => 1000
    case "m" => 1000000
    case "g" => 1000000000
    case "t" => 1000000000000
    case _ => 1
  }

  lemma {:induction false} PowAdd(b: nat, e1: nat, e2: nat)
    ensures Pow(b, e1 + e2) == Pow(b, e1) * Pow(b, e2)
  {
    if e1 > 0 {
      PowAdd(b, e1 - 1, e2);
    }
  }

  /** The multipliers are the documented powers. */
  lemma MultipliersArePowers()
    ensures Multiplier("Ki") == Pow(2, 10)
    ensures Multiplier("Mi") == Pow(2, 20)
    ensures Multiplier("Gi") == Pow(2, 30)
    ensures Multiplier("k") == Pow(10, 3)
    ensures Multiplier("m") == Pow(10, 6)
    ensures Multiplier("g") == Pow(10, 9)
    ensures Multiplier("t") == Pow(10, 12)
  {
    assert Pow(2, 5) == 32 && Pow(10, 3) == 1000;
    PowAdd(2, 5, 5);
    PowAdd(2, 10, 10);
    PowAdd(2, 10, 20);
    PowAdd(10, 3, 3);
    PowAdd(10, 3, 6);
    PowAdd(10, 6, 6);
  }

  /** The number of bytes or inodes a limit string stands for; `None` when the
      string does not have the pattern's form. */
  function LimitValue(s: string, p: Pattern): (r: Option<nat>)
    ensures r.Some? <==> SplitLimit(s, p).Some?
  {
    match SplitLimit(s, p)
    case None => None
    case Some((digits, suffix)) => Some(Text.DigitsValue(digits) * Multiplier(suffix))
  }

  /** The suffixes make the difference between the two grammars. */
  lemma LimitExamples()
    ensures LimitValue("0", ByteLimit) == Some(0) && LimitValue("0", InodeLimit) == Some(0)
    ensures LimitValue("10Ki", ByteLimit) == Some(10240)
    ensures LimitValue("10k", InodeLimit) == Some(10000)
    ensures LimitValue("10k", ByteLimit) == None
    ensures LimitValue("10Ki", InodeLimit) == None
    ensures LimitValue("1.5Gi", ByteLimit) == None
    ensures LimitValue("Gi", ByteLimit) == None
  {
    assert "10Ki"[2..] == "Ki";
    assert "10Ki"[..2] == "10";
    assert Text.DigitsValue("10") == 10 by {
      assert "10"[..1] == "1";
    }
    assert "10k"[2..] == "k";
    assert "10k"[..2] == "10";
    assert "1.5Gi"[1..] == ".5Gi";
  }

  /* ---------------------------------------------------------------------- */
  /* the schema                                                              */
  /* ---------------------------------------------------------------------- */

  const ZeroLimitString: Value := Str("0")

  const QuotaSpec: Schema := Object(
    [ Property("path", StringType, None),
      Property("bytes_soft_limit", PatternString(ByteLimit), Some(ZeroLimitString)),
      Property("bytes_hard_limit", PatternString(ByteLimit), Some(ZeroLimitString)),
      Property("inodes_soft_limit", PatternString(InodeLimit), Some(ZeroLimitString)),
      Property("inodes_hard_limit", PatternString(InodeLimit), Some(ZeroLimitString)) ],
    [])

  const UserSchema: Schema := Object(
    [ Property("username", StringType, None),
      Property("password", StringType, None),
      Property("update_password", Enum(["always", "on_create"]), None),
      Property("uid", NumberType, None),
      Property("primary_group", StringType, None),
      Property("additional_groups", ArrayOf(StringType, true, 0, None), Some(Arr([]))),
      Property("shell", StringType, Some(Str("/bin/bash"))),
      Property("ssh_authorized_keys", ArrayOf(StringType, false, 0, None), Some(Arr([]))),
      Property("linger", BooleanType, Some(Bool(false))),
      Property("disk_quota", ArrayOf(QuotaSpec, false, 0, None), Some(Arr([]))) ],
    ["username", "password", "update_password", "uid", "primary_group"])

  const GroupSchema: Schema := Object(
    [ Property("groupname", StringType, None),
      Property("gid", NumberType, None) ],
    ["groupname", "gid"])

  const RangeSchema: Schema := ArrayOf(NumberType, false, 2, Some(2))

  const ConfigSchema: Schema := Object(
    [ Property("users", ArrayOf(UserSchema, false, 0, None), None),
      Property("groups", ArrayOf(GroupSchema, false, 0, None), None),
      Property("managed_uid_range", RangeSchema, None),
      Property("managed_gid_range", RangeSchema, None),
      Property("user_ssh_key_base_dir", StringType, Some(Str("/home/%u/.ssh"))),
      Property("use_strict_ssh_key_dir_permissions", BooleanType, Some(Bool(false))),
      Property("xfs_default_user_quota", ArrayOf(QuotaSpec, false, 0, None), Some(Arr([]))) ],
    ["users", "groups", "managed_uid_range", "managed_gid_range"])

  /* ---------------------------------------------------------------------- */
  /* what the schema accepts and fills in                                    */
  /* ---------------------------------------------------------------------- */

  /** After default filling, every limit of an accepted quota entry is a limit
      string of its kind, and an absent limit is `"0"`, which stands for zero:
      no limit. */
  lemma QuotaLimits(q: Value, i: nat)
    requires Accepts(q, QuotaSpec) && 1 <= i < 5
    ensures var p := QuotaSpec.properties[i];
      var v := Field(ApplyDefaults(q, QuotaSpec), p.name);
      && v.Str? && LimitValue(v.s, p.schema.pattern).Some?
      && (p.name !in Names(q.props) ==> v == Str("0") && LimitValue(v.s, p.schema.pattern) == Some(0))
  {
    QuotaNamesDistinct();
    LimitProperty(i);
    var p := QuotaSpec.properties[i];
    LimitPatternsHaveLetterSuffixes();
    assert LetterSuffixes(p.schema.pattern) by {
      if p.schema.pattern == ByteLimit { } else { }
    }
    LimitField(q, QuotaSpec, i);
    var v := Field(ApplyDefaults(q, QuotaSpec), p.name);
    SplitLimitMatches(v.s, p.schema.pattern);
    ZeroLimit(p.schema.pattern);
  }

  /** Properties 1 to 4 of a quota entry are limit strings defaulting to "0". */
  lemma LimitProperty(i: nat)
    requires 1 <= i < 5
    ensures QuotaSpec.properties[i].schema.PatternString?
    ensures QuotaSpec.properties[i].schema.pattern in [ByteLimit, InodeLimit]
    ensures QuotaSpec.properties[i].default == Some(Str("0"))
  {
  }

  /** A quota entry names nothing but its path and its four limits. */
  lemma QuotaClosed(q: Value)
    requires Accepts(q, QuotaSpec)
    ensures q.Obj?
    ensures forall n :: n in Names(q.props) ==> n in PropertyNames(QuotaSpec.properties)
  {
    AcceptedClosed(q, QuotaSpec);
  }

  /** "0" is zero in either grammar. */
  lemma ZeroLimit(p: Pattern)
    requires LetterSuffixes(p)
    ensures Matches("0", p) && LimitValue("0", p) == Some(0)
  {
    assert "0"[..1] == "0" && "0"[1..] == "";
    SplitLimitMatches("0", p);
  }

  /** After default filling, property `i` of an accepted object matches its
      pattern, and an absent one takes its default `"0"`. */
  lemma LimitField(q: Value, s: Schema, i: nat)
    requires s.Object? && Accepts(q, s) && DistinctNames(s.properties) && i < |s.properties|
    requires s.properties[i].schema.PatternString? && LetterSuffixes(s.properties[i].schema.pattern)
    requires s.properties[i].default == Some(Str("0"))
    ensures var p := s.properties[i];
      var v := Field(ApplyDefaults(q, s), p.name);
      && v.Str? && Matches(v.s, p.schema.pattern)
      && (p.name !in Names(q.props) ==> v == Str("0"))
  {
    AcceptedObject(q, s);
    ZeroLimit(s.properties[i].schema.pattern);
    DefaultedSimple(q, s, i);
    FieldValidates(ApplyDefaults(q, s), s, i);
  }

  /** An accepted user entry names only known properties, has the five
      required ones, and `update_password` is "always" or "on_create". */
  lemma AcceptedUser(u: Value)
    requires Accepts(u, UserSchema)
    ensures u.Obj?
    ensures forall n :: n in Names(u.props) ==> n in PropertyNames(UserSchema.properties)
    ensures Field(u, "username").Str? && Field(u, "password").Str?
    ensures Field(u, "uid").Num? && Field(u, "primary_group").Str?
    ensures Field(u, "update_password") in [Str("always"), Str("on_create")]
  {
    AcceptedClosed(u, UserSchema);
    UserNamesDistinct();
    RequiredUserFields(u, UserSchema);
  }

  /** The same for any object schema that starts with the five required user properties. */
  lemma RequiredUserFields(u: Value, s: Schema)
    requires s.Object? && Accepts(u, s) && DistinctNames(s.properties) && |s.properties| >= 5
    requires s.properties[0] == Property("username", StringType, None)
    requires s.properties[1] == Property("password", StringType, None)
    requires s.properties[2] == Property("update_password", Enum(["always", "on_create"]), None)
    requires s.properties[3] == Property("uid", NumberType, None)
    requires s.properties[4] == Property("primary_group", StringType, None)
    requires s.required == ["username", "password", "update_password", "uid", "primary_group"]
    ensures Field(u, "username").Str? && Field(u, "password").Str?
    ensures Field(u, "uid").Num? && Field(u, "primary_group").Str?
    ensures Field(u, "update_password") in [Str("always"), Str("on_create")]
  {
    AcceptedRequired(u, s, 0);
    AcceptedRequired(u, s, 1);
    AcceptedRequired(u, s, 2);
    AcceptedRequired(u, s, 3);
    AcceptedRequired(u, s, 4);
  }

  /** A user's lists default to empty: no additional groups, no keys. */
  lemma DefaultedUserLists(u: Value)
    requires u.Obj?
    ensures var d := ApplyDefaults(u, UserSchema);
      && Field(d, "additional_groups") == (if "additional_groups" in Names(u.props) then Field(u, "additional_groups") else Arr([]))
      && Field(d, "ssh_authorized_keys") == (if "ssh_authorized_keys" in Names(u.props) then Field(u, "ssh_authorized_keys") else Arr([]))
  {
    UserNamesDistinct();
    DefaultedSimple(u, UserSchema, 5);
    DefaultedSimple(u, UserSchema, 7);
  }

  /** After default filling, a `uniqueItems` string-array property `i` of an
      accepted object is an array of distinct strings, `[]` when absent. */
  lemma UniqueStringsField(u: Value, s: Schema, i: nat)
    requires s.Object? && Accepts(u, s) && DistinctNames(s.properties) && i < |s.properties|
    requires s.properties[i].schema == ArrayOf(StringType, true, 0, None)
    requires s.properties[i].default == Some(Arr([]))
    ensures var g := Field(ApplyDefaults(u, s), s.properties[i].name);
      && g.Arr?
      && (forall k :: 0 <= k < |g.items| ==> g.items[k].Str?)
      && (forall k, j :: 0 <= k < j < |g.items| ==> g.items[k] != g.items[j])
      && (s.properties[i].name !in Names(u.props) ==> g == Arr([]))
  {
    AcceptedObject(u, s);
    DefaultedSimple(u, s, i);
    FieldValidates(ApplyDefaults(u, s), s, i);
  }

  /** An accepted user's `additional_groups`, after defaults, is an array of
      distinct strings (`uniqueItems`), empty when the entry leaves it out. */
  lemma AcceptedAdditionalGroups(u: Value)
    requires Accepts(u, UserSchema)
    ensures var g := Field(ApplyDefaults(u, UserSchema), "additional_groups");
      && g.Arr?
      && (forall i :: 0 <= i < |g.items| ==> g.items[i].Str?)
      && (forall i, j :: 0 <= i < j < |g.items| ==> g.items[i] != g.items[j])
      && ("additional_groups" !in Names(u.props) ==> g == Arr([]))
  {
    UserNamesDistinct();
    UserGroupsProperty();
    UniqueStringsField(u, UserSchema, 5);
  }

  lemma UserGroupsProperty()
    ensures UserSchema.Object? && |UserSchema.properties| > 5
    ensures UserSchema.properties[5] == Property("additional_groups", ArrayOf(StringType, true, 0, None), Some(Arr([])))
  {
  }

  /** A user's shell defaults to `/bin/bash`, and a user does not linger unless told to. */
  lemma DefaultedShellAndLinger(u: Value)
    requires u.Obj?
    ensures var d := ApplyDefaults(u, UserSchema);
      && Field(d, "shell") == (if "shell" in Names(u.props) then Field(u, "shell") else Str("/bin/bash"))
      && Field(d, "linger") == (if "linger" in Names(u.props) then Field(u, "linger") else Bool(false))
  {
    UserNamesDistinct();
    DefaultedSimple(u, UserSchema, 6);
    DefaultedSimple(u, UserSchema, 8);
  }

  /** A user has no disk quotas unless some are listed; listed ones get their
      limit defaults filled in. */
  lemma DefaultedDiskQuota(u: Value)
    requires u.Obj?
    ensures var d := ApplyDefaults(u, UserSchema);
      Field(d, "disk_quota") ==
        if "disk_quota" in Names(u.props) then ApplyDefaults(Field(u, "disk_quota"), ArrayOf(QuotaSpec, false, 0, None))
        else Arr([])
  {
    UserNamesDistinct();
    DefaultedField(u, UserSchema.properties, UserSchema.required, 9);
    assert ApplyDefaults(Arr([]), ArrayOf(QuotaSpec, false, 0, None)) == Arr([]);
  }

  /** An accepted configuration names only known properties, has users,
      groups and both managed ranges, and each range is exactly two numbers. */
  lemma AcceptedConfig(doc: Value)
    requires Accepts(doc, ConfigSchema)
    ensures doc.Obj?
    ensures forall n :: n in Names(doc.props) ==> n in PropertyNames(ConfigSchema.properties)
    ensures Field(doc, "users").Arr? && Field(doc, "groups").Arr?
    ensures ValidRange(Field(doc, "managed_uid_range")) && ValidRange(Field(doc, "managed_gid_range"))
  {
    AcceptedClosed(doc, ConfigSchema);
    ConfigNamesDistinct();
    RequiredConfigFields(doc, ConfigSchema);
  }

  /** The same for any object schema that starts with the four required
      configuration properties. */
  lemma RequiredConfigFields(doc: Value, s: Schema)
    requires s.Object? && Accepts(doc, s) && DistinctNames(s.properties) && |s.properties| >= 4
    requires s.properties[0].name == "users" && s.properties[0].schema.ArrayOf? && s.properties[0].default.None?
    requires s.properties[1].name == "groups" && s.properties[1].schema.ArrayOf? && s.properties[1].default.None?
    requires s.properties[2] == Property("managed_uid_range", RangeSchema, None)
    requires s.properties[3] == Property("managed_gid_range", RangeSchema, None)
    requires s.required == ["users", "groups", "managed_uid_range", "managed_gid_range"]
    ensures Field(doc, "users").Arr? && Field(doc, "groups").Arr?
    ensures ValidRange(Field(doc, "managed_uid_range")) && ValidRange(Field(doc, "managed_gid_range"))
  {
    AcceptedField(doc, s, 0);
    AcceptedArray(Field(doc, "users"), s.properties[0].schema);
    AcceptedField(doc, s, 1);
    AcceptedArray(Field(doc, "groups"), s.properties[1].schema);
    AcceptedRequired(doc, s, 2);
    AcceptedRequired(doc, s, 3);
  }

  /** Exactly two numbers. */
  predicate ValidRange(r: Value)
  {
    r.Arr? && |r.items| == 2 && r.items[0].Num? && r.items[1].Num?
  }

  /** The configuration defaults: key directory `/home/%u/.ssh`, no strict key
      directory permissions, no default XFS quotas. */
  lemma DefaultedConfig(doc: Value)
    requires doc.Obj?
    ensures var d := ApplyDefaults(doc, ConfigSchema);
      && Field(d, "user_ssh_key_base_dir") ==
           (if "user_ssh_key_base_dir" in Names(doc.props) then Field(doc, "user_ssh_key_base_dir") else Str("/home/%u/.ssh"))
      && Field(d, "use_strict_ssh_key_dir_permissions") ==
           (if "use_strict_ssh_key_dir_permissions" in Names(doc.props) then Field(doc, "use_strict_ssh_key_dir_permissions") else Bool(false))
      && ("xfs_default_user_quota" !in Names(doc.props) ==> Field(d, "xfs_default_user_quota") == Arr([]))
  {
    ConfigNamesDistinct();
    DefaultedSimple(doc, ConfigSchema, 4);
    DefaultedSimple(doc, ConfigSchema, 5);
    DefaultedField(doc, ConfigSchema.properties, ConfigSchema.required, 6);
    assert ApplyDefaults(Arr([]), ArrayOf(QuotaSpec, false, 0, None)) == Arr([]);
  }

  lemma UserNamesDistinct()
    ensures DistinctNames(UserSchema.properties)
  {
  }

  lemma QuotaNamesDistinct()
    ensures DistinctNames(QuotaSpec.properties)
  {
  }

  lemma ConfigNamesDistinct()
    ensures DistinctNames(ConfigSchema.properties)
  {
  }
}
