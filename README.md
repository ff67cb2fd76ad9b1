# linux-directory-provisioner, modelled in Dafny

The provisioner reconciles a desired account configuration (a JSON
document listing users and groups) with the live Linux account database
(`/etc/passwd`, `/etc/shadow`, `/etc/group` and each user's
`authorized_keys`). It computes a change set:

- the groups and users to create;
- the groups and users to delete, restricted to the managed id ranges;
- the `usermod`-style arguments that bring each existing user in line;
- the users whose SSH keys must be rewritten;
- the users whose passwords must be set.

This project models that computation and proves what it does.

Modules, one per file:

| file | module | models |
|---|---|---|
| results.dfy | `Results` | the errors the script throws (its own messages and the JavaScript `TypeError`s its code can raise), and `Result` |
| text.dfy | `Text` | `split`, `join`, `filter((l) => l)`, `Number`/`String` on digit strings, array index keys, `sort()` on strings |
| jsobjects.dfy | `JsObjects` | JavaScript values: `isPrimitive`, `===`, `Object.keys`, `in`, `v[k]` |
| dicts.dfy | `Dicts` | plain objects used as dictionaries: `out[k] = v`, `Object.fromEntries`, `Object.values` |
| compare.dfy | `Compare` | `deepEqual` and `diffProperties`, each as a function and as the source's loop proved equal to it |
| jsonschema.dfy | `JsonSchema` | the part of JSON Schema the two configuration schemas use, with default filling |
| legacy_schema.dfy | `LegacySchema` | the schema in `src/utils.mjs`, the one the entry point validates against, and the typed configuration it yields |
| provisioner_schema.dfy | `ProvisionerSchema` | the newer schema in `src/schema.mjs`: quota limits, user and configuration defaults |
| records.dfy | `Records` | users and groups as the objects `diffProperties` compares |
| configured.dfy | `ConfiguredDirectory` | `getConfiguredDirectory` |
| existing.dfy | `ExistingDirectory` | `getExistingDirectory` over the text of the three account files |
| ssh_keys.dfy | `SshKeys` | `getSSHKeys` over a map from paths to file contents |
| change_lists.dfy | `ChangeLists` | the name lists: `newGroups`, `groupsToDelete`, `newUsers`, `usersToDelete` |
| mod_args.dfy | `ModArgs` | the callbacks of `groupModArgs` and `userModArgs`, as methods consuming the diff set |
| plan.dfy | `Plan` | `groupPropertyDiff`, `userPropertyDiff`, `requiresSSHKeyUpdate`, `passwordsToSet`, and the reference outcomes they are proved against |
| provision.dfy | `Provision` | the whole change set, and the end-to-end run from the document and file texts |

Three notes on how the model reads the source:

- **Two readings of `u in newUsers`.** `src/index.mjs:83`, `:120` and `:132` use `u in newUsers`.
  - `Plan.MembershipTest` has two values, so every user-side member can be evaluated under either reading.
  - `IndexKeyTest` is the code as written: a test for an array property key.
  - `ElementTest` is the evident intent: a membership test.
  - See "## Findings".
- **Two schemas.** The repository holds a newer schema, `src/schema.mjs`, which is not yet wired to the entry point. In it:
  - the managed ranges are required (src/schema.mjs:117);
  - the key directory defaults to `/home/%u/.ssh` (src/schema.mjs:103);
  - `%u` and `%U` are described as templates (src/schema.mjs:102).

  The entry point `src/index.mjs` validates against the older schema in `src/utils.mjs:6-62`. There:
  - both ranges are optional;
  - the key directory defaults to `/home`;
  - no template is expanded.

  The model follows the entry point. An absent range therefore makes `config.managed_uid_range[0]` throw, which is modelled as `TypeError(IndexOfUndefined)`, but only when some live entry is unconfigured. The newer schema is modelled separately in `ProvisionerSchema`.
- **Integer ids.** uid and gid fields are whole numbers. The passwd and group lines are required to carry digit strings in those fields, so `Number` is only ever applied to digit strings.

## Model

| member | source | states |
|---|---|---|
| ChangeLists.Missing | src/index.mjs:48 | `keys.filter((k) => !(k in other))`: a name is kept iff it is in `keys` and not in `other` (also `newUsers`, :78) |
| ChangeLists.Present | src/index.mjs:52-53 | `filter((g) => g in groups)`: a name is kept iff it is in `keys` and in `other` |
| ChangeLists.MissingDistinct | src/index.mjs:78 | filtering distinct configured names leaves them distinct |
| ChangeLists.MissingPresentSplit | src/index.mjs:48-53 | every configured name is either new or present, never both: the two lengths add up to the number of names |
| ChangeLists.Deletions | src/index.mjs:49-51 | a live name is picked iff it is unconfigured and its id lies in the inclusive range. The range is read only for unconfigured names, so an absent range throws iff such a name exists, and then nothing else is returned |
| Compare.DeepEqual | src/utils.mjs:158-177 | two primitives compare with `===`; comparing with `undefined`/`null` or testing `in` on a primitive only ever throws a `TypeError` |
| Compare.EveryKeyDeepEqual | src/utils.mjs:171-176 | the `for...in` loop only ever fails with a `TypeError` |
| Compare.DeepEqualIter | src/utils.mjs:158-177 | the source's recursive procedure with its early returns computes exactly `DeepEqual` |
| Compare.EveryKeyIter | src/utils.mjs:171-176 | the early-returning key loop, with its invariant, computes exactly `EveryKeyDeepEqual` |
| Compare.DeepEqualReflexive | src/utils.mjs:160-162 | every value is deep-equal to itself, so the `===` shortcut never changes the answer |
| Compare.PrimitiveArrays | src/utils.mjs:164-176 | two arrays of primitives are deep-equal iff they hold the same elements in the same order |
| Compare.DeepEqualObjects | src/utils.mjs:168-176 | for arrays and objects: deep-equal iff the key counts agree and every key of the first is in the second with a deep-equal value |
| Compare.DeepEqualCrossKind | src/utils.mjs:164-172 | a number against `{}` and `true` against `[]` are deep-equal; `undefined` against an array throws |
| Compare.DiffProperties | src/utils.mjs:179-195 | `undefined` or `null` on either side throws a `TypeError` from `Object.keys` |
| Compare.ChangedKeys | src/utils.mjs:187-194 | a key is in the result iff it is among the keys and its values are not deep-equal; the loop throws iff some comparison throws |
| Compare.DiffPropertiesIter | src/utils.mjs:179-195 | the source's procedure computes exactly `DiffProperties` |
| Compare.ChangedKeysIter | src/utils.mjs:187-194 | the loop adding to the Set `out` computes exactly `ChangedKeys` |
| Compare.StrArraysDeepEqual | src/utils.mjs:183 | two string arrays are deep-equal iff they are equal |
| Compare.DiffPropertiesKeysMismatch | src/utils.mjs:180-185 | "Object keys don't match" iff the two key lists are not rearrangements of each other |
| Compare.DiffPropertiesExact | src/utils.mjs:187-194 | a successful diff holds exactly the keys of the first object whose values are not deep-equal, so it is a subset of the keys |
| Compare.DiffPropertiesSameKeys | src/utils.mjs:180-194 | same key lists and no throwing comparison: the diff succeeds and holds exactly the differing keys |
| Compare.DiffPropertiesIdentical | src/utils.mjs:179-195 | an object compared with itself has an empty diff |
| Text.Split | src/utils.mjs:93 | `split(":")` gives at least one piece, no piece holds the separator, and joining the pieces gives back the text |
| Text.SplitJoin | src/utils.mjs:97 | splitting undoes joining when no part holds the separator |
| Text.NonEmpty | src/utils.mjs:87 | `filter((l) => l)` keeps exactly the non-empty strings, each as often as it occurs in the input |
| Text.NonEmptyAppend | src/utils.mjs:87 | the filter keeps the order: filtering a concatenation concatenates the filtered parts |
| Text.NonEmptyKeepsAll | src/utils.mjs:87 | a list without empty strings passes the filter unchanged |
| Text.LinesAreNonBlankPieces | src/index.mjs:25 | a line of a file is a non-empty, newline-free piece of its text |
| Text.Without | src/utils.mjs:123 | `filter((g) => g !== p)` removes every occurrence of `p` and nothing else |
| Text.Decimal | src/index.mjs:83 | `String(i)` of an index is a canonical digit string whose value is `i` |
| Text.IndexKeysMembership | src/index.mjs:83 | a string is one of an array's index keys iff it is a canonical decimal below the length |
| Text.SortStrings | src/utils.mjs:76 | `sort()` yields a sorted permutation of its input |
| Text.SortStringsEqual | src/utils.mjs:180-183 | two lists sort to the same list iff they hold the same strings, counted with multiplicity |
| Text.SortSorted | src/utils.mjs:123 | sorting an already sorted list changes nothing |
| JsObjects.Keys | src/utils.mjs:168 | `Object.keys` throws exactly on `undefined` and `null` |
| JsObjects.HasProperty | src/utils.mjs:172 | `k in v` throws exactly on a primitive |
| JsObjects.GetIndex | src/utils.mjs:173 | reading an array through the key `String(i)` yields element `i` |
| Dicts.Put | src/utils.mjs:99-102 | `out[k] = v` sets the value; a new key goes to the end, an existing key keeps its place |
| Dicts.FromEntries | src/utils.mjs:67 | `Object.fromEntries` has a key iff some entry has it, and its keys are distinct |
| Dicts.FromEntriesLastWins | src/utils.mjs:99-102 | where entries share a key, the last one's value is kept |
| Dicts.FromEntriesKeys | src/utils.mjs:68-70 | the key order depends only on the names of the entries |
| Dicts.KeyCount | src/utils.mjs:147 | `Object.keys(d).length` is the number of distinct names |
| Records.OptStr | src/utils.mjs:122-124 | an absent primary group or shell is `undefined`; a present one is its string |
| Records.UserDiff | src/index.mjs:84 | diffing two user objects never throws and reports exactly the fields that differ |
| Records.GroupDiff | src/index.mjs:55-56 | diffing two group objects without members reports exactly the fields that differ |
| ExistingDirectory.FieldAt | src/utils.mjs:124 | `t[i]` is `undefined` exactly past the last field |
| ExistingDirectory.ParseGroup | src/utils.mjs:92-98 | the member list joined by commas gives back the member field; an empty field gives no members |
| ExistingDirectory.LiveGroupEntry | src/utils.mjs:99-102 | the last group line of a name supplies that name's group |
| ExistingDirectory.LiveGroupsKeyed | src/utils.mjs:99-102 | every live group is keyed by its own name |
| ExistingDirectory.GidNames | src/utils.mjs:112-115 | `gidToGroupName` has a gid iff some group has that gid |
| ExistingDirectory.GidNamesLastWins | src/utils.mjs:112-115 | the last group with a gid names it |
| ExistingDirectory.GroupsOfMembers | src/utils.mjs:104-110 | a group is among a user's groups iff its member list names the user |
| ExistingDirectory.PushGroup | src/utils.mjs:105-108 | one step of the `userToGroups` reducer: each member gets the group appended once per mention; no one else changes |
| ExistingDirectory.UserToGroups | src/utils.mjs:104-110 | the `for` loop over all groups maps every named member to the groups naming it, in group order |
| ExistingDirectory.Drop | src/utils.mjs:123 | `filter((g) => g !== primary_group)` with an undefined primary group removes nothing |
| ExistingDirectory.AdditionalGroups | src/utils.mjs:123 | a live user's additional groups are sorted, and are exactly the groups naming the user other than the primary group; a user no group names gets `[]` |
| ExistingDirectory.LivePrimaryGroup | src/utils.mjs:112-122 | the primary group is the last group whose gid is passwd field 4, and is `undefined` iff there is none |
| ExistingDirectory.GetExistingDirectory | src/utils.mjs:84-152 | blank lines are skipped. It throws "user and password lists don't match up!" exactly when the two files hold different numbers of distinct names; otherwise it returns the three dictionaries |
| ExistingDirectory.EntryCount | src/utils.mjs:147 | a dictionary built from one entry per line has one key per distinct first field |
| ExistingDirectory.LiveUserEntry | src/utils.mjs:134-137 | the last passwd line of a name describes that user |
| ExistingDirectory.LiveUsersKeyed | src/utils.mjs:134-137 | every live user record is keyed by its own username |
| ExistingDirectory.LivePasswordEntry | src/utils.mjs:142-145 | the last shadow line of a name gives that user's password field |
| ConfiguredDirectory.ConfiguredUser | src/utils.mjs:72-79 | a configured user keeps username, uid, primary group and shell, drops the password, policy and keys, and carries its additional groups as a sorted permutation |
| ConfiguredDirectory.ConfiguredGroups | src/utils.mjs:67 | groups are keyed by `groupname`, every key names a configured group, and every configured name is a key |
| ConfiguredDirectory.ConfiguredUserKeys | src/utils.mjs:68-79 | the four user dictionaries have the same keys in the same order |
| ConfiguredDirectory.ConfiguredUserNames | src/utils.mjs:68-79 | those keys are exactly the configured usernames |
| ConfiguredDirectory.ConfiguredUserEntry | src/utils.mjs:69-79 | the last configured user of a name supplies that name's record and password |
| ConfiguredDirectory.ConfiguredUserSettings | src/utils.mjs:68-70 | the same user supplies the SSH keys and the password update policy |
| ConfiguredDirectory.ConfiguredUsersKeyed | src/utils.mjs:72-79 | every configured user record is keyed by its own username |
| LegacySchema.DecodeUser | src/utils.mjs:6-25 | the typed user agrees with the entry field by field. Absent optional fields take their defaults: no groups, `/bin/bash`, no keys. The additional groups are distinct |
| LegacySchema.DecodeGroup | src/utils.mjs:27-35 | the typed group agrees with `groupname` and `gid` |
| LegacySchema.DecodeRange | src/utils.mjs:42-57 | a range is absent iff the field is, and otherwise it is the array's two numbers |
| LegacySchema.Load | src/index.mjs:15-18 | loading fails with "Invalid config" exactly when the document is not accepted |
| LegacySchema.UserFieldTypes | src/utils.mjs:9-21 | the fields of a valid user have their declared types, and `update_password` is "always" or "on_create" |
| LegacySchema.UniqueStrings | src/utils.mjs:14-19 | `uniqueItems` makes the additional groups distinct |
| LegacySchema.DefaultedUser | src/utils.mjs:6-25 | an accepted user entry is closed and decodes with its five required fields unchanged |
| LegacySchema.AcceptedUserClosed | src/utils.mjs:24 | an accepted user names only declared properties |
| LegacySchema.DefaultedAdditionalGroups | src/utils.mjs:14-19 | `additional_groups` defaults to no groups, and the groups are distinct |
| LegacySchema.DefaultedShell | src/utils.mjs:20 | `shell` defaults to `/bin/bash` |
| LegacySchema.DefaultedKeys | src/utils.mjs:21 | `ssh_authorized_keys` defaults to no keys |
| LegacySchema.LoadedUsers | src/utils.mjs:40 | one user per entry of `users`, in order, each accepted and decoded after default filling |
| LegacySchema.LoadedGroups | src/utils.mjs:41 | one group per entry of `groups`, in order, each agreeing with its entry |
| LegacySchema.LoadedSettings | src/utils.mjs:42-61 | the ranges are optional, absent meaning none, present meaning exactly two numbers. The key directory defaults to `/home`. Nothing undeclared appears at the top level |
| LegacySchema.LoadedUidRange | src/utils.mjs:42-49 | the uid range is absent iff the document omits it, and otherwise is its two numbers |
| LegacySchema.LoadedGidRange | src/utils.mjs:50-57 | the same for the gid range |
| LegacySchema.LoadedKeyBaseDir | src/utils.mjs:58 | `user_ssh_key_base_dir` is the document's value or `/home` |
| JsonSchema.DefaultedField | src/utils.mjs:4 | with `useDefaults`, a present property is kept and an absent one with a default gets it |
| JsonSchema.DefaultedNames | src/utils.mjs:4 | default filling adds properties but never drops one |
| JsonSchema.AcceptedClosed | src/utils.mjs:24 | `additionalProperties: false`: an accepted object names only declared properties |
| JsonSchema.AcceptedArray | src/utils.mjs:42-49 | an accepted array has an allowed length, and every item is accepted |
| JsonSchema.AcceptedRequired | src/utils.mjs:23 | a required property without a default is present |
| ProvisionerSchema.LeadingDigits | src/schema.mjs:14 | the run of leading digits is maximal |
| ProvisionerSchema.SplitLimitMatches | src/schema.mjs:14 | reading digits then a suffix accepts exactly the strings `^[0-9]+(Ki\|Mi\|Gi)?$` (resp. `(k\|m\|g\|t)`) matches |
| ProvisionerSchema.MultipliersArePowers | src/schema.mjs:12 | Ki, Mi, Gi are 2^10, 2^20, 2^30; k, m, g, t are 10^3, 10^6, 10^9, 10^12 |
| ProvisionerSchema.LimitValue | src/schema.mjs:10-37 | a limit string has a value iff it matches its pattern |
| ProvisionerSchema.LimitExamples | src/schema.mjs:14-35 | "10Ki" is 10240 bytes, and "10k" is 10000 inodes. The byte suffixes and the inode suffixes are not interchangeable. "1.5Gi" and "Gi" are refused |
| ProvisionerSchema.QuotaLimits | src/schema.mjs:10-37 | after default filling, every limit of an accepted quota is a string matching its grammar, "0" when absent |
| ProvisionerSchema.LimitProperty | src/schema.mjs:10-37 | the four limits are pattern strings defaulting to "0" |
| ProvisionerSchema.QuotaClosed | src/schema.mjs:39 | a quota names only its path and four limits |
| ProvisionerSchema.ZeroLimit | src/schema.mjs:12 | "0" is valid and is zero in either grammar |
| ProvisionerSchema.AcceptedUser | src/schema.mjs:42-67 | an accepted user is closed and has the five required fields with their types; `update_password` is "always" or "on_create" |
| ProvisionerSchema.RequiredUserFields | src/schema.mjs:65 | the five required user fields are present with their types |
| ProvisionerSchema.DefaultedUserLists | src/schema.mjs:50-57 | `additional_groups` and `ssh_authorized_keys` default to `[]` |
| ProvisionerSchema.AcceptedAdditionalGroups | src/schema.mjs:50-55 | after default filling, an accepted user's `additional_groups` is an array of distinct strings (`uniqueItems`), `[]` when left out |
| ProvisionerSchema.DefaultedShellAndLinger | src/schema.mjs:56-58 | `shell` defaults to `/bin/bash` and `linger` to false |
| ProvisionerSchema.DefaultedDiskQuota | src/schema.mjs:59-63 | `disk_quota` defaults to `[]`; listed quotas get their limits filled in |
| ProvisionerSchema.AcceptedConfig | src/schema.mjs:79-119 | an accepted configuration is closed, has user and group arrays, and has both ranges as exactly two numbers |
| ProvisionerSchema.RequiredConfigFields | src/schema.mjs:117 | the four required configuration fields are present with their shapes |
| ProvisionerSchema.DefaultedConfig | src/schema.mjs:100-115 | the key directory defaults to `/home/%u/.ssh`, strict permissions to false, and the default quota to `[]` |
| SshKeys.FileKeys | src/index.mjs:23-25 | an unreadable file gives no keys. A readable file gives exactly its non-empty lines, each as often as it occurs; every key is non-empty and newline-free |
| SshKeys.FileKeysRoundTrip | src/index.mjs:23-25 | keys written one per line are read back as written, in order |
| SshKeys.SSHKeysOf | src/index.mjs:20-29 | each user's entry holds the keys of that user's own file |
| SshKeys.SSHKeysKeys | src/index.mjs:29 | the dictionary's keys are exactly the usernames |
| ModArgs.GroupModArgs | src/index.mjs:59-76 | the callback deletes "gid" from the diff and pushes the name. It succeeds iff the diff is empty, giving `[g]`. A changed gid is refused, and any other leftover fails on `diff.join` |
| ModArgs.GroupUpdate | src/index.mjs:52-71 | between groups of the same name the diff is empty iff the gids agree, and otherwise the callback refuses the gid change; the `diff.join` failure cannot happen |
| ModArgs.GroupKey | src/index.mjs:97-100 | a configured primary group is looked up under its own name |
| ModArgs.DeleteAndPush | src/index.mjs:103-105 | `if (diff.delete(prop)) args.push(...)` removes the property and pushes the flag iff it was there |
| ModArgs.UserModArgs | src/index.mjs:86-118 | the callback computes `UserArgs`. It refuses a uid change, then a changed primary group that is not configured, then any unhandled property. Otherwise it gives `--gid`, `--groups`, `--shell` for the changed fields, then the username |
| ModArgs.PushRemaining | src/index.mjs:103-117 | from the `additional_groups` check on, the callback computes `RemainingArgs` |
| ModArgs.UserUpdate | src/index.mjs:89-117 | between records of the same user, a uid change is refused, and so is a changed primary group that is not configured. Otherwise each flag appears iff its field differs, the username comes last, and "Missing update functions" cannot happen |
| ModArgs.UserArgsShape | src/index.mjs:96-117 | produced arguments are one flag-value pair per changed property followed by the username; the diff never holds "uid" then |
| Plan.GroupPropertyDiff | src/index.mjs:54-57 | a group without its member list is diffed against its configuration into exactly the differing fields among `groupname` and `gid` |
| Plan.GroupDiffs | src/index.mjs:52-58 | every reported diff is non-empty and names a group present on both sides |
| Plan.GidChangesOutcome | src/index.mjs:62-67 | the reference outcome succeeds iff every present group's gids agree, and then modifies nothing; otherwise it is a gid change |
| Plan.GroupPhase | src/index.mjs:52-76 | `groupPropertyDiff` followed by `groupModArgs` equals the reference outcome: no group is ever modified, and the first gid mismatch is refused |
| Plan.InNewUsers | src/index.mjs:83 | as written, `u in newUsers` is `in` on the array; as intended, it is membership |
| Plan.LiveUserValue | src/index.mjs:84 | `users[u]` is `undefined` exactly for a user that is not live |
| Plan.UserPropertyDiff | src/index.mjs:84 | a user that is not live makes `diffProperties` throw on `Object.keys(undefined)`. For a live user it succeeds, and each field is reported iff it differs |
| Plan.UserDiffs | src/index.mjs:82-85 | every reported diff is non-empty and names a live configured user not counted as new |
| Plan.UserDiffsFail | src/index.mjs:82-85 | `userPropertyDiff` throws exactly when some configured user not counted as new is not live, and then with a `TypeError` |
| Plan.ExpectedErrors | src/index.mjs:89-99 | the reference outcome fails only with a uid change or a dangling primary group |
| Plan.OneUser | src/index.mjs:84-117 | for a live user, the diff is empty iff the records agree. The arguments are the field flags and the name when the user is updatable, and its refusal otherwise |
| Plan.UserPhase | src/index.mjs:82-118 | read by element, `userPropertyDiff` never throws, and `userModArgs` equals the reference outcome |
| Plan.LiveKeysValue | src/index.mjs:120 | `sshKeys[u]` is `undefined` exactly for a user without a key list |
| Plan.KeyUpdates | src/index.mjs:120 | every user needing a key update is configured and not counted as new |
| Plan.KeyPhase | src/index.mjs:120 | read by element, a user needs a key update iff it is configured, not new, and its live keys differ in content or order from the configured ones |
| Plan.PasswordsToSet | src/index.mjs:131-133 | a user's password is set iff the user is configured and its password is not strictly equal to the live one, and it is new or its policy is "always" |
| Provision.ConfiguredCoherent | src/utils.mjs:66-82 | the configured dictionaries are well formed and the four user dictionaries share their keys |
| Provision.UserChangesOf | src/index.mjs:78-133 | the user side fails with the first failing step in source order (`usersToDelete`, `userModArgs`, `requiresSSHKeyUpdate`), and otherwise collects the five lists |
| Provision.DeletionsOf | src/index.mjs:49-51 | over a dictionary's entries, the deleted names are the live names that are unconfigured and whose id is in range |
| Provision.GroupLists | src/index.mjs:48-51 | `newGroups` holds exactly the configured groups that are not live. `groupsToDelete` holds exactly the unconfigured live groups whose gid is in the range, and is empty without a range |
| Provision.UserLists | src/index.mjs:78-81 | `newUsers` holds exactly the configured users that are not live. `usersToDelete` holds exactly the unconfigured live users whose uid is in the range, and is empty without a range |
| Provision.GroupOutcome | src/index.mjs:48-76 | over keyed directories the group side succeeds iff the deletions succeed and every present group's gids agree. Then no group is modified; otherwise the error is the missing range or a gid change |
| Provision.UserOutcome | src/index.mjs:78-118 | read by element, the user side succeeds iff the deletions and the reference outcome succeed, with the reference arguments. It fails only on the missing range, a uid change or a dangling primary group |
| Provision.UserSettings | src/index.mjs:120-133 | read by element, the key updates are the live configured users whose keys differ. The passwords set are those of configured users whose password differs and that are new or always updated |
| Provision.AsWrittenNewUserFails | src/index.mjs:82-85 | as written, a configured user that is not live, whose name is not "length" or a canonical decimal, makes the user side throw `TypeError` |
| Provision.NewUserExample | src/index.mjs:78-85 | for one configured user "alice" and nothing live, the as-written run throws, while the intended run creates her and sets her password |
| Provision.ProvisionPlan | src/index.mjs:15-46 | an unaccepted document ends with "Invalid config"; mismatched passwd and shadow files end with the count mismatch |
| Provision.ConfiguredKeyed | src/utils.mjs:66-82 | a loaded configuration is coherent and keyed by name |
| Provision.ExistingKeyed | src/utils.mjs:92-137 | a live directory read from well-formed files is well formed and keyed by name |
| Provision.CorrectedChangeSet | src/index.mjs:48-133 | read by element, over keyed directories, the change set fails only on a missing range or a refused id or primary group change, and modifies no group |
| Provision.CorrectedPlan | src/index.mjs:12-133 | read by element, a whole run fails only on an invalid configuration, mismatched account files, a missing range or a refused id or primary group change, and modifies no group |

## Left out

- File reads, `process.argv`, `process.exit` and `console.log` (src/index.mjs:8-18, :34-42, :122-129) are I/O. The three account files and the key files are inputs as text, or as a map from path to contents. The warning about users without passwords is only logged, so it is not modelled.
- `Promise.all` in `getSSHKeys` and `getExistingDirectory` is treated as a sequential map.
- Ajv's compilation is a library. Only the predicate the schemas describe, and `useDefaults` filling, are modelled (`JsonSchema`). The aggregated error list is reduced to "Invalid config".
- `src/patch.mjs`, the integration tests and `jest.config.js` are not part of this model. The apply phase described by the comment at src/index.mjs:135-173 is not implemented in the source, so it is not modelled.
- Numbers are whole numbers. The uid and gid fields of the account files are required to be digit strings. This excludes every text on which `Number()` does something else: `NaN` for non-numeric text, and the values it gives to text such as `" 12"`, `"0x10"` or `"1e3"`.
- The prototype chain is not modelled (`"constructor" in {}`). Arrays' own `length` key is modelled, because it matters for `u in newUsers`.
- Object key order is insertion order. JavaScript's rule that integer-like keys come first is not modelled.
- `sort()` is modelled as lexicographic order on character codes with an insertion sort. UTF-16 surrogate details are not modelled.
- Two arrays or objects are never `===` unless compared with themselves, and that case is covered by `Compare.DeepEqualReflexive`.
- `Plan.KeyUpdates`: its ensures states only the as-written direction (users needing an update are configured and not counted as new). The full characterisation is `Plan.KeyPhase`, under the intended membership test, because as written the earlier `userPropertyDiff` already throws for any user the test misclassifies.
- `Provision.ProvisionPlan`: its ensures covers the two early failures. What the change set holds is stated by `Provision.CorrectedPlan`, `Provision.GroupLists`, `Provision.UserLists`, `Provision.UserOutcome` and `Provision.UserSettings`.
- The following members carry no contract of their own; the rows named after each state their behaviour:
  - `Provision.GroupChangesOf` and `Provision.ChangeSetOf`: `Provision.GroupLists`, `Provision.GroupOutcome`, `Provision.CorrectedChangeSet`;
  - `ConfiguredDirectory.GetConfiguredDirectory` (`getConfiguredDirectory`, src/utils.mjs:66-82): the `ConfiguredDirectory` rows and `Provision.ConfiguredKeyed`;
  - `SshKeys.GetSSHKeys` (`getSSHKeys`, src/index.mjs:20-29): `SshKeys.SSHKeysOf` and `SshKeys.SSHKeysKeys`;
  - `JsObjects.IsPrimitive` (`isPrimitive`, src/utils.mjs:155-157): `Compare.DeepEqual`, `Compare.PrimitiveArrays` and `Compare.DeepEqualCrossKind`;
  - `ExistingDirectory.LiveUser` (the passwd callback, src/utils.mjs:119-133): `ExistingDirectory.LivePrimaryGroup`, `ExistingDirectory.AdditionalGroups` and `ExistingDirectory.LiveUserEntry`;
  - `ModArgs.GroupArgs` and `ModArgs.UserArgs`, the callbacks of src/index.mjs:59-118 as functions: `ModArgs.GroupModArgs`, `ModArgs.GroupUpdate`, `ModArgs.UserModArgs`, `ModArgs.UserUpdate` and `ModArgs.UserArgsShape`.

## Findings

| source | as written | input that shows it | evidently intended | confidence | as-written member | corrected member |
|---|---|---|---|---|---|---|
| src/index.mjs:83 | `!(u in newUsers)` tests whether `u` is a property key of the array `newUsers` ("length" or an index), not whether it is an element. A configured user that is not live passes the filter, and `diffProperties(configUsers[u], users[u])` then throws on `Object.keys(undefined)`. The same test at :120 and :132 misclassifies new users too | a configuration with the single user "alice" and no live users | `!newUsers.includes(u)`, so that new users are skipped by the diff and counted as new for keys and passwords | high; not executed | Provision.AsWrittenNewUserFails | Provision.UserOutcome |
