/** `getSSHKeys` (src/index.mjs:20-29): each live user's authorized keys,
    one per non-empty line of `<base>/<user>/.ssh/authorized_keys`. */
module SshKeys {
  import opened Text
  import opened Dicts

  /** `${base_dir}/${u}/.ssh/authorized_keys`. */
  function KeyPath(base: string, u: string): string
  {
    base + "/" + u + "/.ssh/authorized_keys"
  }

  /** The keys in one file: its non-empty lines; a file that cannot be read
      (absent from `files`) counts as empty. */
  function FileKeys(files: map<string, string>, path: string): (keys: seq<string>)
    ensures path !in files ==> keys == []
    ensures forall k :: k in keys ==> k != [] && '\n' !in k
    ensures path in files ==> multiset(keys) == multiset(Split(files[path], '\n'))["" := 0]
  {
    var text := if path in files then files[path] else "";
    assert forall l :: l in Lines(text) ==> l != [] && '\n' !in l by {
      forall l | l in Lines(text) ensures l != [] && '\n' !in l {
        LinesAreNonBlankPieces(text, l);
      }
    }
    Lines(text)
  }

  /** Keys written one per line are read back as written, in order. */
  lemma FileKeysRoundTrip(files: map<string, string>, path: string, keys: seq<string>)
    requires path in files && files[path] == Join(keys, "\n")
    requires forall i :: 0 <= i < |keys| ==> keys[i] != [] && '\n' !in keys[i]
    ensures FileKeys(files, path) == keys
  {
    if |keys| > 0 {
      SplitJoin(keys, '\n');
      NonEmptyKeepsAll(keys);
    }
  }

  /** The entries `[u, keys]`, one per username. */
  function KeyFileEntries(usernames: seq<string>, base: string, files: map<string, string>)
    : (e: seq<(string, seq<string>)>)
    ensures |e| == |usernames|
    ensures forall i :: 0 <= i < |usernames| ==> e[i] == (usernames[i], FileKeys(files, KeyPath(base, usernames[i])))
  {
    seq(|usernames|, i requires 0 <= i < |usernames| => (usernames[i], FileKeys(files, KeyPath(base, usernames[i]))))
  }

  /** `getSSHKeys(usernames, base_dir)`, with the file system given as the
      contents of the files that can be read. */
  function GetSSHKeys(usernames: seq<string>, base: string, files: map<string, string>): Dict<seq<string>>
  {
    FromEntries(KeyFileEntries(usernames, base, files))
  }

  /** The dictionary has a key per username, and for distinct usernames each
      user's value is the keys of that user's own file. */
  lemma SSHKeysOf(usernames: seq<string>, base: string, files: map<string, string>, i: nat)
    requires i < |usernames|
    requires forall j :: 0 <= j < |usernames| && j != i ==> usernames[j] != usernames[i]
    ensures var d := GetSSHKeys(usernames, base, files);
      && usernames[i] in d.values
      && d.values[usernames[i]] == FileKeys(files, KeyPath(base, usernames[i]))
  {
    FromEntriesLastWins(KeyFileEntries(usernames, base, files), i);
  }

  /** The dictionary's keys are exactly the usernames. */
  lemma SSHKeysKeys(usernames: seq<string>, base: string, files: map<string, string>)
    ensures forall u :: u in GetSSHKeys(usernames, base, files).values <==> u in usernames
  {
    var e := KeyFileEntries(usernames, base, files);
    forall u | u in usernames ensures u in FromEntries(e).values {
      var i :| 0 <= i < |usernames| && usernames[i] == u;
      assert e[i].0 == u;
    }
  }
}
