/** File discovery: which files under the commands directory are command
    modules (`get_all_command_files` and `cmd_file_pattern`). The directory
    walk is an input: one `DirEntry` per directory, in the order the walk
    visits them, with the names of the files directly inside it. */
module Discovery {
  import opened Text

  const CommandSuffix := "_command.py"
  const CacheDirName := "__pycache__"

  datatype DirEntry = DirEntry(root: string, names: seq<string>)

  /** The name pattern `\w*_command\.py` matches at the start of `name` with
      `k` word characters before the suffix. */
  ghost predicate NameMatchesWith(name: string, k: int) {
    0 <= k && k + |CommandSuffix| <= |name|
    && AllWordChars(name[..k]) && name[k..k + |CommandSuffix|] == CommandSuffix
  }

  /** Tries every split point `k, k + 1, ...` while the characters skipped
      are word characters. */
  function MatchesFrom(name: string, k: nat): bool
    requires k <= |name|
    decreases |name| - k
  {
    if k + |CommandSuffix| > |name| then false
    else if name[k..k + |CommandSuffix|] == CommandSuffix then true
    else if IsWordChar(name[k]) then MatchesFrom(name, k + 1)
    else false
  }

  /** `cmd_file_pattern.match(name)`: anchored at the start of the name only,
      so anything may follow the suffix. */
  predicate IsCommandFileName(name: string) {
    MatchesFrom(name, 0)
  }

  lemma {:induction false} MatchesFromSpec(name: string, k: nat)
    requires k <= |name| && AllWordChars(name[..k])
    ensures MatchesFrom(name, k) <==> exists m :: k <= m && NameMatchesWith(name, m)
    decreases |name| - k
  {
    if k + |CommandSuffix| > |name| {
    } else if name[k..k + |CommandSuffix|] == CommandSuffix {
      assert NameMatchesWith(name, k);
    } else if IsWordChar(name[k]) {
      assert name[..k + 1] == name[..k] + [name[k]];
      MatchesFromSpec(name, k + 1);
      if exists m :: k <= m && NameMatchesWith(name, m) {
        var m :| k <= m && NameMatchesWith(name, m);
        assert m != k;
      }
    } else {
      if exists m :: k <= m && NameMatchesWith(name, m) {
        var m :| k <= m && NameMatchesWith(name, m);
        assert m != k;
        assert name[..m][k] == name[k];
      }
    }
  }

  /** A name is accepted iff some prefix of word characters is followed by
      `_command.py`. */
  lemma CommandFileNameSpec(name: string)
    ensures IsCommandFileName(name) <==> exists k :: NameMatchesWith(name, k)
  {
    MatchesFromSpec(name, 0);
  }

  /** `help_command.py` and a compiled `x_command.pyc` are accepted. */
  lemma AcceptsCommandModules()
    ensures IsCommandFileName("help_command.py")
    ensures IsCommandFileName("x_command.pyc")
  {
    AcceptsHelpModule("help_command.py");
    AcceptsCompiledModule("x_command.pyc");
  }

  lemma AcceptsHelpModule(h: string)
    requires h == "help_command.py"
    ensures IsCommandFileName(h)
  {
    assert h[4..4 + |CommandSuffix|] == CommandSuffix;
    assert MatchesFrom(h, 4);
    assert MatchesFrom(h, 3) by { assert h[3] != CommandSuffix[0] && IsWordChar(h[3]); }
    assert MatchesFrom(h, 2) by { assert h[2] != CommandSuffix[0] && IsWordChar(h[2]); }
    assert MatchesFrom(h, 1) by { assert h[1] != CommandSuffix[0] && IsWordChar(h[1]); }
    assert MatchesFrom(h, 0) by { assert h[0] != CommandSuffix[0] && IsWordChar(h[0]); }
  }

  lemma AcceptsCompiledModule(x: string)
    requires x == "x_command.pyc"
    ensures IsCommandFileName(x)
  {
    assert x[1..1 + |CommandSuffix|] == CommandSuffix;
    assert !(x[0..|CommandSuffix|] == CommandSuffix) by { assert x[0] != CommandSuffix[0]; }
  }

  /** The generated `all_commands.py` is never taken for a command module,
      nor is a bare `command.py`. */
  lemma RejectsGeneratedFile()
    ensures !IsCommandFileName("all_commands.py")
    ensures !IsCommandFileName("command.py")
  {
    var a := "all_commands.py";
    assert !(a[0..|CommandSuffix|] == CommandSuffix) by { assert a[0] != CommandSuffix[0]; }
    assert !(a[1..1 + |CommandSuffix|] == CommandSuffix) by { assert a[1] != CommandSuffix[0]; }
    assert !(a[2..2 + |CommandSuffix|] == CommandSuffix) by { assert a[2] != CommandSuffix[0]; }
    assert !(a[3..3 + |CommandSuffix|] == CommandSuffix) by { assert a[3 + 9] != CommandSuffix[9]; }
    assert !(a[4..4 + |CommandSuffix|] == CommandSuffix) by { assert a[4] != CommandSuffix[0]; }
  }

  predicate IsCacheDir(root: string) {
    |CacheDirName| <= |root| && root[|root| - |CacheDirName|..] == CacheDirName
  }

  /** The paths produced for one directory: `root + "/" + name` for every
      accepted name, in listing order. */
  function AcceptedIn(root: string, names: seq<string>): seq<string> {
    if names == [] then []
    else
      var last := names[|names| - 1];
      AcceptedIn(root, names[..|names| - 1])
        + (if IsCommandFileName(last) then [root + "/" + last] else [])
  }

  /** What the whole walk yields: the directories in walk order, cache
      directories contributing nothing. */
  function Discovered(walk: seq<DirEntry>): seq<string> {
    if walk == [] then []
    else
      var d := walk[|walk| - 1];
      Discovered(walk[..|walk| - 1]) + (if IsCacheDir(d.root) then [] else AcceptedIn(d.root, d.names))
  }

  /** `get_all_command_files` over a given walk. */
  method GetAllCommandFiles(walk: seq<DirEntry>) returns (result: seq<string>)
    ensures result == Discovered(walk)
  {
    result := [];
    for i := 0 to |walk|
      invariant result == Discovered(walk[..i])
    {
      assert walk[..i + 1][..i] == walk[..i];
      var root, files := walk[i].root, walk[i].names;
      if IsCacheDir(root) {
        continue;
      }
      for j := 0 to |files|
        invariant result == Discovered(walk[..i]) + AcceptedIn(root, files[..j])
      {
        assert files[..j + 1][..j] == files[..j];
        if IsCommandFileName(files[j]) {
          result := result + [root + "/" + files[j]];
        }
      }
      assert files[..|files|] == files;
    }
    assert walk[..|walk|] == walk;
  }

  lemma {:induction false} AcceptedInMembers(root: string, names: seq<string>, p: string)
    ensures p in AcceptedIn(root, names) <==>
      exists j :: 0 <= j < |names| && IsCommandFileName(names[j]) && p == root + "/" + names[j]
  {
    if names != [] {
      var init := names[..|names| - 1];
      AcceptedInMembers(root, init, p);
      if exists j :: 0 <= j < |names| && IsCommandFileName(names[j]) && p == root + "/" + names[j] {
        var j :| 0 <= j < |names| && IsCommandFileName(names[j]) && p == root + "/" + names[j];
        if j < |names| - 1 {
          assert init[j] == names[j];
        }
      }
    }
  }

  /** Name `j` of directory `i` of the walk yields path `p`. */
  ghost predicate ProducedBy(walk: seq<DirEntry>, i: int, j: int, p: string) {
    0 <= i < |walk| && 0 <= j < |walk[i].names| && !IsCacheDir(walk[i].root)
    && IsCommandFileName(walk[i].names[j]) && p == walk[i].root + "/" + walk[i].names[j]
  }

  /** Discovery returns exactly `root + "/" + name` for the accepted names of
      the directories that are not cache directories. */
  lemma {:induction false} DiscoveredMembers(walk: seq<DirEntry>, p: string)
    ensures p in Discovered(walk) <==> exists i, j :: ProducedBy(walk, i, j, p)
  {
    if walk != [] {
      var init, d := walk[..|walk| - 1], walk[|walk| - 1];
      DiscoveredMembers(init, p);
      AcceptedInMembers(d.root, d.names, p);
      if exists i, j :: ProducedBy(walk, i, j, p) {
        var i, j :| ProducedBy(walk, i, j, p);
        if i < |walk| - 1 {
          assert init[i] == walk[i];
          assert ProducedBy(init, i, j, p);
        } else {
          assert d.names[j] == walk[i].names[j];
        }
      }
      if exists i, j :: ProducedBy(init, i, j, p) {
        var i, j :| ProducedBy(init, i, j, p);
        assert init[i] == walk[i];
        assert ProducedBy(walk, i, j, p);
      }
      if exists j :: 0 <= j < |d.names| && IsCommandFileName(d.names[j]) && p == d.root + "/" + d.names[j] {
        var j :| 0 <= j < |d.names| && IsCommandFileName(d.names[j]) && p == d.root + "/" + d.names[j];
        if !IsCacheDir(d.root) {
          assert ProducedBy(walk, |walk| - 1, j, p);
        }
      }
    }
  }

  /** Discovery over a walk is discovery over each part of it, in order. */
  lemma {:induction false} DiscoveredAppend(a: seq<DirEntry>, b: seq<DirEntry>)
    ensures Discovered(a + b) == Discovered(a) + Discovered(b)
    decreases |b|
  {
    if b == [] {
      assert a + b == a;
    } else {
      var init, d := b[..|b| - 1], b[|b| - 1];
      assert (a + b)[..|a + b| - 1] == a + init;
      assert (a + b)[|a + b| - 1] == d;
      DiscoveredAppend(a, init);
      AppendAssoc(Discovered(a), Discovered(init), if IsCacheDir(d.root) then [] else AcceptedIn(d.root, d.names));
    }
  }

  /** A directory whose path ends in `__pycache__` contributes no path,
      wherever it comes in the walk. */
  lemma CacheDirsYieldNothing(a: seq<DirEntry>, d: DirEntry, b: seq<DirEntry>)
    requires IsCacheDir(d.root)
    ensures Discovered(a + [d] + b) == Discovered(a + b)
  {
    DiscoveredAppend(a + [d], b);
    DiscoveredAppend(a, b);
    assert (a + [d])[..|a + [d]| - 1] == a;
  }

  /** At most one path per listed name. */
  lemma {:induction false} DiscoveredBound(walk: seq<DirEntry>)
    ensures |Discovered(walk)| <= TotalNames(walk)
  {
    if walk != [] {
      DiscoveredBound(walk[..|walk| - 1]);
      AcceptedInBound(walk[|walk| - 1].root, walk[|walk| - 1].names);
    }
  }

  lemma {:induction false} AcceptedInBound(root: string, names: seq<string>)
    ensures |AcceptedIn(root, names)| <= |names|
  {
    if names != [] {
      AcceptedInBound(root, names[..|names| - 1]);
    }
  }

  function TotalNames(walk: seq<DirEntry>): nat {
    if walk == [] then 0 else TotalNames(walk[..|walk| - 1]) + |walk[|walk| - 1].names|
  }
}
