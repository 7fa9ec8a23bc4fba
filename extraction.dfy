/** Extraction (`build_all_commands`): scan each discovered file for its
    trigger and class name, record `trigger -> {class, file}` in an
    insertion-ordered table, and remove the files that yielded no entry from
    the caller's list in place. File contents are an input: a map from path
    to the file's lines. */
module Extraction {
  import opened Wrappers
  import opened Text
  import opened Patterns

  /** One value of the `cmds` dictionary, with its key. */
  datatype Entry = Entry(trigger: string, className: string, file: string)

  /** A Python dict as the program uses it: entries in insertion order. */
  type Table = seq<Entry>

  // ---------------------------------------------------------------------
  // Scanning one file

  /** The capture of the last line on which the pattern matches. */
  function LastMatch(p: Pattern, lines: seq<string>): Option<string> {
    if lines == [] then None
    else
      var last := Search(p, lines[|lines| - 1]);
      if last.Some? then last else LastMatch(p, lines[..|lines| - 1])
  }

  /** The value a variable holds after the loop that starts it at `""` and
      overwrites it with the capture of every matching line. */
  function LastCapture(p: Pattern, lines: seq<string>): string {
    match LastMatch(p, lines)
    case Some(g) => g
    case None => ""
  }

  /** The last matching line decides: a match on line `k` and none after it
      gives the capture of line `k`. */
  lemma {:induction false} LastMatchWins(p: Pattern, lines: seq<string>, k: nat, g: string)
    requires k < |lines| && Search(p, lines[k]) == Some(g)
    requires forall j :: k < j < |lines| ==> Search(p, lines[j]).None?
    ensures LastMatch(p, lines) == Some(g)
    ensures LastCapture(p, lines) == g
  {
    if k < |lines| - 1 {
      var init := lines[..|lines| - 1];
      assert init[k] == lines[k];
      LastMatchWins(p, init, k, g);
    }
  }

  /** No matching line leaves the variable at `""`. */
  lemma {:induction false} NoMatchNoCapture(p: Pattern, lines: seq<string>)
    requires forall j :: 0 <= j < |lines| ==> Search(p, lines[j]).None?
    ensures LastMatch(p, lines) == None
    ensures LastCapture(p, lines) == ""
  {
    if lines != [] {
      var init := lines[..|lines| - 1];
      assert forall j :: 0 <= j < |init| ==> init[j] == lines[j];
      NoMatchNoCapture(p, init);
    }
  }

  /** The two facts scanned from one file. */
  datatype Facts = Facts(command: string, className: string)

  function FactsOf(lines: seq<string>): Facts {
    Facts(LastCapture(CommandPattern, lines), LastCapture(ClassPattern, lines))
  }

  /** `if class_name and command`: both captures are non-empty. */
  predicate Registers(lines: seq<string>) {
    FactsOf(lines).command != "" && FactsOf(lines).className != ""
  }

  /** The inner loop of `build_all_commands` over one file's lines. */
  method ScanFile(lines: seq<string>) returns (command: string, className: string)
    ensures command == LastCapture(CommandPattern, lines)
    ensures className == LastCapture(ClassPattern, lines)
  {
    command, className := "", "";
    for i := 0 to |lines|
      invariant command == LastCapture(CommandPattern, lines[..i])
      invariant className == LastCapture(ClassPattern, lines[..i])
    {
      assert lines[..i + 1][..i] == lines[..i];
      var cmdMatch := Search(CommandPattern, lines[i]);
      var classMatch := Search(ClassPattern, lines[i]);
      if cmdMatch.Some? {
        command := cmdMatch.value;
      }
      if classMatch.Some? {
        className := classMatch.value;
      }
    }
    assert lines[..|lines|] == lines;
  }

  /** A registered file's trigger and class have the shape the patterns
      allow: `!` plus alphanumerics, and a non-empty alphanumeric name. */
  lemma RegisteredShape(lines: seq<string>)
    requires Registers(lines)
    ensures IsTrigger(FactsOf(lines).command)
    ensures |FactsOf(lines).className| > 0 && AllAlnum(FactsOf(lines).className)
  {
    LastMatchShape(CommandPattern, lines);
    LastMatchShape(ClassPattern, lines);
  }

  lemma {:induction false} LastMatchShape(p: Pattern, lines: seq<string>)
    ensures LastMatch(p, lines).Some? ==>
      StartsWith(LastMatch(p, lines).value, p.sigil) && AllAlnum(LastMatch(p, lines).value[|p.sigil|..])
  {
    if lines != [] {
      LastMatchShape(p, lines[..|lines| - 1]);
    }
  }

  /** A later `class (` line with an empty name resets the class name and
      the file registers nothing. */
  lemma EmptyClassLineDrops(lines: seq<string>, k: nat)
    requires k < |lines| && Search(ClassPattern, lines[k]) == Some("")
    requires forall j :: k < j < |lines| ==> Search(ClassPattern, lines[j]).None?
    ensures !Registers(lines)
  {
    LastMatchWins(ClassPattern, lines, k, "");
  }

  // ---------------------------------------------------------------------
  // The insertion-ordered table

  /** The keys in insertion order. */
  function Keys(t: Table): (keys: seq<string>)
    ensures |keys| == |t|
    ensures forall i :: 0 <= i < |t| ==> keys[i] == t[i].trigger
  {
    if t == [] then [] else Keys(t[..|t| - 1]) + [t[|t| - 1].trigger]
  }

  /** Index of the entry with key `key`, or `|t|` when there is none. */
  function IndexOf(t: Table, key: string): (k: nat)
    ensures k <= |t|
    ensures k < |t| ==> t[k].trigger == key
    ensures forall j :: 0 <= j < k ==> t[j].trigger != key
  {
    if t == [] then 0
    else if t[0].trigger == key then 0
    else 1 + IndexOf(t[1..], key)
  }

  ghost predicate UniqueKeys(t: Table) {
    forall i, j :: 0 <= i < j < |t| ==> t[i].trigger != t[j].trigger
  }

  /** `cmds[trigger] = {...}`: a key already present keeps its position and
      gets the new value; a new key goes to the end. */
  function Put(t: Table, e: Entry): (r: Table)
    ensures IndexOf(t, e.trigger) < |t| ==> |r| == |t| && IndexOf(r, e.trigger) == IndexOf(t, e.trigger)
    ensures IndexOf(t, e.trigger) == |t| ==> |r| == |t| + 1 && r[..|t|] == t
    ensures e in r
    ensures forall j :: 0 <= j < |r| && r[j].trigger != e.trigger ==> j < |t| && r[j] == t[j]
    ensures UniqueKeys(t) ==> UniqueKeys(r)
  {
    var k := IndexOf(t, e.trigger);
    if k < |t| then
      IndexOfAt(t[k := e], e.trigger, k);
      t[k := e]
    else
      IndexOfAt(t + [e], e.trigger, |t|);
      t + [e]
  }

  /** The first entry with the key is the one `IndexOf` finds. */
  lemma IndexOfAt(t: Table, key: string, k: nat)
    requires k < |t| && t[k].trigger == key
    requires forall j :: 0 <= j < k ==> t[j].trigger != key
    ensures IndexOf(t, key) == k
  {
  }

  /** Looking up a key after a `Put`: the new value for that key, the old
      one for every other. */
  lemma PutLookup(t: Table, e: Entry, key: string)
    requires UniqueKeys(t)
    ensures var r := Put(t, e);
      IndexOf(r, key) < |r| <==> (key == e.trigger || IndexOf(t, key) < |t|)
    ensures var r := Put(t, e);
      key == e.trigger ==> r[IndexOf(r, key)] == e
    ensures var r := Put(t, e);
      key != e.trigger && IndexOf(t, key) < |t| ==> r[IndexOf(r, key)] == t[IndexOf(t, key)]
  {
    var r := Put(t, e);
    var k := IndexOf(t, e.trigger);
    if k < |t| {
      assert r[k] == e;
    } else {
      assert r[|t|] == e;
    }
    if key != e.trigger && IndexOf(t, key) < |t| {
      var m := IndexOf(t, key);
      assert r[m] == t[m];
    }
    if IndexOf(r, key) < |r| && key != e.trigger {
      var m := IndexOf(r, key);
      assert r[m] == t[m];
    }
  }

  // ---------------------------------------------------------------------
  // What the loop over files computes

  /** File `f` can be opened and registers an entry. */
  predicate Produces(fs: map<string, seq<string>>, f: string) {
    f in fs && Registers(fs[f])
  }

  function EntryOf(fs: map<string, seq<string>>, f: string): Entry
    requires f in fs
  {
    Entry(FactsOf(fs[f]).command, FactsOf(fs[f]).className, f)
  }

  /** The `cmds` dictionary after the loop over `files`. */
  function TableOf(files: seq<string>, fs: map<string, seq<string>>): Table {
    if files == [] then []
    else
      var t := TableOf(files[..|files| - 1], fs);
      var f := files[|files| - 1];
      if Produces(fs, f) then Put(t, EntryOf(fs, f)) else t
  }

  /** The files kept, in their original order. */
  function Survivors(files: seq<string>, fs: map<string, seq<string>>): seq<string> {
    if files == [] then []
    else (if Produces(fs, files[0]) then [files[0]] else []) + Survivors(files[1..], fs)
  }

  /** `files_to_remove`: the files without an entry, in order. */
  function Failing(files: seq<string>, fs: map<string, seq<string>>): seq<string> {
    if files == [] then []
    else (if Produces(fs, files[0]) then [] else [files[0]]) + Failing(files[1..], fs)
  }

  lemma SurvivorsAppend(a: seq<string>, b: seq<string>, fs: map<string, seq<string>>)
    ensures Survivors(a + b, fs) == Survivors(a, fs) + Survivors(b, fs)
    ensures Failing(a + b, fs) == Failing(a, fs) + Failing(b, fs)
  {
    SurvivorsConcat(a, b, fs);
    FailingConcat(a, b, fs);
  }

  lemma {:induction false} SurvivorsConcat(a: seq<string>, b: seq<string>, fs: map<string, seq<string>>)
    ensures Survivors(a + b, fs) == Survivors(a, fs) + Survivors(b, fs)
  {
    if a == [] {
      assert a + b == b;
    } else {
      assert (a + b)[0] == a[0];
      assert (a + b)[1..] == a[1..] + b;
      SurvivorsConcat(a[1..], b, fs);
    }
  }

  lemma {:induction false} FailingConcat(a: seq<string>, b: seq<string>, fs: map<string, seq<string>>)
    ensures Failing(a + b, fs) == Failing(a, fs) + Failing(b, fs)
  {
    if a == [] {
      assert a + b == b;
    } else {
      assert (a + b)[0] == a[0];
      assert (a + b)[1..] == a[1..] + b;
      FailingConcat(a[1..], b, fs);
    }
  }

  /** Every file is kept or removed, never both, never neither. */
  lemma {:induction false} SurvivorsMembers(files: seq<string>, fs: map<string, seq<string>>, f: string)
    ensures f in Survivors(files, fs) <==> f in files && Produces(fs, f)
    ensures f in Failing(files, fs) <==> f in files && !Produces(fs, f)
    ensures |Survivors(files, fs)| + |Failing(files, fs)| == |files|
  {
    if files != [] {
      SurvivorsMembers(files[1..], fs, f);
      assert files == [files[0]] + files[1..];
    }
  }

  /** `list.remove(x)`: drop the first occurrence, if there is one. */
  function RemoveFirst(s: seq<string>, x: string): seq<string> {
    if s == [] then []
    else if s[0] == x then s[1..]
    else [s[0]] + RemoveFirst(s[1..], x)
  }

  lemma {:induction false} RemoveFirstAfter(a: seq<string>, x: string, b: seq<string>)
    requires x !in a
    ensures RemoveFirst(a + [x] + b, x) == a + b
  {
    if a == [] {
      assert a + [x] + b == [x] + b;
    } else {
      assert (a + [x] + b)[1..] == a[1..] + [x] + b;
      RemoveFirstAfter(a[1..], x, b);
      assert a + b == [a[0]] + (a[1..] + b);
    }
  }

  lemma RemoveFirstAt(s: seq<string>, x: string, k: nat)
    requires k < |s| && s[k] == x && x !in s[..k]
    ensures RemoveFirst(s, x) == s[..k] + s[k + 1..]
  {
    assert s == s[..k] + [x] + s[k + 1..];
    RemoveFirstAfter(s[..k], x, s[k + 1..]);
  }

  lemma {:induction false} RemoveFirstAbsent(s: seq<string>, x: string)
    requires x !in s
    ensures RemoveFirst(s, x) == s
  {
    if s != [] {
      RemoveFirstAbsent(s[1..], x);
    }
  }

  /** The caller's file list, which `build_all_commands` changes in place. */
  class FileList {
    var items: seq<string>

    constructor (items: seq<string>)
      ensures this.items == items
    {
      this.items := items;
    }

    /** `list.remove(x)`; `found` is false where Python raises
        `ValueError`, and then nothing changes. */
    method Remove(x: string) returns (found: bool)
      modifies this
      ensures found == (x in old(items))
      ensures items == RemoveFirst(old(items), x)
    {
      var k := 0;
      while k < |items| && items[k] != x
        invariant k <= |items|
        invariant x !in items[..k]
      {
        assert items[..k + 1] == items[..k] + [items[k]];
        k := k + 1;
      }
      found := k < |items|;
      if found {
        RemoveFirstAt(items, x, k);
        items := items[..k] + items[k + 1..];
      } else {
        assert items[..k] == items;
        RemoveFirstAbsent(items, x);
      }
    }
  }

  /** `rest[a]` is the first file of `rest` without an entry. */
  ghost predicate FailsFirstAt(rest: seq<string>, fs: map<string, seq<string>>, a: int) {
    0 <= a < |rest| && Failing(rest, fs) != [] && rest[a] == Failing(rest, fs)[0]
    && Survivors(rest[..a + 1], fs) == rest[..a]
    && Failing(rest[a + 1..], fs) == Failing(rest, fs)[1..]
  }

  lemma {:induction false} FirstFailing(rest: seq<string>, fs: map<string, seq<string>>)
    requires Failing(rest, fs) != []
    ensures exists a :: FailsFirstAt(rest, fs, a)
  {
    if Produces(fs, rest[0]) {
      FirstFailing(rest[1..], fs);
      var a :| FailsFirstAt(rest[1..], fs, a);
      FailsFirstShift(rest, fs, a);
    } else {
      FailsFirstHead(rest, fs);
    }
  }

  lemma FailsFirstShift(rest: seq<string>, fs: map<string, seq<string>>, a: nat)
    requires rest != [] && Produces(fs, rest[0]) && FailsFirstAt(rest[1..], fs, a)
    ensures FailsFirstAt(rest, fs, a + 1)
  {
    assert rest[..a + 1] == [rest[0]] + rest[1..][..a];
    assert rest[..a + 2] == [rest[0]] + rest[1..][..a + 1];
    assert rest[a + 2..] == rest[1..][a + 1..];
  }

  lemma FailsFirstHead(rest: seq<string>, fs: map<string, seq<string>>)
    requires rest != [] && !Produces(fs, rest[0])
    ensures FailsFirstAt(rest, fs, 0)
  {
    assert rest[..1] == [rest[0]];
    assert rest[1..] == rest[0 + 1..];
  }

  lemma {:induction false} SurvivorsProduce(files: seq<string>, fs: map<string, seq<string>>)
    ensures forall f :: f in Survivors(files, fs) ==> Produces(fs, f)
  {
    forall f | f in Survivors(files, fs) ensures Produces(fs, f) {
      SurvivorsMembers(files, fs, f);
    }
  }

  lemma {:induction false} NoFailingAllSurvive(files: seq<string>, fs: map<string, seq<string>>)
    requires Failing(files, fs) == []
    ensures Survivors(files, fs) == files
  {
    if files != [] {
      NoFailingAllSurvive(files[1..], fs);
    }
  }

  /** `build_all_commands(files)`: returns the table and leaves in `files`
      exactly the files that produced an entry, in their original order. */
  method BuildAllCommands(files: FileList, fs: map<string, seq<string>>) returns (cmds: Table)
    requires forall f :: f in files.items ==> f in fs
    modifies files
    ensures cmds == TableOf(old(files.items), fs)
    ensures files.items == Survivors(old(files.items), fs)
  {
    ghost var input := files.items;
    cmds := [];
    var filesToRemove: seq<string> := [];
    for i := 0 to |files.items|
      invariant files.items == input
      invariant cmds == TableOf(input[..i], fs)
      invariant filesToRemove == Failing(input[..i], fs)
    {
      assert input[..i + 1][..i] == input[..i];
      var f := files.items[i];
      SurvivorsAppend(input[..i], [f], fs);
      assert input[..i + 1] == input[..i] + [f];
      var command, className := ScanFile(fs[f]);
      if className != "" && command != "" {
        cmds := Put(cmds, Entry(command, className, f));
      } else {
        filesToRemove := filesToRemove + [f];
      }
    }
    assert input[..|input|] == input;
    RemoveFiles(files, filesToRemove, fs);
  }

  /** One removal: the first file still listed that has no entry goes. */
  lemma RemovalStep(done: seq<string>, rest: seq<string>, fs: map<string, seq<string>>, a: nat)
    requires FailsFirstAt(rest, fs, a)
    ensures RemoveFirst(Survivors(done, fs) + rest, rest[a])
      == Survivors(done + rest[..a + 1], fs) + rest[a + 1..]
  {
    var x := rest[a];
    FailingNotBefore(done, rest, fs, a);
    SplitAround(Survivors(done, fs), rest, a);
    RemoveFirstAfter(Survivors(done, fs) + rest[..a], x, rest[a + 1..]);
    SurvivorsConcat(done, rest[..a + 1], fs);
  }

  /** The first failing file of `rest` occurs neither among the earlier
      survivors nor before its own position. */
  lemma FailingNotBefore(done: seq<string>, rest: seq<string>, fs: map<string, seq<string>>, a: nat)
    requires FailsFirstAt(rest, fs, a)
    ensures rest[a] !in Survivors(done, fs) + rest[..a]
  {
    var x := rest[a];
    SurvivorsProduce(done, fs);
    SurvivorsMembers(rest, fs, x);
    assert x in Failing(rest, fs);
    SurvivorsProduce(rest[..a + 1], fs);
  }

  lemma SplitAround(s: seq<string>, rest: seq<string>, a: nat)
    requires a < |rest|
    ensures s + rest == (s + rest[..a]) + [rest[a]] + rest[a + 1..]
  {
    assert rest == rest[..a] + [rest[a]] + rest[a + 1..];
  }

  lemma ConcatSplit(a: seq<string>, b: seq<string>, n: nat)
    requires n <= |b|
    ensures a + b == (a + b[..n]) + b[n..]
  {
    assert b == b[..n] + b[n..];
  }

  /** The next file to remove is the first failing file of what is left. */
  lemma NextRemoval(rest: seq<string>, fs: map<string, seq<string>>, filesToRemove: seq<string>, k: nat)
    returns (a: nat)
    requires k < |filesToRemove| && filesToRemove[k..] == Failing(rest, fs)
    ensures FailsFirstAt(rest, fs, a)
    ensures filesToRemove[k] == rest[a]
    ensures filesToRemove[k + 1..] == Failing(rest[a + 1..], fs)
  {
    FirstFailing(rest, fs);
    a :| FailsFirstAt(rest, fs, a);
    assert filesToRemove[k] == filesToRemove[k..][0];
    assert filesToRemove[k + 1..] == filesToRemove[k..][1..];
  }

  /** `for f in files_to_remove: files.remove(f)`, with `files_to_remove`
      the files that produced no entry. */
  method RemoveFiles(files: FileList, filesToRemove: seq<string>, fs: map<string, seq<string>>)
    requires filesToRemove == Failing(files.items, fs)
    modifies files
    ensures files.items == Survivors(old(files.items), fs)
  {
    ghost var input := files.items;
    ghost var done: seq<string> := [];
    ghost var rest := input;
    for k := 0 to |filesToRemove|
      invariant input == done + rest
      invariant files.items == Survivors(done, fs) + rest
      invariant filesToRemove[k..] == Failing(rest, fs)
    {
      ghost var a := NextRemoval(rest, fs, filesToRemove, k);
      RemovalStep(done, rest, fs, a);
      var found := files.Remove(filesToRemove[k]);
      assert found;
      ghost var done', rest' := done + rest[..a + 1], rest[a + 1..];
      ConcatSplit(done, rest, a + 1);
      done, rest := done', rest';
    }
    NoFailingAllSurvive(rest, fs);
    SurvivorsAppend(done, rest, fs);
  }

  // ---------------------------------------------------------------------
  // Properties of the table

  /** Every entry comes from a listed file that registers, carries exactly
      what that file declares, and keys are unique. */
  lemma {:induction false} TableEntries(files: seq<string>, fs: map<string, seq<string>>)
    ensures UniqueKeys(TableOf(files, fs))
    ensures forall i :: 0 <= i < |TableOf(files, fs)| ==>
      var e := TableOf(files, fs)[i];
      e.file in files && Produces(fs, e.file) && e == EntryOf(fs, e.file)
  {
    if files != [] {
      var init := files[..|files| - 1];
      TableEntries(init, fs);
    }
  }

  /** Every stored trigger is `!` plus alphanumerics; every stored class name
      is non-empty and alphanumeric. */
  lemma TableShapes(files: seq<string>, fs: map<string, seq<string>>)
    ensures forall i :: 0 <= i < |TableOf(files, fs)| ==>
      IsTrigger(TableOf(files, fs)[i].trigger)
      && |TableOf(files, fs)[i].className| > 0 && AllAlnum(TableOf(files, fs)[i].className)
  {
    TableEntries(files, fs);
    forall i | 0 <= i < |TableOf(files, fs)|
      ensures IsTrigger(TableOf(files, fs)[i].trigger)
      ensures |TableOf(files, fs)[i].className| > 0 && AllAlnum(TableOf(files, fs)[i].className)
    {
      RegisteredShape(fs[TableOf(files, fs)[i].file]);
    }
  }

  /** A file is the `file` of at most one entry. */
  lemma OneEntryPerFile(files: seq<string>, fs: map<string, seq<string>>)
    ensures forall i, j :: (0 <= i < |TableOf(files, fs)| && 0 <= j < |TableOf(files, fs)|
      && TableOf(files, fs)[i].file == TableOf(files, fs)[j].file) ==> i == j
  {
    TableEntries(files, fs);
  }

  /** No more entries than files, and no more survivors than files. */
  lemma {:induction false} TableSize(files: seq<string>, fs: map<string, seq<string>>)
    ensures |TableOf(files, fs)| <= |Survivors(files, fs)| <= |files|
  {
    if files != [] {
      var init := files[..|files| - 1];
      TableSize(init, fs);
      assert files == init + [files[|files| - 1]];
      SurvivorsAppend(init, [files[|files| - 1]], fs);
    }
  }

  /** Inserting more files never moves a key: the keys of an earlier table
      are, position by position, the first keys of the later one. */
  lemma {:induction false} KeysKeepPosition(files: seq<string>, fs: map<string, seq<string>>, n: nat)
    requires n <= |files|
    ensures |TableOf(files[..n], fs)| <= |TableOf(files, fs)|
    ensures forall i :: 0 <= i < |TableOf(files[..n], fs)| ==>
      TableOf(files, fs)[i].trigger == TableOf(files[..n], fs)[i].trigger
  {
    if n < |files| {
      var init := files[..|files| - 1];
      assert init[..n] == files[..n];
      KeysKeepPosition(init, fs, n);
    } else {
      assert files[..n] == files;
    }
  }

  /** Duplicate triggers: the entry for a trigger is that of the LAST file
      declaring it. */
  lemma {:induction false} LastWriterWins(files: seq<string>, fs: map<string, seq<string>>, m: nat)
    requires m < |files| && Produces(fs, files[m])
    requires forall j :: m < j < |files| && Produces(fs, files[j]) ==>
      EntryOf(fs, files[j]).trigger != EntryOf(fs, files[m]).trigger
    ensures EntryOf(fs, files[m]) in TableOf(files, fs)
  {
    var init := files[..|files| - 1];
    if m == |files| - 1 {
    } else {
      assert init[m] == files[m];
      LastWriterWins(init, fs, m);
    }
  }

  /** With distinct triggers and every file registering, the table has one
      entry per file, in file order. */
  lemma {:induction false} DistinctTriggersTable(files: seq<string>, fs: map<string, seq<string>>)
    requires AllRegisterDistinct(files, fs)
    ensures |TableOf(files, fs)| == |files|
    ensures forall j :: 0 <= j < |files| ==> TableOf(files, fs)[j] == EntryOf(fs, files[j])
  {
    if files != [] {
      var init := files[..|files| - 1];
      DistinctPrefix(files, fs);
      DistinctTriggersTable(init, fs);
      LastKeyNew(files, fs);
      PutNewKey(files, fs);
      SnocTable(files, TableOf(init, fs), EntryOf(fs, files[|files| - 1]), fs);
    }
  }

  /** Every file registers, and no two files declare the same trigger. */
  ghost predicate AllRegisterDistinct(files: seq<string>, fs: map<string, seq<string>>) {
    (forall j :: 0 <= j < |files| ==> files[j] in fs && Registers(fs[files[j]]))
    && (forall i, j :: 0 <= i < j < |files| ==>
      FactsOf(fs[files[i]]).command != FactsOf(fs[files[j]]).command)
  }

  lemma DistinctPrefix(files: seq<string>, fs: map<string, seq<string>>)
    requires files != [] && AllRegisterDistinct(files, fs)
    ensures AllRegisterDistinct(files[..|files| - 1], fs)
  {
    var init := files[..|files| - 1];
    assert forall j :: 0 <= j < |init| ==> init[j] == files[j];
  }

  lemma LastKeyNew(files: seq<string>, fs: map<string, seq<string>>)
    requires files != [] && AllRegisterDistinct(files, fs)
    requires |TableOf(files[..|files| - 1], fs)| == |files| - 1
    requires var init := files[..|files| - 1];
      forall j :: 0 <= j < |init| ==> TableOf(init, fs)[j] == EntryOf(fs, init[j])
    ensures EntryOf(fs, files[|files| - 1]).trigger !in Keys(TableOf(files[..|files| - 1], fs))
  {
    var init := files[..|files| - 1];
    var t, e := TableOf(init, fs), EntryOf(fs, files[|files| - 1]);
    forall j | 0 <= j < |t| ensures Keys(t)[j] != e.trigger {
      assert t[j] == EntryOf(fs, files[j]);
    }
  }

  lemma SnocTable(files: seq<string>, t: Table, e: Entry, fs: map<string, seq<string>>)
    requires files != [] && |t| == |files| - 1
    requires forall j :: 0 <= j < |files| ==> files[j] in fs
    requires forall j :: 0 <= j < |t| ==> t[j] == EntryOf(fs, files[j])
    requires e == EntryOf(fs, files[|files| - 1]) && TableOf(files, fs) == t + [e]
    ensures |TableOf(files, fs)| == |files|
    ensures forall j :: 0 <= j < |files| ==> TableOf(files, fs)[j] == EntryOf(fs, files[j])
  {
  }

  /** A last file whose trigger is not yet stored appends its entry. */
  lemma PutNewKey(files: seq<string>, fs: map<string, seq<string>>)
    requires files != [] && Produces(fs, files[|files| - 1])
    requires EntryOf(fs, files[|files| - 1]).trigger !in Keys(TableOf(files[..|files| - 1], fs))
    ensures TableOf(files, fs) == TableOf(files[..|files| - 1], fs) + [EntryOf(fs, files[|files| - 1])]
  {
    var t, e := TableOf(files[..|files| - 1], fs), EntryOf(fs, files[|files| - 1]);
    assert forall k :: 0 <= k < |t| ==> Keys(t)[k] != e.trigger;
  }

  /** Two files declaring one trigger: one entry, for the later file, while
      both files stay in the list. */
  lemma DuplicateTrigger(fs: map<string, seq<string>>, f: string, g: string)
    requires Produces(fs, f) && Produces(fs, g)
    requires EntryOf(fs, f).trigger == EntryOf(fs, g).trigger
    ensures TableOf([f, g], fs) == [EntryOf(fs, g)]
    ensures Survivors([f, g], fs) == [f, g]
  {
    assert [f, g][..1] == [f];
    assert [f][..0] == [];
    assert TableOf([f], fs) == [EntryOf(fs, f)];
    assert IndexOf([EntryOf(fs, f)], EntryOf(fs, g).trigger) == 0;
    assert [f, g][1..] == [g];
    assert [g][1..] == [];
    assert Survivors([g], fs) == [g] + Survivors([], fs);
    assert Survivors([f, g], fs) == [f] + Survivors([g], fs);
  }
}
