/** Emission (`write_new_all_commands`): the text of the generated
    `discord_commands/all_commands.py`, returned as a string instead of being
    written to disk. It is a fixed header, one import line per surviving
    file, and a `commands = {...}` literal with one line per table entry. */
module Emission {
  import opened Wrappers
  import opened Text
  import opened Extraction
  import opened Discovery

  const Header := "\"\"\"\n\tHouses a dictionary holding references to every command"
    + "available\n\tThis file is generated by scripts/" + "update_all_commands.py\n\"\"\"\n"
  const RootPrefix := "discord_commands/"
  const DictOpen := "\n\ncommands = {\n"
  const DictClose := "}\n"

  /** The path with `discord_commands/` and `.py` removed everywhere. */
  function Stripped(f: string): string {
    ReplaceAll(ReplaceAll(f, RootPrefix, ""), ".py", "")
  }

  /** `modules = ...split('/')`. */
  function ModulesOf(f: string): seq<string> {
    Split(Stripped(f), '/')
  }

  /** The `from` part of an import line: `from .` and the modules joined
      with dots. */
  function FromClause(f: string): string {
    "from ." + Join(ModulesOf(f), ".")
  }

  /** The class names of the entries whose `file` is `f`, concatenated in
      table order. */
  function ImportedClasses(t: Table, f: string): string {
    if t == [] then ""
    else ImportedClasses(t[..|t| - 1], f) + (if t[|t| - 1].file == f then t[|t| - 1].className else "")
  }

  function ImportLine(t: Table, f: string): string {
    FromClause(f) + " import " + ImportedClasses(t, f) + "\n"
  }

  function ImportLines(t: Table, files: seq<string>): string {
    if files == [] then ""
    else ImportLines(t, files[..|files| - 1]) + ImportLine(t, files[|files| - 1])
  }

  /** `"\t'{0}': {1},\n".format(command, value['class'])`. */
  function EntryLine(e: Entry): string {
    "\t'" + e.trigger + "': " + e.className + ",\n"
  }

  function EntryLines(t: Table): string {
    if t == [] then "" else EntryLines(t[..|t| - 1]) + EntryLine(t[|t| - 1])
  }

  /** The whole generated file. */
  function AllCommandsText(t: Table, files: seq<string>): string {
    Header + ImportLines(t, files) + DictOpen + EntryLines(t) + DictClose
  }

  /** Each module followed by a dot, as the `from_string += module + "."`
      loop builds it. */
  function Dotted(parts: seq<string>): string {
    if parts == [] then "" else Dotted(parts[..|parts| - 1]) + parts[|parts| - 1] + "."
  }

  lemma {:induction false} JoinSnoc(parts: seq<string>, x: string, sep: string)
    requires parts != []
    ensures Join(parts + [x], sep) == Join(parts, sep) + sep + x
  {
    if |parts| == 1 {
      assert (parts + [x])[1..] == [x];
    } else {
      assert (parts + [x])[1..] == parts[1..] + [x];
      JoinSnoc(parts[1..], x, sep);
    }
  }

  /** Dropping the trailing dot of `Dotted` leaves the dot-joined modules. */
  lemma {:induction false} DottedIsJoin(parts: seq<string>)
    requires parts != []
    ensures Dotted(parts) == Join(parts, ".") + "."
  {
    var init := parts[..|parts| - 1];
    if init != [] {
      DottedIsJoin(init);
      assert parts == init + [parts[|parts| - 1]];
      JoinSnoc(init, parts[|parts| - 1], ".");
    }
  }

  /** The `from_string` loop of `write_new_all_commands`: every module and a
      dot, then the last dot cut off. */
  method BuildFromString(f: string) returns (fromString: string)
    ensures fromString == FromClause(f)
  {
    fromString := "from .";
    var stripped := ReplaceAll(f, RootPrefix, "");
    stripped := ReplaceAll(stripped, ".py", "");
    var modules := Split(stripped, '/');
    for j := 0 to |modules|
      invariant fromString == "from ." + Dotted(modules[..j])
    {
      assert modules[..j + 1][..j] == modules[..j];
      fromString := fromString + modules[j] + ".";
    }
    // Remove the trailing period
    assert modules[..|modules|] == modules;
    DottedIsJoin(modules);
    fromString := fromString[..|fromString| - 1];
  }

  /** The `import_string` loop: the classes of the entries stored for `f`. */
  method BuildImportString(cmds: Table, f: string) returns (importString: string)
    ensures importString == " import " + ImportedClasses(cmds, f)
  {
    importString := " import ";
    for j := 0 to |cmds|
      invariant importString == " import " + ImportedClasses(cmds[..j], f)
    {
      assert cmds[..j + 1][..j] == cmds[..j];
      if cmds[j].file == f {
        importString := importString + cmds[j].className;
      }
    }
    assert cmds[..|cmds|] == cmds;
  }

  /** One pass of the first loop: the import line of file `f`. */
  method BuildImportLine(cmds: Table, f: string) returns (line: string)
    ensures line == ImportLine(cmds, f)
  {
    var fromString := BuildFromString(f);
    var importString := BuildImportString(cmds, f);
    line := fromString + importString + "\n";
  }

  /** The first loop of `write_new_all_commands`: one import line per file
      written after what `text` already holds. */
  method WriteImportLines(text: string, cmds: Table, files: seq<string>) returns (out: string)
    ensures out == text + ImportLines(cmds, files)
  {
    out := text;
    for i := 0 to |files|
      invariant out == text + ImportLines(cmds, files[..i])
    {
      ImportLinesStep(cmds, files, i);
      var line := BuildImportLine(cmds, files[i]);
      AppendAssoc(text, ImportLines(cmds, files[..i]), line);
      out := out + line;
    }
    assert files[..|files|] == files;
  }

  /** The second loop: one `'<trigger>': <class>,` line per entry, in table
      order. */
  method WriteEntryLines(text: string, cmds: Table) returns (out: string)
    ensures out == text + EntryLines(cmds)
  {
    out := text;
    for i := 0 to |cmds|
      invariant out == text + EntryLines(cmds[..i])
    {
      assert cmds[..i + 1][..i] == cmds[..i];
      var line := "\t'" + cmds[i].trigger + "': " + cmds[i].className + ",\n";
      assert line == EntryLine(cmds[i]);
      out := out + line;
    }
    assert cmds[..|cmds|] == cmds;
  }

  lemma ImportLinesStep(t: Table, files: seq<string>, i: nat)
    requires i < |files|
    ensures ImportLines(t, files[..i + 1]) == ImportLines(t, files[..i]) + ImportLine(t, files[i])
  {
    assert files[..i + 1][..i] == files[..i];
  }

  /** `write_new_all_commands(cmd_dict, files)`, each `fo.write` appending
      to the returned text. */
  method WriteNewAllCommands(cmds: Table, files: seq<string>) returns (out: string)
    ensures out == AllCommandsText(cmds, files)
  {
    out := WriteImportLines(Header, cmds, files);
    out := out + DictOpen;
    out := WriteEntryLines(out, cmds);
    out := out + DictClose;
  }

  /** The script's entry point: discover, extract, then write. The text it
      returns is the generated file for the surviving discovered files. */
  method UpdateAllCommands(walk: seq<DirEntry>, fs: map<string, seq<string>>) returns (text: string)
    requires forall f :: f in Discovered(walk) ==> f in fs
    ensures text == AllCommandsText(TableOf(Discovered(walk), fs), Survivors(Discovered(walk), fs))
  {
    var cmdFiles := GetAllCommandFiles(walk);
    var files := new FileList(cmdFiles);
    var commands := BuildAllCommands(files, fs);
    text := WriteNewAllCommands(commands, files.items);
  }

  // ---------------------------------------------------------------------
  // Import lines

  /** The module path is the stripped path with every `/` turned into `.`. */
  lemma FromClauseIsDotted(f: string)
    ensures FromClause(f) == "from ." + MapChar(Stripped(f), '/', '.')
  {
    JoinSplitIsMapChar(Stripped(f), '/', '.');
  }

  /** The classes named by a file's import line: exactly the one entry that
      has this file, or nothing when no entry has it. */
  lemma {:induction false} ImportedClassesOf(t: Table, f: string, i: int)
    requires -1 <= i < |t|
    requires forall j :: 0 <= j < |t| && j != i ==> t[j].file != f
    requires i >= 0 ==> t[i].file == f
    ensures ImportedClasses(t, f) == if i >= 0 then t[i].className else ""
  {
    if t != [] {
      var init := t[..|t| - 1];
      if i == |t| - 1 {
        ImportedClassesOf(init, f, -1);
      } else {
        ImportedClassesOf(init, f, i);
      }
    }
  }

  /** In a generated registry each surviving file imports exactly the class
      of its own entry, or no class at all when a later file took its
      trigger. */
  lemma GeneratedImportLine(files: seq<string>, fs: map<string, seq<string>>, f: string)
    ensures var t := TableOf(files, fs);
      (exists i :: 0 <= i < |t| && t[i].file == f && ImportedClasses(t, f) == t[i].className)
      || ((forall i :: 0 <= i < |t| ==> t[i].file != f) && ImportedClasses(t, f) == "")
  {
    var t := TableOf(files, fs);
    OneEntryPerFile(files, fs);
    if i :| 0 <= i < |t| && t[i].file == f {
      ImportedClassesOf(t, f, i);
    } else {
      ImportedClassesOf(t, f, -1);
    }
  }

  /** Two files with one trigger: the earlier one's import line names no
      class. */
  lemma DuplicateTriggerImport(fs: map<string, seq<string>>, f: string, g: string)
    requires Produces(fs, f) && Produces(fs, g) && f != g
    requires EntryOf(fs, f).trigger == EntryOf(fs, g).trigger
    ensures ImportLine(TableOf([f, g], fs), f) == FromClause(f) + " import " + "\n"
    ensures ImportLine(TableOf([f, g], fs), g) == FromClause(g) + " import " + EntryOf(fs, g).className + "\n"
  {
    DuplicateTrigger(fs, f, g);
    ImportedClassesOf([EntryOf(fs, g)], f, -1);
    ImportedClassesOf([EntryOf(fs, g)], g, 0);
  }

  lemma {:induction false} ReplaceAllCharAbsent(s: string, pat: string, rep: string, c: char)
    requires pat != [] && c in pat && c !in s
    ensures ReplaceAll(s, pat, rep) == s
  {
    if |s| >= |pat| {
      assert c !in s[..|pat|];
      ReplaceAllCharAbsent(s[1..], pat, rep, c);
      assert [s[0]] + s[1..] == s;
    }
  }

  lemma {:induction false} ReplaceAllSkip(a: string, b: string, pat: string, rep: string)
    requires pat != [] && pat[0] !in a
    ensures ReplaceAll(a + b, pat, rep) == a + ReplaceAll(b, pat, rep)
  {
    if a == [] {
      assert a + b == b;
    } else if |a + b| < |pat| {
      assert |pat| > |b|;
    } else {
      var s, r := a + b, ReplaceAll(b, pat, rep);
      assert s[0] == a[0];
      assert s[..|pat|] != pat by { assert s[..|pat|][0] == a[0]; }
      assert s[1..] == a[1..] + b;
      ReplaceAllSkip(a[1..], b, pat, rep);
      assert ReplaceAll(s, pat, rep) == [a[0]] + (a[1..] + r);
      HeadTail(a, r);
    }
  }

  lemma HeadTail(a: string, r: string)
    requires a != []
    ensures [a[0]] + (a[1..] + r) == a + r
  {
    assert [a[0]] + a[1..] == a;
  }

  lemma StripRootPrefix(name: string)
    requires '/' !in name
    ensures ReplaceAll(RootPrefix + "/" + name + ".py", RootPrefix, "") == "/" + name + ".py"
  {
    var f := RootPrefix + "/" + name + ".py";
    var rest := "/" + name + ".py";
    assert f == RootPrefix + rest;
    assert f[..|RootPrefix|] == RootPrefix;
    assert f[|RootPrefix|..] == rest;
    assert rest == "/" + (name + ".py");
    assert rest[1..] == name + ".py";
    assert '/' !in name + ".py";
    ReplaceAllCharAbsent(name + ".py", RootPrefix, "", '/');
    if |rest| >= |RootPrefix| {
      assert rest[..|RootPrefix|][0] == '/';
    }
  }

  lemma StripExtension(name: string)
    requires '.' !in name
    ensures ReplaceAll("/" + name + ".py", ".py", "") == "/" + name
  {
    ReplaceAllSkip("/" + name, ".py", ".py", "");
    assert StartsWith(".py", ".py");
    assert ReplaceAll(".py", ".py", "") == "" + ReplaceAll(".py"[3..], ".py", "");
  }

  /** A module directly in `discord_commands/` is discovered as
      `discord_commands//<name>.py`, and its import line starts with
      `from ..<name>`. */
  lemma TopLevelFromClause(name: string)
    requires '/' !in name && '.' !in name
    ensures FromClause(RootPrefix + "/" + name + ".py") == "from .." + name
  {
    TopLevelStripped(name);
    SplitLeadingSep(name, '/');
    JoinPair("", name, ".");
    AppendAssoc("from .", ".", name);
  }

  lemma TopLevelStripped(name: string)
    requires '/' !in name && '.' !in name
    ensures Stripped(RootPrefix + "/" + name + ".py") == ['/'] + name
  {
    StripRootPrefix(name);
    StripExtension(name);
  }

  lemma JoinPair(a: string, b: string, sep: string)
    ensures Join([a, b], sep) == a + sep + b
  {
    assert [a, b][1..] == [b];
  }

  lemma SplitLeadingSep(name: string, sep: char)
    requires sep !in name
    ensures Split([sep] + name, sep) == ["", name]
  {
    assert ([sep] + name)[1..] == name;
    SplitWithout(name, sep);
  }

  lemma {:induction false} SplitWithout(s: string, sep: char)
    requires sep !in s
    ensures Split(s, sep) == [s]
  {
    if s != [] {
      SplitWithout(s[1..], sep);
      assert [s[0]] + s[1..] == s;
    }
  }

  /** One newline per import line, when no path and no class name holds a
      newline. */
  lemma {:induction false} ImportLineCount(t: Table, files: seq<string>)
    requires forall j :: 0 <= j < |files| ==> CountChar(FromClause(files[j]), '\n') == 0
    requires forall i :: 0 <= i < |t| ==> CountChar(t[i].className, '\n') == 0
    ensures CountChar(ImportLines(t, files), '\n') == |files|
  {
    if files != [] {
      var init, f := files[..|files| - 1], files[|files| - 1];
      ImportLineCount(t, init);
      ImportedClassesNoNewline(t, f);
      CountCharAppend(ImportLines(t, init), ImportLine(t, f), '\n');
      CountCharAppend(FromClause(f) + " import " + ImportedClasses(t, f), "\n", '\n');
      CountCharAppend(FromClause(f) + " import ", ImportedClasses(t, f), '\n');
      CountCharAppend(FromClause(f), " import ", '\n');
    }
  }

  lemma {:induction false} ImportedClassesNoNewline(t: Table, f: string)
    requires forall i :: 0 <= i < |t| ==> CountChar(t[i].className, '\n') == 0
    ensures CountChar(ImportedClasses(t, f), '\n') == 0
  {
    if t != [] {
      var init := t[..|t| - 1];
      ImportedClassesNoNewline(init, f);
      CountCharAppend(ImportedClasses(init, f), if t[|t| - 1].file == f then t[|t| - 1].className else "", '\n');
    }
  }

  // ---------------------------------------------------------------------
  // Reading the `commands` literal back

  /** Parses lines `\t'<key>': <value>,\n` into key and value pairs. */
  function ParseEntries(s: string): Option<seq<(string, string)>>
    decreases |s|
  {
    if s == [] then Some([])
    else match EntryAt(s)
      case None => None
      case Some(x) => ConsPair(x.0, x.1, ParseEntries(s[x.2..]))
  }

  /** The key and value of the line `s` starts with, and where the next
      line begins. */
  function EntryAt(s: string): (r: Option<(string, string, nat)>)
    ensures r.Some? ==> 0 < r.value.2 <= |s|
  {
    if !StartsWith(s, "\t'") then None
    else
      var q := FindChar(s, '\'', 2);
      if !StartsWith(s[q..], "': ") then None
      else
        var c := FindChar(s, ',', q + 3);
        if !StartsWith(s[c..], ",\n") then None
        else Some((s[2..q], s[q + 3..c], c + 2))
  }

  /** One more pair in front of what the rest parses to, if it parses. */
  function ConsPair(key: string, value: string, rest: Option<seq<(string, string)>>): Option<seq<(string, string)>> {
    match rest
    case None => None
    case Some(r) => Some([(key, value)] + r)
  }

  /** The trigger and class of every entry, in table order. */
  function Pairs(t: Table): (r: seq<(string, string)>)
    ensures |r| == |t|
    ensures forall i :: 0 <= i < |t| ==> r[i] == (t[i].trigger, t[i].className)
  {
    if t == [] then [] else [(t[0].trigger, t[0].className)] + Pairs(t[1..])
  }

  /** Lines that cannot be misread: no quote in a key, no comma in a
      value. */
  ghost predicate Readable(t: Table) {
    forall i :: 0 <= i < |t| ==> '\'' !in t[i].trigger && ',' !in t[i].className
  }

  lemma {:induction false} EntryLinesCons(t: Table)
    requires t != []
    ensures EntryLines(t) == EntryLine(t[0]) + EntryLines(t[1..])
    decreases |t|
  {
    if |t| > 1 {
      var init, tail := t[..|t| - 1], t[1..];
      var a, b, c := EntryLine(t[0]), EntryLines(init[1..]), EntryLine(t[|t| - 1]);
      EntryLinesCons(init);
      assert init[0] == t[0];
      assert EntryLines(init) == a + b;
      assert init[1..] == tail[..|tail| - 1];
      assert EntryLines(tail) == b + c;
      assert EntryLines(t) == (a + b) + c;
    } else {
      assert t[1..] == [];
      assert t[..0] == [];
    }
  }

  lemma ParseEntryLine(e: Entry, rest: string)
    requires '\'' !in e.trigger && ',' !in e.className
    ensures ParseEntries(EntryLine(e) + rest) == ConsPair(e.trigger, e.className, ParseEntries(rest))
  {
    var s := EntryLine(e) + rest;
    var q := 2 + |e.trigger|;
    var c := q + 3 + |e.className|;
    EntryLineKey(e, rest);
    EntryLineValue(e, rest);
    EntryLineRest(e, rest);
    assert s[2..q] == e.trigger && s[q + 3..c] == e.className && s[c + 2..] == rest;
    ParseEntriesStep(s, q, c);
    assert s != [];
  }

  /** The line at the start of `s`, from the positions of the quote and
      the comma that end the key and the value. */
  lemma ParseEntriesStep(s: string, q: nat, c: nat)
    requires StartsWith(s, "\t'") && 2 <= q <= |s| && FindChar(s, '\'', 2) == q
    requires StartsWith(s[q..], "': ") && q + 3 <= c <= |s| && FindChar(s, ',', q + 3) == c
    requires StartsWith(s[c..], ",\n")
    ensures EntryAt(s) == Some((s[2..q], s[q + 3..c], c + 2))
  {
  }

  lemma EntryLineKey(e: Entry, rest: string)
    requires '\'' !in e.trigger
    ensures var s := EntryLine(e) + rest;
      StartsWith(s, "\t'") && FindChar(s, '\'', 2) == 2 + |e.trigger| && s[2..2 + |e.trigger|] == e.trigger
  {
    var s := EntryLine(e) + rest;
    assert s == "\t'" + e.trigger + ['\''] + (": " + e.className + ",\n" + rest);
    FindAfter(s, "\t'", e.trigger, '\'', ": " + e.className + ",\n" + rest);
  }

  lemma EntryLineValue(e: Entry, rest: string)
    requires ',' !in e.className
    ensures var s := EntryLine(e) + rest;
      var q := 2 + |e.trigger|;
      StartsWith(s[q..], "': ") && FindChar(s, ',', q + 3) == q + 3 + |e.className|
      && s[q + 3..q + 3 + |e.className|] == e.className
  {
    var s := EntryLine(e) + rest;
    var pre := "\t'" + e.trigger + "': ";
    assert s == pre + e.className + [','] + ("\n" + rest);
    FindAfter(s, pre, e.className, ',', "\n" + rest);
    assert s[2 + |e.trigger|..][..3] == pre[2 + |e.trigger|..];
  }

  lemma EntryLineRest(e: Entry, rest: string)
    ensures var s := EntryLine(e) + rest;
      var c := 5 + |e.trigger| + |e.className|;
      StartsWith(s[c..], ",\n") && s[c + 2..] == rest
  {
    var s := EntryLine(e) + rest;
    var c := 5 + |e.trigger| + |e.className|;
    assert s == ("\t'" + e.trigger + "': " + e.className) + (",\n" + rest);
    assert s[c..] == ",\n" + rest;
  }

  /** The first `x` after a prefix is the one that ends the piece after it. */
  lemma FindAfter(s: string, pre: string, piece: string, x: char, post: string)
    requires s == pre + piece + [x] + post && x !in piece
    ensures FindChar(s, x, |pre|) == |pre| + |piece|
    ensures s[|pre|..|pre| + |piece|] == piece
  {
    assert forall j :: |pre| <= j < |pre| + |piece| ==> s[j] == piece[j - |pre|];
    assert s[|pre| + |piece|] == x;
  }

  /** Reading back the entry lines gives every key and value, in order. */
  lemma {:induction false} EntryLinesRoundTrip(t: Table)
    requires Readable(t)
    ensures ParseEntries(EntryLines(t)) == Some(Pairs(t))
    decreases |t|
  {
    if t != [] {
      EntryLinesCons(t);
      EntryLinesRoundTrip(t[1..]);
      ParseEntryLine(t[0], EntryLines(t[1..]));
    }
  }

  /** What a generated file's `commands` literal says: reading it back gives
      the table's triggers and classes in table order, since triggers hold
      no quote and class names no comma. */
  lemma GeneratedCommandsRoundTrip(files: seq<string>, fs: map<string, seq<string>>)
    ensures ParseEntries(EntryLines(TableOf(files, fs))) == Some(Pairs(TableOf(files, fs)))
  {
    var t := TableOf(files, fs);
    TableShapes(files, fs);
    forall i | 0 <= i < |t| ensures '\'' !in t[i].trigger && ',' !in t[i].className {
      var s := t[i].trigger;
      forall k | 0 < k < |s| ensures s[k] != '\'' {
        assert s[1..][k - 1] == s[k];
      }
    }
    EntryLinesRoundTrip(t);
  }
}
