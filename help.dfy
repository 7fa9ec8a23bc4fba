/** The `!help` command (`discord_commands/help_command.py`). With an
    argument it answers the help text of the class registered for that
    trigger; without one it lists every registered trigger. The registry it
    reads is the `commands` dictionary of the generated module, here a
    sequence of trigger and class pairs in dictionary order, and the help
    text of each class is a parameter. */
module Help {
  import opened Wrappers
  import opened Text
  import opened Patterns
  import opened Extraction
  import opened Emission

  /** `commands` of `all_commands.py`: trigger and class, in order. */
  type Registry = seq<(string, string)>

  /** Python's `KeyError` for a trigger that is not registered. */
  datatype KeyError = KeyError(key: string)

  const ListingHeader := "Commands: \n"

  /** `commands[key]`: the class of the first entry with that trigger. */
  function Lookup(commands: Registry, key: string): (r: Option<string>)
    ensures r.None? <==> forall i :: 0 <= i < |commands| ==> commands[i].0 != key
    ensures r.Some? ==> exists i :: 0 <= i < |commands| && commands[i] == (key, r.value)
  {
    if commands == [] then None
    else if commands[0].0 == key then Some(commands[0].1)
    else
      var r := Lookup(commands[1..], key);
      assert forall i :: 1 <= i < |commands| ==> commands[i] == commands[1..][i - 1];
      r
  }

  /** `commands.keys()`. */
  function KeysOf(commands: Registry): (keys: seq<string>)
    ensures |keys| == |commands|
    ensures forall i :: 0 <= i < |commands| ==> keys[i] == commands[i].0
  {
    if commands == [] then [] else [commands[0].0] + KeysOf(commands[1..])
  }

  /** One `- <trigger>` line per key, in order. */
  function ListingLines(keys: seq<string>): string {
    if keys == [] then "" else ListingLines(keys[..|keys| - 1]) + "- " + keys[|keys| - 1] + "\n"
  }

  function Listing(keys: seq<string>): string {
    ListingHeader + ListingLines(keys)
  }

  /** What `run` returns: the help of the class registered for the first
      argument, `KeyError` when there is none, or the listing when there are
      no arguments. */
  function Answer(args: seq<string>, commands: Registry, helpOf: string -> string): (r: Result<string, KeyError>)
    ensures r.Err? <==> args != [] && forall i :: 0 <= i < |commands| ==> commands[i].0 != args[0]
    ensures r.Err? ==> r.error == KeyError(args[0])
    ensures r.Ok? && args != [] ==> exists i :: 0 <= i < |commands| && commands[i].0 == args[0] && r.value == helpOf(commands[i].1)
    ensures args == [] ==> r == Ok(Listing(KeysOf(commands)))
  {
    if args != [] then
      match Lookup(commands, args[0])
      case None => Err(KeyError(args[0]))
      case Some(c) => Ok(helpOf(c))
    else Ok(Listing(KeysOf(commands)))
  }

  const HelpSummary := "Displays help for a command"
  const HelpUsage := "Command (i.e. !dankmemes)"

  /** The text `help()` returns, indentation included. */
  const HelpText := "\n            " + HelpSummary + "\n\n            Required arguments:\n                "
    + HelpUsage + "\n\n            Supported options:\n                None\n        "

  lemma ListingStep(keys: seq<string>, i: nat)
    requires i < |keys|
    ensures ListingLines(keys[..i + 1]) == ListingLines(keys[..i]) + ("- " + keys[i] + "\n")
  {
    assert keys[..i + 1][..i] == keys[..i];
  }

  class HelpCommand {
    var command: string
    var args: seq<string>

    /** The arguments come from `BaseCommand`'s parsing of the message. */
    constructor(args: seq<string>)
      ensures command == "!help" && this.args == args
    {
      command := "!help";
      this.args := args;
    }

    /** `run()`. */
    method Run(commands: Registry, helpOf: string -> string) returns (r: Result<string, KeyError>)
      ensures r == Answer(args, commands, helpOf)
    {
      if args != [] {
        var found := Lookup(commands, args[0]);
        if found.None? {
          return Err(KeyError(args[0]));
        }
        return Ok(helpOf(found.value));
      } else {
        var keys := KeysOf(commands);
        var retStr := ListingHeader;
        for i := 0 to |keys|
          invariant retStr == ListingHeader + ListingLines(keys[..i])
        {
          ListingStep(keys, i);
          retStr := retStr + ("- " + keys[i] + "\n");
        }
        assert keys[..|keys|] == keys;
        return Ok(retStr);
      }
    }

    /** `help()`: the summary and the usage line appear in the text. */
    static function Help(): (r: string)
      ensures OccursAt(HelpSummary, r, 13)
      ensures exists k :: OccursAt(HelpUsage, r, k)
    {
      var a := "\n            ";
      var b := "\n\n            Required arguments:\n                ";
      var c := "\n\n            Supported options:\n                None\n        ";
      assert HelpText == a + HelpSummary + (b + HelpUsage + c);
      assert HelpText[|a|..|a| + |HelpSummary|] == HelpSummary;
      assert HelpText == (a + HelpSummary + b) + HelpUsage + c;
      var k := |a + HelpSummary + b|;
      assert HelpText[k..k + |HelpUsage|] == HelpUsage;
      assert OccursAt(HelpUsage, HelpText, k);
      HelpText
    }
  }

  // ---------------------------------------------------------------------
  // Properties of the answer

  /** Only the first argument is looked at. */
  lemma OnlyFirstArgument(args: seq<string>, commands: Registry, helpOf: string -> string)
    requires args != []
    ensures Answer(args, commands, helpOf) == Answer([args[0]], commands, helpOf)
  {
  }

  /** With unique triggers, the answer for a registered trigger is its own
      class's help. */
  lemma {:induction false} LookupUnique(commands: Registry, i: nat)
    requires i < |commands|
    requires forall j :: 0 <= j < i ==> commands[j].0 != commands[i].0
    ensures Lookup(commands, commands[i].0) == Some(commands[i].1)
  {
    if i > 0 {
      assert commands[0].0 != commands[i].0;
      assert commands[1..][i - 1] == commands[i];
      LookupUnique(commands[1..], i - 1);
    }
  }

  lemma {:induction false} ListingLinesCons(keys: seq<string>)
    requires keys != []
    ensures ListingLines(keys) == "- " + keys[0] + "\n" + ListingLines(keys[1..])
    decreases |keys|
  {
    if |keys| > 1 {
      var init := keys[..|keys| - 1];
      ListingLinesCons(init);
      assert init[1..] == keys[1..][..|keys[1..]| - 1];
      assert init[0] == keys[0];
    } else {
      assert keys[1..] == [];
      assert keys[..0] == [];
    }
  }

  /** Reads `- <key>` lines back. */
  function ParseItems(s: string): Option<seq<string>>
    decreases |s|
  {
    if s == [] then Some([])
    else if !StartsWith(s, "- ") then None
    else
      var n := FindChar(s, '\n', 2);
      if n == |s| then None
      else match ParseItems(s[n + 1..])
        case None => None
        case Some(rest) => Some([s[2..n]] + rest)
  }

  /** Reads a listing back into its triggers. */
  function ParseListing(s: string): Option<seq<string>> {
    if StartsWith(s, ListingHeader) then ParseItems(s[|ListingHeader|..]) else None
  }

  lemma ParseItem(key: string, rest: string)
    requires '\n' !in key
    ensures ParseItems("- " + key + "\n" + rest) ==
      match ParseItems(rest)
      case None => None
      case Some(r) => Some([key] + r)
  {
    var s := "- " + key + "\n" + rest;
    var n := 2 + |key|;
    assert s[..2] == "- ";
    assert s[2..n] == key;
    assert s[n] == '\n';
    assert forall j :: 2 <= j < n ==> s[j] == key[j - 2];
    assert FindChar(s, '\n', 2) == n;
    assert s[n + 1..] == rest;
  }

  lemma {:induction false} ListingLinesRoundTrip(keys: seq<string>)
    requires forall i :: 0 <= i < |keys| ==> '\n' !in keys[i]
    ensures ParseItems(ListingLines(keys)) == Some(keys)
    decreases |keys|
  {
    if keys != [] {
      ListingLinesCons(keys);
      ListingLinesRoundTrip(keys[1..]);
      ParseItem(keys[0], ListingLines(keys[1..]));
      assert [keys[0]] + keys[1..] == keys;
    }
  }

  /** The listing names every trigger, in order, and nothing else: reading
      it back gives the keys when no key holds a line break. */
  lemma ListingRoundTrip(keys: seq<string>)
    requires forall i :: 0 <= i < |keys| ==> '\n' !in keys[i]
    ensures ParseListing(Listing(keys)) == Some(keys)
  {
    var s := Listing(keys);
    assert s[..|ListingHeader|] == ListingHeader;
    assert s[|ListingHeader|..] == ListingLines(keys);
    ListingLinesRoundTrip(keys);
  }

  /** One line per trigger after the header line. */
  lemma {:induction false} ListingLineCount(keys: seq<string>)
    requires forall i :: 0 <= i < |keys| ==> '\n' !in keys[i]
    ensures CountChar(Listing(keys), '\n') == |keys| + 1
  {
    ListingLinesCount(keys);
    CountCharAppend(ListingHeader, ListingLines(keys), '\n');
    HeaderLineCount(ListingHeader);
  }

  /** The header is one line. */
  lemma HeaderLineCount(h: string)
    requires h == ListingHeader
    ensures CountChar(h, '\n') == 1
  {
    var a, b := h[..10], h[10..];
    assert h == a + b;
    CountCharAppend(a, b, '\n');
    HeaderWordCount(a);
    assert b == ['\n'];
  }

  lemma HeaderWordCount(a: string)
    requires a == ListingHeader[..10]
    ensures CountChar(a, '\n') == 0
  {
    assert forall i :: 0 <= i < |a| ==> a[i] != '\n';
    AbsentCount(a, '\n');
  }

  lemma {:induction false} ListingLinesCount(keys: seq<string>)
    requires forall i :: 0 <= i < |keys| ==> '\n' !in keys[i]
    ensures CountChar(ListingLines(keys), '\n') == |keys|
  {
    if keys != [] {
      var init, k := keys[..|keys| - 1], keys[|keys| - 1];
      ListingLinesCount(init);
      AbsentCount("- " + k, '\n');
      CountCharAppend(ListingLines(init) + "- " + k, "\n", '\n');
      CountCharAppend(ListingLines(init), "- " + k, '\n');
      assert ListingLines(init) + "- " + k == ListingLines(init) + ("- " + k);
      assert CountChar("\n", '\n') == 1;
    }
  }

  // ---------------------------------------------------------------------
  // The help command over a generated registry

  lemma TriggerHasNoLineBreak(s: string)
    requires IsTrigger(s)
    ensures '\n' !in s && '\'' !in s
  {
    forall k | 0 < k < |s| ensures s[k] != '\n' && s[k] != '\'' {
      assert s[1..][k - 1] == s[k];
    }
  }

  /** Over the registry a generated file declares, `!help <trigger>`
      answers that command's help for every stored trigger. */
  lemma AnswersEveryRegisteredTrigger(files: seq<string>, fs: map<string, seq<string>>, helpOf: string -> string, i: nat)
    requires i < |TableOf(files, fs)|
    ensures var t := TableOf(files, fs);
      Answer([t[i].trigger], Pairs(t), helpOf) == Ok(helpOf(t[i].className))
  {
    var t := TableOf(files, fs);
    TableEntries(files, fs);
    LookupUnique(Pairs(t), i);
  }

  /** Over the registry a generated file declares, `!help` alone lists
      every stored trigger in table order, one line each after the header. */
  lemma ListsEveryRegisteredTrigger(files: seq<string>, fs: map<string, seq<string>>, helpOf: string -> string)
    ensures var t := TableOf(files, fs);
      var r := Answer([], Pairs(t), helpOf);
      r.Ok? && ParseListing(r.value) == Some(Keys(t)) && CountChar(r.value, '\n') == |t| + 1
  {
    var t := TableOf(files, fs);
    var keys := KeysOf(Pairs(t));
    TableShapes(files, fs);
    KeysAgree(t);
    forall i | 0 <= i < |keys| ensures '\n' !in keys[i] {
      TriggerHasNoLineBreak(t[i].trigger);
    }
    ListingRoundTrip(keys);
    ListingLineCount(keys);
  }

  lemma KeysAgree(t: Table)
    ensures KeysOf(Pairs(t)) == Keys(t)
  {
  }

  // ---------------------------------------------------------------------
  // help_command.py as input to the generator
  //
  // Each source line is one string, written as a concatenation of pieces of
  // at most 16 characters: the verifier unfolds a concatenation piece by
  // piece, and a single long literal makes the membership and search facts
  // below far more expensive to prove. For the same reason lines 8 to 44 are
  // kept in blocks of four (`HelpLines8`, `HelpLines12`, ...), proved one
  // lemma per line and gathered one lemma per block.

  /** Lines 1 to 7 of `discord_commands/help_command.py`, each with its line break. */
  const HelpSourceHead: seq<string> := [
    "\"\"\"\n",
    "    Command for " + "getting helptext" + " for another com" + "mand\n",
    "\"\"\"\n",
    "\n",
    "from .command im" + "port BaseCommand" + "\n",
    "\n",
    "class " + "HelpCommand" + "(" + "BaseCommand):\n"
  ]

  /** Lines 8 to 22, four lines at a time. */
  const HelpSourceBody: seq<string> := HelpLines8 + HelpLines12 + HelpLines16 + HelpLines20

  const HelpLines8: seq<string> := [
    "    \"\"\"\n",
    "        Displays" + " help for a comm" + "and\n",
    "\n",
    "        Required" + " arguments:\n"
  ]

  const HelpLines12: seq<string> := [
    "            If l" + "eft empty will l" + "ist all availabl" + "e commands on sy" + "stem\n",
    "            Othe" + "rwise pass in a " + "command,\n",
    "            Comm" + "and (i.e. !dankm" + "emes)\n",
    "\n"
  ]

  const HelpLines16: seq<string> := [
    "        Supporte" + "d options:\n",
    "            None" + "\n",
    "    \"\"\"\n",
    "\n"
  ]

  const HelpLines20: seq<string> := [
    "    def __init__" + "(self" + "," + " command_str):\n",
    "        super(He" + "lpCommand" + "," + (" self)" + "." + "__init__(command_str)\n"),
    "        " + "self._command = \"" + "!help" + "\"" + "\n"
  ]


  /** Lines 23 to 44, four lines at a time. */
  const HelpSourceTail: seq<string> := HelpLines23 + HelpLines27 + HelpLines31 + HelpLines35 + HelpLines39 + HelpLines43

  const HelpLines23: seq<string> := [
    "\n",
    "    def run(self" + "):\n",
    "        from .al" + "l_commands impor" + "t commands\n",
    "        if self." + "_args:\n"
  ]

  const HelpLines27: seq<string> := [
    "            retu" + "rn commands" + "[" + "self._args[0]].help()\n",
    "        else:\n",
    "            ret_" + "str = \"Commands:" + " \\n\"\n",
    "            for " + "command in comma" + "nds.keys():\n"
  ]

  const HelpLines31: seq<string> := [
    "                " + "ret_str += \"- \" " + "+ command + \"\\n\"" + "\n",
    "            retu" + "rn ret_str\n",
    "\n",
    "    @staticmetho" + "d\n"
  ]

  const HelpLines35: seq<string> := [
    "    def help():\n",
    "        return \"" + "\"\"\n",
    "            Disp" + "lays help for a " + "command\n",
    "\n"
  ]

  const HelpLines39: seq<string> := [
    "            Requ" + "ired arguments:\n",
    "                " + "Command (i.e. !d" + "ankmemes)\n",
    "\n",
    "            Supp" + "orted options:\n"
  ]

  const HelpLines43: seq<string> := [
    "                " + "None\n",
    "        \"\"\"\n"
  ]


  /** `discord_commands/help_command.py`, as `open(f)` yields its lines. */
  const HelpSource := HelpSourceHead + HelpSourceBody + HelpSourceTail

  /** A line cut by a character no `class` match can contain has a match
      only if one side has. */
  lemma ClassSplit(a: string, sep: string, b: string)
    requires sep == "," || sep == "." || sep == "["
    requires Search(ClassPattern, a) == None && Search(ClassPattern, b) == None
    ensures Search(ClassPattern, a + sep + b) == None
  {
    SearchSplit(ClassPattern, a, sep, b);
  }

  /** No `class` line among lines 8 to 22. */
  lemma BodyHasNoClass(body: seq<string>)
    requires body == HelpSourceBody
    ensures forall j :: 0 <= j < |body| ==> Search(ClassPattern, body[j]) == None
  {
    BodyHasNoClassFrom8(HelpLines8);
    BodyHasNoClassFrom12(HelpLines12);
    BodyHasNoClassFrom16(HelpLines16);
    BodyHasNoClassFrom20(HelpLines20);
    forall j | 0 <= j < |body| ensures Search(ClassPattern, body[j]) == None {
      if j < 4 {
        assert body[j] == HelpLines8[j];
      } else if j < 8 {
        assert body[j] == HelpLines12[j - 4];
      } else if j < 12 {
        assert body[j] == HelpLines16[j - 8];
      } else {
        assert body[j] == HelpLines20[j - 12];
      }
    }
  }

  lemma BodyHasNoClassFrom8(block: seq<string>)
    requires block == HelpLines8
    ensures forall j :: 0 <= j < |block| ==> Search(ClassPattern, block[j]) == None
  {
    forall j | 0 <= j < |block| ensures Search(ClassPattern, block[j]) == None {
      if j == 0 {
        Line8(block[0]);
        NoClassWithout(block[0], 'c');
      } else if j == 1 {
        Line9(block[1]);
        NoClassWithout(block[1], '(');
      } else if j == 2 {
        Line10(block[2]);
        NoClassWithout(block[2], 'c');
      } else {
        Line11(block[3]);
        NoClassWithout(block[3], 'c');
      }
    }
  }

  lemma BodyHasNoClassFrom12(block: seq<string>)
    requires block == HelpLines12
    ensures forall j :: 0 <= j < |block| ==> Search(ClassPattern, block[j]) == None
  {
    forall j | 0 <= j < |block| ensures Search(ClassPattern, block[j]) == None {
      if j == 0 {
        Line12(block[0]);
        NoClassWithout(block[0], '(');
      } else if j == 1 {
        Line13(block[1]);
        NoClassWithout(block[1], '(');
      } else if j == 2 {
        Line14(block[2]);
        NoClassWithout(block[2], 'c');
      } else {
        Line15(block[3]);
        NoClassWithout(block[3], 'c');
      }
    }
  }

  lemma BodyHasNoClassFrom16(block: seq<string>)
    requires block == HelpLines16
    ensures forall j :: 0 <= j < |block| ==> Search(ClassPattern, block[j]) == None
  {
    forall j | 0 <= j < |block| ensures Search(ClassPattern, block[j]) == None {
      if j == 0 {
        Line16(block[0]);
        NoClassWithout(block[0], 'c');
      } else if j == 1 {
        Line17(block[1]);
        NoClassWithout(block[1], 'c');
      } else if j == 2 {
        Line18(block[2]);
        NoClassWithout(block[2], 'c');
      } else {
        Line19(block[3]);
        NoClassWithout(block[3], 'c');
      }
    }
  }

  lemma BodyHasNoClassFrom20(block: seq<string>)
    requires block == HelpLines20
    ensures forall j :: 0 <= j < |block| ==> Search(ClassPattern, block[j]) == None
  {
    forall j | 0 <= j < |block| ensures Search(ClassPattern, block[j]) == None {
      if j == 0 {
        Line20(block[0]);
      } else if j == 1 {
        Line21(block[1]);
      } else {
        Line22(block[2]);
        NoClassWithout(block[2], '(');
      }
    }
  }

  /** Neither pattern matches the line. */
  predicate Clean(line: string) {
    Search(CommandPattern, line) == None && Search(ClassPattern, line) == None
  }

  /** A trigger match needs `!` and a closing `"`. */
  lemma NoCommandWithout(line: string, c: char)
    requires (c == '!' || c == '"') && c !in line
    ensures Search(CommandPattern, line) == None
  {
    AbsentCharNoMatch(CommandPattern, line, c);
  }

  /** A `class` match needs `c`, `l` and an opening `(`. */
  lemma NoClassWithout(line: string, c: char)
    requires (c == 'c' || c == 'l' || c == '(') && c !in line
    ensures Search(ClassPattern, line) == None
  {
    AbsentCharNoMatch(ClassPattern, line, c);
  }

  lemma CleanWithout(line: string, a: char, c: char)
    requires (a == '!' || a == '"') && a !in line
    requires (c == 'c' || c == 'l' || c == '(') && c !in line
    ensures Clean(line)
  {
    NoCommandWithout(line, a);
    NoClassWithout(line, c);
  }

  /** Neither a trigger line nor a `class` line among lines 23 to 44. */
  lemma TailIsClean(tail: seq<string>)
    requires tail == HelpSourceTail
    ensures forall j :: 0 <= j < |tail| ==> Clean(tail[j])
  {
    TailIsCleanFrom23(HelpLines23);
    TailIsCleanFrom27(HelpLines27);
    TailIsCleanFrom31(HelpLines31);
    TailIsCleanFrom35(HelpLines35);
    TailIsCleanFrom39(HelpLines39);
    TailIsCleanFrom43(HelpLines43);
    forall j | 0 <= j < |tail| ensures Clean(tail[j]) {
      if j < 4 {
        assert tail[j] == HelpLines23[j];
      } else if j < 8 {
        assert tail[j] == HelpLines27[j - 4];
      } else if j < 12 {
        assert tail[j] == HelpLines31[j - 8];
      } else if j < 16 {
        assert tail[j] == HelpLines35[j - 12];
      } else if j < 20 {
        assert tail[j] == HelpLines39[j - 16];
      } else {
        assert tail[j] == HelpLines43[j - 20];
      }
    }
  }

  lemma TailIsCleanFrom23(block: seq<string>)
    requires block == HelpLines23
    ensures forall j :: 0 <= j < |block| ==> Clean(block[j])
  {
    forall j | 0 <= j < |block| ensures Clean(block[j]) {
      if j == 0 {
        Line23(block[0]);
        CleanWithout(block[0], '!', 'c');
      } else if j == 1 {
        Line24(block[1]);
        CleanWithout(block[1], '!', 'c');
      } else if j == 2 {
        Line25(block[2]);
        CleanWithout(block[2], '!', '(');
      } else {
        Line26(block[3]);
        CleanWithout(block[3], '!', 'c');
      }
    }
  }

  lemma TailIsCleanFrom27(block: seq<string>)
    requires block == HelpLines27
    ensures forall j :: 0 <= j < |block| ==> Clean(block[j])
  {
    forall j | 0 <= j < |block| ensures Clean(block[j]) {
      if j == 0 {
        Line27(block[0]);
        NoCommandWithout(block[0], '!');
        Line27Class(block[0]);
      } else if j == 1 {
        Line28(block[1]);
        CleanWithout(block[1], '!', 'c');
      } else if j == 2 {
        Line29(block[2]);
        CleanWithout(block[2], '!', 'c');
      } else {
        Line30(block[3]);
        CleanWithout(block[3], '!', 'l');
      }
    }
  }

  lemma TailIsCleanFrom31(block: seq<string>)
    requires block == HelpLines31
    ensures forall j :: 0 <= j < |block| ==> Clean(block[j])
  {
    forall j | 0 <= j < |block| ensures Clean(block[j]) {
      if j == 0 {
        Line31(block[0]);
        CleanWithout(block[0], '!', '(');
      } else if j == 1 {
        Line32(block[1]);
        CleanWithout(block[1], '!', 'c');
      } else if j == 2 {
        Line33(block[2]);
        CleanWithout(block[2], '!', 'c');
      } else {
        Line34(block[3]);
        CleanWithout(block[3], '!', '(');
      }
    }
  }

  lemma TailIsCleanFrom35(block: seq<string>)
    requires block == HelpLines35
    ensures forall j :: 0 <= j < |block| ==> Clean(block[j])
  {
    forall j | 0 <= j < |block| ensures Clean(block[j]) {
      if j == 0 {
        Line35(block[0]);
        CleanWithout(block[0], '!', 'c');
      } else if j == 1 {
        Line36(block[1]);
        CleanWithout(block[1], '!', 'c');
      } else if j == 2 {
        Line37(block[2]);
        CleanWithout(block[2], '!', '(');
      } else {
        Line38(block[3]);
        CleanWithout(block[3], '!', 'c');
      }
    }
  }

  lemma TailIsCleanFrom39(block: seq<string>)
    requires block == HelpLines39
    ensures forall j :: 0 <= j < |block| ==> Clean(block[j])
  {
    forall j | 0 <= j < |block| ensures Clean(block[j]) {
      if j == 0 {
        Line39(block[0]);
        CleanWithout(block[0], '!', 'c');
      } else if j == 1 {
        Line40(block[1]);
        CleanWithout(block[1], '"', 'c');
      } else if j == 2 {
        Line41(block[2]);
        CleanWithout(block[2], '!', 'c');
      } else {
        Line42(block[3]);
        CleanWithout(block[3], '!', 'c');
      }
    }
  }

  lemma TailIsCleanFrom43(block: seq<string>)
    requires block == HelpLines43
    ensures forall j :: 0 <= j < |block| ==> Clean(block[j])
  {
    forall j | 0 <= j < |block| ensures Clean(block[j]) {
      if j == 0 {
        Line43(block[0]);
        CleanWithout(block[0], '!', 'c');
      } else {
        Line44(block[1]);
        CleanWithout(block[1], '!', 'c');
      }
    }
  }

  // Lines 8 to 44, one lemma each: a character every match needs is missing
  // from the line, or from both sides of a character no match can contain.

  lemma Line8(line: string)
    requires line == "    \"\"\"\n"
    ensures 'c' !in line
  {
  }

  lemma Line9(line: string)
    requires line == "        Displays" + " help for a comm" + "and\n"
    ensures '(' !in line
  {
  }

  lemma Line10(line: string)
    requires line == "\n"
    ensures 'c' !in line
  {
  }

  lemma Line11(line: string)
    requires line == "        Required" + " arguments:\n"
    ensures 'c' !in line
  {
  }

  lemma Line12(line: string)
    requires line == "            If l" + "eft empty will l" + "ist all availabl" + "e commands on sy" + "stem\n"
    ensures '(' !in line
  {
  }

  lemma Line13(line: string)
    requires line == "            Othe" + "rwise pass in a " + "command,\n"
    ensures '(' !in line
  {
  }

  lemma Line14(line: string)
    requires line == "            Comm" + "and (i.e. !dankm" + "emes)\n"
    ensures 'c' !in line
  {
  }

  lemma Line15(line: string)
    requires line == "\n"
    ensures 'c' !in line
  {
  }

  lemma Line16(line: string)
    requires line == "        Supporte" + "d options:\n"
    ensures 'c' !in line
  {
  }

  lemma Line17(line: string)
    requires line == "            None" + "\n"
    ensures 'c' !in line
  {
  }

  lemma Line18(line: string)
    requires line == "    \"\"\"\n"
    ensures 'c' !in line
  {
  }

  lemma Line19(line: string)
    requires line == "\n"
    ensures 'c' !in line
  {
  }

  lemma Line20(line: string)
    requires line == "    def __init__" + "(self" + "," + " command_str):\n"
    ensures Search(ClassPattern, line) == None
  {
    var a, b := "    def __init__" + "(self", " command_str):\n";
    Line20Pieces(a, b);
    AbsentCharNoMatch(ClassPattern, a, 'c');
    AbsentCharNoMatch(ClassPattern, b, '(');
    ClassSplit(a, ",", b);
  }

  lemma Line20Pieces(a: string, b: string)
    requires a == "    def __init__" + "(self" && b == " command_str):\n"
    ensures 'c' !in a && '(' !in b
  {
  }

  lemma Line21(line: string)
    requires line == "        super(He" + "lpCommand" + "," + (" self)" + "." + "__init__(command_str)\n")
    ensures Search(ClassPattern, line) == None
  {
    var a, b, c := "        super(He" + "lpCommand", " self)", "__init__(command_str)\n";
    Line21Pieces(a, b, c);
    AbsentCharNoMatch(ClassPattern, a, 'c');
    AbsentCharNoMatch(ClassPattern, b, 'c');
    AbsentCharNoMatch(ClassPattern, c, ' ');
    ClassSplit(b, ".", c);
    ClassSplit(a, ",", b + "." + c);
  }

  lemma Line21Pieces(a: string, b: string, c: string)
    requires a == "        super(He" + "lpCommand" && b == " self)" && c == "__init__(command_str)\n"
    ensures 'c' !in a && 'c' !in b && ' ' !in c
  {
  }

  lemma Line22(line: string)
    requires line == "        " + "self._command = \"" + "!help" + "\"" + "\n"
    ensures '(' !in line
  {
  }

  lemma Line23(line: string)
    requires line == "\n"
    ensures '!' !in line && 'c' !in line
  {
  }

  lemma Line24(line: string)
    requires line == "    def run(self" + "):\n"
    ensures '!' !in line && 'c' !in line
  {
  }

  lemma Line25(line: string)
    requires line == "        from .al" + "l_commands impor" + "t commands\n"
    ensures '!' !in line && '(' !in line
  {
  }

  lemma Line26(line: string)
    requires line == "        if self." + "_args:\n"
    ensures '!' !in line && 'c' !in line
  {
  }

  lemma Line27(line: string)
    requires line == "            retu" + "rn commands" + "[" + "self._args[0]].help()\n"
    ensures '!' !in line
  {
  }

  lemma Line27Class(line: string)
    requires line == "            retu" + "rn commands" + "[" + "self._args[0]].help()\n"
    ensures Search(ClassPattern, line) == None
  {
    var a, b := "            retu" + "rn commands", "self._args[0]].help()\n";
    Line27Pieces(a, b);
    AbsentCharNoMatch(ClassPattern, a, 'l');
    AbsentCharNoMatch(ClassPattern, b, ' ');
    ClassSplit(a, "[", b);
  }

  lemma Line27Pieces(a: string, b: string)
    requires a == "            retu" + "rn commands" && b == "self._args[0]].help()\n"
    ensures 'l' !in a && ' ' !in b
  {
  }

  lemma Line28(line: string)
    requires line == "        else:\n"
    ensures '!' !in line && 'c' !in line
  {
  }

  lemma Line29(line: string)
    requires line == "            ret_" + "str = \"Commands:" + " \\n\"\n"
    ensures '!' !in line && 'c' !in line
  {
  }

  lemma Line30(line: string)
    requires line == "            for " + "command in comma" + "nds.keys():\n"
    ensures '!' !in line && 'l' !in line
  {
  }

  lemma Line31(line: string)
    requires line == "                " + "ret_str += \"- \" " + "+ command + \"\\n\"" + "\n"
    ensures '!' !in line && '(' !in line
  {
  }

  lemma Line32(line: string)
    requires line == "            retu" + "rn ret_str\n"
    ensures '!' !in line && 'c' !in line
  {
  }

  lemma Line33(line: string)
    requires line == "\n"
    ensures '!' !in line && 'c' !in line
  {
  }

  lemma Line34(line: string)
    requires line == "    @staticmetho" + "d\n"
    ensures '!' !in line && '(' !in line
  {
  }

  lemma Line35(line: string)
    requires line == "    def help():\n"
    ensures '!' !in line && 'c' !in line
  {
  }

  lemma Line36(line: string)
    requires line == "        return \"" + "\"\"\n"
    ensures '!' !in line && 'c' !in line
  {
  }

  lemma Line37(line: string)
    requires line == "            Disp" + "lays help for a " + "command\n"
    ensures '!' !in line && '(' !in line
  {
  }

  lemma Line38(line: string)
    requires line == "\n"
    ensures '!' !in line && 'c' !in line
  {
  }

  lemma Line39(line: string)
    requires line == "            Requ" + "ired arguments:\n"
    ensures '!' !in line && 'c' !in line
  {
  }

  lemma Line40(line: string)
    requires line == "                " + "Command (i.e. !d" + "ankmemes)\n"
    ensures '"' !in line && 'c' !in line
  {
  }

  lemma Line41(line: string)
    requires line == "\n"
    ensures '!' !in line && 'c' !in line
  {
  }

  lemma Line42(line: string)
    requires line == "            Supp" + "orted options:\n"
    ensures '!' !in line && 'c' !in line
  {
  }

  lemma Line43(line: string)
    requires line == "                " + "None\n"
    ensures '!' !in line && 'c' !in line
  {
  }

  lemma Line44(line: string)
    requires line == "        \"\"\"\n"
    ensures '!' !in line && 'c' !in line
  {
  }

  /** Line 7 declares `HelpCommand`. */
  lemma ClassLine(line: string)
    requires line == "class " + "HelpCommand" + "(" + "BaseCommand):\n"
    ensures Search(ClassPattern, line) == Some("HelpCommand")
  {
    SearchFindsAtStart(ClassPattern, "HelpCommand", "BaseCommand):\n");
  }

  /** Line 22 sets the trigger `!help`. */
  lemma CommandLine(line: string)
    requires line == "        " + "self._command = \"" + "!help" + "\"" + "\n"
    ensures Search(CommandPattern, line) == Some("!help")
  {
    assert "!help"[1..] == "help";
    SearchFindsAfter(CommandPattern, "        ", "!help", "\n");
  }

  /** The generator reads trigger `!help` and class `HelpCommand` from
      `help_command.py`, so the file registers. */
  lemma HelpSourceRegisters(src: seq<string>)
    requires src == HelpSource
    ensures FactsOf(src) == Facts("!help", "HelpCommand")
    ensures Registers(src)
  {
    var head, body, tail := HelpSourceHead, HelpSourceBody, HelpSourceTail;
    assert |head| == 7 && |body| == 15;
    ThreeParts(src, head, body, tail);
    ClassLine(head[6]);
    CommandLine(body[14]);
    BodyHasNoClass(body);
    TailIsClean(tail);
    forall j | 21 < j < |src| ensures Search(CommandPattern, src[j]) == None {
      assert Clean(tail[j - 22]);
    }
    forall j | 6 < j < |src| ensures Search(ClassPattern, src[j]) == None {
      if j >= 22 {
        assert Clean(tail[j - 22]);
      }
    }
    LastMatchWins(CommandPattern, src, 21, "!help");
    LastMatchWins(ClassPattern, src, 6, "HelpCommand");
  }

  /** Where each line of a file made of three parts comes from. */
  lemma ThreeParts(src: seq<string>, a: seq<string>, b: seq<string>, c: seq<string>)
    requires src == a + b + c
    ensures |src| == |a| + |b| + |c|
    ensures forall j :: 0 <= j < |a| ==> src[j] == a[j]
    ensures forall j :: |a| <= j < |a| + |b| ==> src[j] == b[j - |a|]
    ensures forall j :: |a| + |b| <= j < |src| ==> src[j] == c[j - |a| - |b|]
  {
  }

  /** The line the generator writes for it in the `commands` literal. */
  lemma HelpEntryLine(fs: map<string, seq<string>>, f: string)
    requires f in fs && fs[f] == HelpSource
    ensures Produces(fs, f)
    ensures EntryLine(EntryOf(fs, f)) == "\t'" + "!help" + "': " + "HelpCommand" + ",\n"
  {
    HelpSourceRegisters(fs[f]);
  }
}
