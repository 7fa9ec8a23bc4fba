# Command registry generator and the `!help` command

This project is a Dafny model of how a Discord bot registers its commands.
Two parts are modelled:

- `scripts/update_all_commands.py` is the generator. It walks
  `discord_commands/` and keeps the files whose names match
  `\w*_command\.py`. It scans each kept file for the trigger
  (`self._command = "!x"`) and the class name (`class X(`). It then builds an
  insertion-ordered dictionary from trigger to class and file. Files where
  either capture is empty are removed from the caller's list in place. Finally it
  writes `discord_commands/all_commands.py`: one import line per surviving
  file, then the `commands = { ... }` literal.
- `discord_commands/help_command.py` is the `!help` command. It reads that
  `commands` dictionary. With an argument it answers the help of the class
  registered for it. Without one it lists every trigger. It also serves as a
  concrete input to the generator: the model proves that the generator reads
  trigger `!help` and class `HelpCommand` from this file's own text.

The modules are:

- `Text`: the Python string operations used, on `seq<char>`.
- `Discovery`: the walk and the file-name pattern.
- `Patterns`: the two line patterns, as leftmost search.
- `Extraction`: scanning files, the ordered dictionary and in-place removal.
- `Emission`: the generated text, and parsing it back.
- `Help`: the help command.

Each loop of the source is a method proved equal to a specification
function. Lemmas then prove what the program promises about those functions.

Inputs that the program gets from the operating system are parameters:

- The directory walk is a sequence of `DirEntry(root, names)` in walk order.
- File contents are a map from path to the file's lines.
- The help text of other command classes is a function `helpOf`.
- The generated file is returned as a string instead of being written.

Where the code and its description differ, the model follows the code:

- When a file has several matching lines, the last match wins for both the
  trigger and the class. It is not the first.
- A `__pycache__` directory is skipped by `continue`. Its own files are
  ignored, but its subdirectories are still visited.
- A file at the top of `discord_commands/` is imported as
  `from ..name import X`, with two dots. The path is `discord_commands/` +
  `/` + name, and the leading `/` becomes an empty first module.
- `help()` does not mention the no-argument listing mode. The class
  docstring does mention it, and `run` implements it.

## Model

| member | source | states |
|---|---|---|
| Discovery.CommandFileNameSpec | scripts/update_all_commands.py:11 | A name is accepted iff a prefix of word characters is followed by `_command.py`. The match is anchored at the start only, so anything may follow. |
| Discovery.AcceptsCommandModules | scripts/update_all_commands.py:23 | `help_command.py` is accepted, and so is `x_command.pyc`, because the pattern is not anchored at the end. |
| Discovery.RejectsGeneratedFile | scripts/update_all_commands.py:23 | The generated `all_commands.py` is never taken for a command module, nor is a bare `command.py`. |
| Discovery.GetAllCommandFiles | scripts/update_all_commands.py:14-26 | The loop over the walk returns exactly `Discovered(walk)`: accepted names as `root + "/" + name`, in walk and listing order, with cache directories skipped. |
| Discovery.DiscoveredMembers | scripts/update_all_commands.py:17-24 | A path is discovered iff some accepted name in some non-cache directory produces it. |
| Discovery.DiscoveredAppend | scripts/update_all_commands.py:17-24 | The walk is handled one directory at a time: discovering over two consecutive parts of a walk gives the two results in order. |
| Discovery.CacheDirsYieldNothing | scripts/update_all_commands.py:19-20 | A directory whose path ends in `__pycache__` contributes no path wherever it comes in the walk: removing it from any walk leaves the result unchanged. |
| Discovery.DiscoveredBound | scripts/update_all_commands.py:22-24 | At most one path is produced per listed name. |
| Patterns.MatchAtSpec | scripts/update_all_commands.py:38-39 | At a given position, the scanner yields capture `g` iff the pattern `lead (sigil [a-zA-Z0-9]*) close` matches there with that capture. |
| Patterns.SearchSpec | scripts/update_all_commands.py:46-47 | `Search` gives `g` iff `g` is the capture of the leftmost match in the line. |
| Patterns.SearchNone | scripts/update_all_commands.py:46-47 | `Search` finds nothing iff the pattern matches at no position. |
| Patterns.CommandCaptureShape | scripts/update_all_commands.py:38 | A captured trigger is `!` followed by ASCII letters and digits. |
| Extraction.ScanFile | scripts/update_all_commands.py:44-52 | The per-file loop leaves `command` and `class_name` at the capture of the last matching line, or `""` when no line matches. |
| Extraction.LastMatchWins | scripts/update_all_commands.py:45-52 | A match on line `k` and none after it: the variable ends with the capture of line `k`. |
| Extraction.NoMatchNoCapture | scripts/update_all_commands.py:44-52 | With no matching line the capture stays `""`. |
| Extraction.EmptyClassLineDrops | scripts/update_all_commands.py:51-57 | A last `class (` line with an empty name resets the class name, and the file does not register: it is removed and adds no entry. |
| Extraction.RegisteredShape | scripts/update_all_commands.py:38-39 | A file that registers has a trigger of the form `!` plus alphanumerics and a non-empty alphanumeric class name. |
| Extraction.Put | scripts/update_all_commands.py:55 | Dictionary assignment. A new key is appended at the end. An existing key keeps its position and gets the new value. Other entries are unchanged, and keys stay unique. |
| Extraction.PutLookup | scripts/update_all_commands.py:55 | After assignment a key is present iff it is the new key or was present before. The new key maps to the new entry. |
| Extraction.FileList.constructor | scripts/update_all_commands.py:104-105 | The list holds the given files. |
| Extraction.FileList.Remove | scripts/update_all_commands.py:61 | `list.remove`: the first occurrence is removed. `found` is false, and nothing changes, where Python raises `ValueError`. |
| Extraction.BuildAllCommands | scripts/update_all_commands.py:29-63 | The dictionary returned is `TableOf(files)`. The caller's list is changed in place to exactly the files whose two captures are both non-empty, in order. A file whose trigger a later file takes stays in the list. |
| Extraction.RemoveFiles | scripts/update_all_commands.py:59-61 | Removing each failing file once, in order, leaves exactly the surviving files. |
| Extraction.SurvivorsMembers | scripts/update_all_commands.py:54-57 | A file survives iff it is listed and both of its captures are non-empty. Otherwise it is to be removed. Survivors and removals partition the list. |
| Extraction.SurvivorsProduce | scripts/update_all_commands.py:54-57 | Every surviving file can be opened and both of its captures are non-empty; its entry may still be replaced by a later file with the same trigger. |
| Extraction.NoFailingAllSurvive | scripts/update_all_commands.py:59-61 | With nothing to remove, the list is unchanged. |
| Extraction.TableEntries | scripts/update_all_commands.py:54-55 | The dictionary has unique keys. Each entry is the trigger, class and path of a listed file that produced it. |
| Extraction.TableShapes | scripts/update_all_commands.py:38-39 | Every stored trigger is `!` plus alphanumerics. Every stored class name is non-empty and alphanumeric. |
| Extraction.OneEntryPerFile | scripts/update_all_commands.py:55 | A file is the `file` of at most one entry. |
| Extraction.TableSize | scripts/update_all_commands.py:54-61 | There are no more entries than surviving files, and no more surviving files than discovered files. |
| Extraction.KeysKeepPosition | scripts/update_all_commands.py:55 | A trigger first stored by an earlier file stays at its position, whatever later files write. |
| Extraction.LastWriterWins | scripts/update_all_commands.py:55 | A file's entry is stored when no later file uses its trigger. |
| Extraction.DistinctTriggersTable | scripts/update_all_commands.py:43-55 | When all files register with distinct triggers, the dictionary holds one entry per file, in file order. |
| Extraction.DuplicateTrigger | scripts/update_all_commands.py:55-57 | Two files with one trigger: only the later entry is kept, yet both files stay in the list. |
| Emission.BuildFromString | scripts/update_all_commands.py:79-89 | Building `from_string` gives `"from ." + ".".join(modules)`. |
| Emission.BuildImportString | scripts/update_all_commands.py:80-92 | `import_string` is `" import "` followed by the classes of the entries whose file is `f`, in dictionary order. |
| Emission.BuildImportLine | scripts/update_all_commands.py:78-93 | One import line per file: from-clause, import clause and newline. |
| Emission.WriteImportLines | scripts/update_all_commands.py:78-93 | The import loop appends `ImportLines(cmds, files)`: one line per file, in file order. |
| Emission.WriteEntryLines | scripts/update_all_commands.py:97-99 | The dict loop appends one `\t'<trigger>': <class>,` line per entry, in dictionary order. |
| Emission.WriteNewAllCommands | scripts/update_all_commands.py:66-100 | The file written is exactly header, import lines, `\n\ncommands = {\n`, entry lines and `}\n`. It is determined by the dictionary and the list alone. |
| Emission.UpdateAllCommands | scripts/update_all_commands.py:103-106 | The whole run writes `AllCommandsText` over the table and the survivors of the discovered files. |
| Emission.FromClauseIsDotted | scripts/update_all_commands.py:81-89 | The from-clause is `"from ."` plus the stripped path with every `/` turned into `.`. |
| Emission.TopLevelFromClause | scripts/update_all_commands.py:81-89 | A top-level file `discord_commands//name.py` is imported from `..name`. |
| Emission.GeneratedImportLine | scripts/update_all_commands.py:90-92 | Each file imports exactly the class of the one entry whose file it is, or no class when no entry has this file (with `Extraction.LastWriterWins` and `Emission.DuplicateTriggerImport`: when a later file took its trigger). |
| Emission.DuplicateTriggerImport | scripts/update_all_commands.py:90-93 | With two files on one trigger, the earlier file's line is `from ... import` with no class. |
| Emission.ImportLineCount | scripts/update_all_commands.py:78-93 | The import section has exactly one line break per file, when no from-clause and no class name holds a line break. A discovered name may end in a line break, because the name pattern is anchored only at the start; such a file's import line spans two lines. |
| Emission.EntryLinesRoundTrip | scripts/update_all_commands.py:97-99 | Reading the entry lines back gives the dictionary's (trigger, class) pairs in order, when no trigger holds `'` and no class holds `,`. |
| Emission.GeneratedCommandsRoundTrip | scripts/update_all_commands.py:96-100 | For every generated dictionary, the `commands` literal reads back as exactly its (trigger, class) pairs, in dictionary order. |
| Help.Lookup | discord_commands/help_command.py:27 | `commands[key]`: nothing iff no entry has the key. Otherwise it gives the class of an entry with that key. |
| Help.Answer | discord_commands/help_command.py:24-32 | With an argument: `KeyError(arg)` iff the trigger is unregistered, else the help of a class registered for it. Without an argument: the listing of all keys. |
| Help.HelpCommand.constructor | discord_commands/help_command.py:20-22 | The trigger is `!help` and the arguments are kept. |
| Help.HelpCommand.Run | discord_commands/help_command.py:24-32 | `run`, with its listing loop, returns exactly `Answer(args, commands, helpOf)`. |
| Help.HelpCommand.Help | discord_commands/help_command.py:34-44 | The help text contains the summary line and the usage line for a command argument. |
| Help.OnlyFirstArgument | discord_commands/help_command.py:27 | Only the first argument is looked at. |
| Help.LookupUnique | discord_commands/help_command.py:27 | With unique keys, looking up a stored trigger gives its own class. |
| Help.ListingRoundTrip | discord_commands/help_command.py:29-32 | The listing reads back as exactly the keys, in order, when no key holds a line break. |
| Help.ListingLineCount | discord_commands/help_command.py:29-32 | The listing has one line break per key plus one for the header line, when no key holds a line break. |
| Help.AnswersEveryRegisteredTrigger | discord_commands/help_command.py:26-27 | Over a generated registry, `!help <trigger>` answers that trigger's class help for every stored trigger. |
| Help.ListsEveryRegisteredTrigger | discord_commands/help_command.py:28-32 | Over a generated registry, `!help` alone lists every stored trigger in dictionary order, one line each after the header. |
| Help.HelpSourceRegisters | discord_commands/help_command.py:1-44 | Scanning this file's own 44 lines gives trigger `!help` (line 22) and class `HelpCommand` (line 7), so it registers. |
| Help.HelpEntryLine | discord_commands/help_command.py:7-22 | The generator writes `\t'!help': HelpCommand,` for this file. |

## Left out

- The file system is not modelled. `os.walk`, `open()` and writing
  `all_commands.py` become inputs and a returned string. The walk is a
  sequence of directory entries, file contents are a map from path to lines,
  and the generated text is the result.
- Extraction.BuildAllCommands: `open()` failing on a path is not modelled.
  The precondition asks that every listed path has contents.
- Emission.UpdateAllCommands: the same precondition holds for every
  discovered path.
- The console message printed for each dictionary entry
  (scripts/update_all_commands.py:98) is output only and is not modelled.
- `\w` is modelled as ASCII letters, digits and underscore. Python 3's
  `\w` on `str` also accepts other Unicode word characters.
- Only the two line patterns of the generator are modelled, as leftmost
  search. No general regular-expression engine is modelled.
- `BaseCommand` (`discord_commands/command.py`) and its argument parsing are
  not part of this model. `HelpCommand` takes its argument list directly.
- The dynamic `from .all_commands import commands` is not modelled. The
  registry is a parameter, a sequence of (trigger, class) pairs.
- Instantiating a class and calling its `help()` is a parameter function
  `helpOf` from class name to text. The other command classes are not part of
  this model.
- Help.HelpCommand.Help: the contract states that the summary and usage lines
  occur in the text, not the text's full layout. The text is a constant,
  `HelpText`.
- Help.Lookup: `commands[key]` on a Python dict has unique keys. The model
  returns the first matching pair. A registry built by the generator has
  unique keys (Extraction.TableEntries), so this is the dict lookup there.
