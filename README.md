# mundane `app` — a verified model

`mundane/app.py` gives command-line applications startup defaults. It has
two pieces with real logic, and both are modelled here.

- **`Docstring`** reflows an object's docstring to the terminal width. The
  first line of the docstring is a paragraph of its own. After it, every
  maximal block of non-blank lines is stripped, joined by single spaces and
  reflowed with `textwrap.fill`. `summary` is the first non-empty
  paragraph. `description` is every paragraph, joined by blank lines. Both
  are computed lazily, together, on the first read.
- **`ArgparseApp`** is a thin layer over argparse. It has:
  - a table of shared parsers, filled insert-if-absent;
  - a table of commands, registered under the function name with every
    `_` turned into `-`, with help and description taken from the
    function's docstring unless the caller overrides them;
  - a command subparser and a terminal width, both made on first use and
    then kept;
  - module hooks (`mundane_global_flags`, `mundane_shared_flags`,
    `mundane_commands`), called in order on the modules that define them;
  - `run`, which calls the selected command and returns its result, or
    `os.EX_USAGE` (64) when no command was selected.

## Modules

| file | module | contents |
|---|---|---|
| `wrappers.dfy` | `Wrappers` | `Option` |
| `sequences.dfy` | `Sequences` | small facts about slices and concatenation |
| `strings.dfy` | `Strings` | `str.isspace`, `strip()`, `split(c)`, `sep.join`, `replace(a, b)` |
| `runs.dfy` | `MaximalRuns` | the maximal separator-free runs of a sequence, with an independent characterisation by layouts |
| `textwrap.dfy` | `TextWrap` | a greedy word wrapper standing for `textwrap.fill` |
| `docstring.dfy` | `Docstrings` | the paragraphs as a function, the `paragraphs` generator as a loop method, and the `Docstring` class |
| `app.dfy` | `App` | the registration state as a value, the `ArgparseApp` class over it, the invariant it keeps, hook dispatch and `run` |

The stateful parts are written as they are in Python. `Docstring` and
`ArgparseApp` are classes whose methods update fields. `paragraphs` and
`_process` are loops, and so are the hook loops. Each method is proved
equal to a function of the old state (`Docstrings.Paragraphs`,
`App.Register`, `App.AfterModules`, ...), and the properties are lemmas
about those functions. Every state-changing method of `ArgparseApp` also
requires and keeps `Valid()`, the invariant `App.Inv` of its state, so a
client can rely on it after any sequence of calls.

## Model

| member | source | states |
|---|---|---|
| Docstrings.Paragraphs | mundane/app.py:76-91 | The paragraphs the generator yields, as a function: the reflowed stripped first line, then each block of non-blank stripped lines joined by spaces and reflowed. Its meaning is given by `ParagraphsShape`, `BodyLayout`, `FirstLineParagraph`, `LaterParagraphsNonEmpty`, `SingleParagraph` and `ParagraphsFit`. |
| Docstrings.SummaryOf | mundane/app.py:72-96 | The `summary` value: `""` for an absent or empty docstring, else the first non-empty paragraph. Its meaning is given by `FirstNonEmpty`, `BlankDocstring`, `FirstLineParagraph`, `OneParagraph` and `SingleLine`. |
| Docstrings.DescriptionOf | mundane/app.py:72-99 | The `description` value: the paragraphs joined by `"\n\n"`, or `""` for an absent or empty docstring. Its meaning is given by `BlankDocstring`, `OneParagraph`, `SingleLine` and `DescriptionLinesFit`. |
| Docstrings.Docstring.constructor | mundane/app.py:44-54 | The docstring and width are kept; summary and description start out unset. |
| Docstrings.Docstring.Summary | mundane/app.py:56-61 | Returns the summary of the docstring at the width. Both values are computed only on the first read; a later read changes nothing. |
| Docstrings.Docstring.Description | mundane/app.py:63-68 | Returns the description of the docstring at the width. Both values are computed only on the first read; a later read changes nothing. |
| Docstrings.Docstring.Process | mundane/app.py:70-99 | Sets the summary to the first non-empty paragraph and the description to all paragraphs joined by `"\n\n"`. Both are `""` when the docstring is absent or empty. |
| Docstrings.GenerateParagraphs | mundane/app.py:76-91 | The generator yields exactly `Paragraphs(content, width)`: the reflowed first line, then one reflowed paragraph per block. |
| Docstrings.CollectBlocks | mundane/app.py:80-91 | The loop's collected paragraphs are exactly the maximal runs of non-blank stripped lines, in order. This includes the last run, even with no blank line after it. |
| Docstrings.FirstNonEmpty | mundane/app.py:94-96 | The result is `""` iff every paragraph is empty. Otherwise it is the paragraph at some index `k` such that every paragraph before `k` is empty. |
| Docstrings.FirstNonEmptyAppend | mundane/app.py:94-97 | Once found, the summary does not change as more paragraphs arrive; until then, the next paragraph is taken. |
| Docstrings.ParagraphsShape | mundane/app.py:76-91 | An unfolding of `Paragraphs`, index by index, used by the lemmas below: one paragraph more than there are blocks, paragraph 0 the reflowed stripped first line, paragraph `i` block `i-1` joined by spaces and reflowed. |
| Docstrings.FirstLineParagraph | mundane/app.py:77-78 | The first line is its own paragraph even when non-blank lines follow it directly. When it is not blank, it is the summary. |
| Docstrings.BodyLayout | mundane/app.py:80-91 | If the lines after the first are split into blank gaps and non-blank runs, the paragraphs after the first are those runs, each reflowed. This is an independent description of the loop's result. |
| Docstrings.BlockLinesFrom | mundane/app.py:81-84 | Every line of every block is one of the lines, stripped. |
| Docstrings.BlockHeads | mundane/app.py:82-84 | Every block is non-empty and its first line starts with a non-whitespace character. |
| Docstrings.BlockParagraphNonEmpty | mundane/app.py:87-88 | A block whose first line starts with a non-whitespace character reflows to a non-empty paragraph. |
| Docstrings.LaterParagraphsNonEmpty | mundane/app.py:80-91 | No paragraph after the first is empty, however many blank lines there are. |
| Docstrings.BlocksEmpty | mundane/app.py:80-91 | There are no blocks iff every line is whitespace only. |
| Docstrings.FirstParagraphEmpty | mundane/app.py:78 | The first paragraph is empty iff the first line is whitespace only. |
| Docstrings.SingleParagraph | mundane/app.py:76-91 | There is exactly one paragraph iff every line after the first is whitespace only. |
| Docstrings.OneParagraph | mundane/app.py:93-99 | With a single paragraph, summary and description are equal, and both are the reflowed first line. |
| Docstrings.ParagraphsAllEmpty | mundane/app.py:76-91 | Every paragraph is empty iff the text is whitespace only, which holds iff there is one paragraph and it is empty. |
| Docstrings.BlankDocstring | mundane/app.py:72-99 | Summary is `""` iff the docstring is absent or whitespace only, and the same holds for description. |
| Docstrings.SingleLine | mundane/app.py:93-99 | For a one-line docstring, summary and description are both that line, stripped and reflowed. |
| Docstrings.ProcessedValues | mundane/app.py:93-99 | An unfolding of `SummaryOf` and `DescriptionOf` for a non-empty docstring, in terms of the paragraphs the generator yields; `Process` uses it. |
| Docstrings.ParagraphsFit | mundane/app.py:76-91 | When no word is wider than the width, no line of any paragraph is either. |
| Docstrings.DescriptionLinesFit | mundane/app.py:99 | When no word is wider than the width, no line of the description is either. |
| Docstrings.JoinParagraphsFit | mundane/app.py:99 | Paragraphs whose lines fit, joined by blank lines, give a text whose lines fit. |
| TextWrap.Fill | mundane/app.py:87-88 | `textwrap.fill(text, width)`, as a greedy wrapper. Its meaning is given by `FillKeepsWords` (the same words, in order), `FillLinesFit` (lines fit when words do), `FillEmpty`, `PackGreedy` (every break forced) and `PackWithin`. |
| TextWrap.FitCount | mundane/app.py:78 | Gives the longest prefix of the words that fits the room, and no longer; the next word would overflow. |
| TextWrap.PackKeepsWords | mundane/app.py:87-88 | Filling loses no word, adds none and reorders none. Every line holds at least one word. |
| TextWrap.PackWithin | mundane/app.py:87-88 | A line is wider than the width only when it holds a single word. |
| TextWrap.PackGreedy | mundane/app.py:87-88 | Each line break is forced: the first word of the next line would not have fit. |
| TextWrap.PackWordsFrom | mundane/app.py:87-88 | Every word on a line is one of the input words. |
| TextWrap.FillKeepsWords | mundane/app.py:87-88 | The words of the filled text are the words of the input, in order. |
| TextWrap.FillEmpty | mundane/app.py:78 | The filled text is `""` iff the input has no word. |
| TextWrap.FillLinesFit | mundane/app.py:87-88 | When no word is wider than the width, every line of the filled text fits. |
| TextWrap.WordsOfLine | mundane/app.py:87-88 | Words joined by single spaces split back into the same words. |
| TextWrap.WordsOfJoin | mundane/app.py:88 | Joining parts at a whitespace character keeps every part's words, in order. |
| TextWrap.BoundedJoin | mundane/app.py:88 | Parts joined by whitespace have no word wider than the width iff no part has one. |
| Strings.Strip | mundane/app.py:78-82 | `strip()` yields the infix that neither starts nor ends with whitespace and has only whitespace around it. |
| Strings.StripIdempotent | mundane/app.py:82 | Stripping twice is the same as stripping once. |
| Strings.StripEmpty | mundane/app.py:82-83 | A stripped line is empty iff the line is whitespace only. |
| Strings.Split | mundane/app.py:77 | `split('\n')` gives at least one piece, and no piece holds the separator. |
| Strings.JoinSplit | mundane/app.py:77 | Joining the pieces of a split with the separator gives back the text. |
| Strings.SplitJoin | mundane/app.py:77 | Splitting a join of separator-free pieces gives back the pieces. |
| Strings.Replace | mundane/app.py:336 | `replace(a, b)` keeps the length and changes exactly the occurrences of `a`. |
| Strings.Join | mundane/app.py:88-99 | `sep.join(parts)`, used with `' '` for the lines of a block and with `'\n\n'` for the description. Its meaning is given by `JoinSplit`/`SplitJoin` (inverse of `split`), `JoinEmpty`, `JoinHead` and `AllSpaceJoin`. |
| Strings.JoinEmpty | mundane/app.py:99 | A join with a non-empty separator is `""` iff it joins at most one part and that part is `""`. |
| Strings.AllSpaceLines | mundane/app.py:77-83 | A text is whitespace only iff each of its lines is. |
| MaximalRuns.RunsCharacterized | mundane/app.py:80-91 | `gs` is the list of maximal runs of `xs` iff `xs` can be laid out as separator gaps around the runs `gs`. |
| MaximalRuns.RunsSplitAt | mundane/app.py:85-89 | The runs on both sides of a separator are the runs of the whole. |
| MaximalRuns.RunsAllSep | mundane/app.py:85-89 | A stretch of separators has no runs. |
| MaximalRuns.RunsFrom | mundane/app.py:83-84 | Every element of every run is an element of the input. |
| MaximalRuns.RunsEmpty | mundane/app.py:80-91 | There are no runs iff every element is a separator. |
| App.CommandName | mundane/app.py:336 | `func.__name__.replace('_', '-')`. Its meaning is given by `CommandNameShape`, `CommandNameIdempotent`, `CommandNameRoundTrip` and `CommandNameInjective`. |
| App.HookOf | mundane/app.py:355 | `getattr(module, hook_name, None)`: the module's attribute named by `HookAttribute`, when it has one. `CallsOnlyDefined` and `CallsCount` state what the dispatch loop does with it. |
| App.ArgparseApp.AddGlobalFlag | mundane/log_mgr.py:45-51 | `global_flags.add_argument(...)`, as a hook calls it: the flag is appended after the existing ones, nothing else changes, and the invariant (help flag first) is kept. |
| App.ArgparseApp.constructor | mundane/app.py:186-221 | The description is the keyword argument when one is given, otherwise the docstring's reflowed description. The state is the initial one, holding only the help flag; with `use_log_mgr` it is the state after `log_mgr`'s global-flags hook; the invariant holds. |
| App.ArgparseApp.Width | mundane/app.py:255-263 | The first read stores the terminal's columns, and later reads return the stored value. Requires and keeps the invariant `Inv` (`Valid()`). |
| App.ArgparseApp.Subparser | mundane/app.py:233-243 | The subparser is created on the first use only, with a fresh identity. Requires and keeps the invariant `Inv` (`Valid()`). |
| App.ArgparseApp.NewSharedParser | mundane/app.py:265-288 | A parser is created and recorded iff the name is new; otherwise the result is `None` and nothing changes. Requires and keeps the invariant `Inv` (`Valid()`). |
| App.ArgparseApp.GetSharedParser | mundane/app.py:290-303 | Returns the parser iff the name is registered, and `None` otherwise. |
| App.ArgparseApp.ReadDocstring | mundane/app.py:337-342 | The summary and description of the function's docstring at the width. |
| App.ArgparseApp.RegisterCommand | mundane/app.py:305-349 | Reads the width, takes help and description from the docstring unless overridden, makes the subparser if needed, and registers a new parser under the command name. Requires and keeps the invariant `Inv` (`Valid()`). |
| App.ArgparseApp.AddParser | mundane/app.py:346-347 | `subparser.add_parser(name, ...)` and `set_defaults(func=func)`: the subparser is made if needed, a fresh parser is handed out, and the command is registered under `name`; the invariant is kept. |
| App.ArgparseApp.InvokeHook | mundane/app.py:357 | A hook's calls on the application run in order. Requires and keeps the invariant `Inv` (`Valid()`). |
| App.ArgparseApp.RegisterModuleViaHooks | mundane/app.py:351-357 | Visits the modules in order and calls the hook once on each module that defines it. The calls made are exactly `Calls(h, modules)`. Requires and keeps the invariant `Inv` (`Valid()`). |
| App.ArgparseApp.RegisterGlobalFlags | mundane/app.py:359-380 | The dispatch loop with the `mundane_global_flags` hook. Requires and keeps the invariant `Inv` (`Valid()`). |
| App.ArgparseApp.RegisterSharedFlags | mundane/app.py:382-402 | The dispatch loop with the `mundane_shared_flags` hook. Requires and keeps the invariant `Inv` (`Valid()`). |
| App.ArgparseApp.RegisterCommands | mundane/app.py:404-424 | The dispatch loop with the `mundane_commands` hook. Requires and keeps the invariant `Inv` (`Valid()`). |
| App.ArgparseApp.Run | mundane/app.py:426-441 | The result is `Dispatch`. Help is printed iff no command was selected or the command raised `AttributeError`. The command is called exactly when one was selected. |
| App.CommandNameShape | mundane/app.py:336 | A command name holds no `_`, has the function name's length, and keeps every other character. |
| App.CommandNameIdempotent | mundane/app.py:336 | Renaming a command name again changes nothing. |
| App.CommandNameRoundTrip | mundane/app.py:336 | For a name with no `-`, turning `-` back into `_` restores the function name. |
| App.CommandNameInjective | mundane/app.py:336 | Functions whose names hold no `-` get the same command name only when their names are equal. |
| App.CommandNameExample | mundane/app.py:336 | `do_thing` is registered as `do-thing`. |
| App.NewSharedIffAbsent | mundane/app.py:284-303 | A parser is created iff the name is absent. The new parser is distinct from every earlier one, `get_shared_parser` finds it, and other names are unaffected. When the name is present, nothing changes. |
| App.NewSharedTwice | mundane/app.py:284-303 | A second call with the same name returns `None`, and `get_shared_parser` still finds the first parser. |
| App.WidthStable | mundane/app.py:261-263 | Once measured, the width no longer depends on the terminal. |
| App.SubparserOnce | mundane/app.py:236-243 | The subparser is made at most once and exists afterwards. |
| App.RegisterEntry | mundane/app.py:336-347 | The command sits under its command name, with the docstring's summary and description (each unless overridden), the given parents, the function as default and a fresh parser. Other commands, the shared parsers, the global flags and an existing subparser are unchanged. |
| App.InitialInv | mundane/app.py:212-217 | The state right after construction satisfies the invariant. |
| App.InvNewShared | mundane/app.py:284-288 | `new_shared_parser` keeps the invariant. |
| App.InvRegister | mundane/app.py:336-347 | `register_command` keeps the invariant: identities stay distinct, and every command is keyed by its own name. |
| App.InvAfterSteps | mundane/app.py:354-357 | The invariant holds whatever calls the hooks make. |
| App.InvAfterModules | mundane/app.py:354-357 | Registering modules keeps the invariant. |
| App.AfterStepsAppend | mundane/app.py:357 | Running two lists of calls one after the other is the same as running them concatenated. |
| App.AfterModulesAsSteps | mundane/app.py:354-357 | Registering modules has the effect of the defining modules' hooks, each once and in module order; the other modules have no effect. |
| App.AfterModulesAppend | mundane/app.py:354-357 | Registering two batches of modules is the same as registering one batch in the same order. |
| App.CallsAppend | mundane/app.py:354-357 | The calls for two batches are those of the first batch, then those of the second. |
| App.CallsOnlyDefined | mundane/app.py:355-357 | Every call is of the given hook, on a listed module that defines it. |
| App.CallsCount | mundane/app.py:354-357 | A module that defines the hook is called once per time it is listed; a module that does not is never called. |
| App.RunUsage | mundane/app.py:428-441 | `run` returns 64 iff no command was selected, the command raised `AttributeError`, or it returned 64 itself. |
| App.RunPassesResult | mundane/app.py:432-441 | The command's return value, `None` included, is returned unchanged. |
| App.RunPropagates | mundane/app.py:430-438 | An exception other than `AttributeError` propagates out of `run`. |

## Left out

- argparse is not modelled beyond what the application records. Parsers and the subparser are identities handed out by a counter. The `Global flags` argument group (mundane/app.py:213-214) has no identity of its own; it is represented only by its list of flags. A flag is its name. `add_argument`, `add_subparsers`, `add_parser`, `set_defaults`, `parse_args` and `print_help` are represented only by their effect on the application's own tables.
- `parse_args` is not modelled. `run` takes the parsed namespace as a parameter, and the exit that argparse makes on bad arguments or `--help` is outside the model.
- `inspect.getdoc` is not modelled. A function's docstring is given already cleaned, as an `Option<string>`.
- `shutil.get_terminal_size` is a parameter, `columns`, required to be positive. `textwrap.fill` raises on a width below one, so a zero width is an error the model does not reach.
- `textwrap.fill` is modelled by a greedy wrapper at ASCII whitespace (`TextWrap.Fill`). It does not model `textwrap`'s breaking of words longer than the width, its splitting at hyphens, or its keeping of a run of several spaces between two words on a line; the model puts one space between words. For words wider than the width, the line is left overlong; `PackWithin` states this.
- Calling a hook is its effect only. Each hook is a sequence of calls on the application: add a global flag, create a shared parser, register a command. Arbitrary code in a hook is not modelled.
- `getattr(module, hook, None)` tests truthiness. The model treats every defined hook as callable, and a module's hook as either present or absent.
- `log_mgr.activate()`, `logging` calls, `resource.getrusage` and `humanize.naturalsize` are not modelled; they are I/O.
- `LogAction` (mundane/app.py:102-112) and the module-level `run(func)` (mundane/app.py:445-497) are not modelled; they are logging and file-system set-up.
- nexushoratio/app.py is not part of this model; it is a separate start-up helper. mundane/log_mgr.py enters only through its global-flags hook, which adds the `--log-level` flag.
- `App.ArgparseApp.AddGlobalFlag`: adding a flag whose option string is already taken (`-h`/`--help`, or `--log-level` when log_mgr's hook runs a second time through `register_global_flags`) raises `argparse.ArgumentError` in the source and adds nothing. The model appends the flag again, and that error is not modelled.
- `App.ArgparseApp.RegisterCommand`: registering a second command under a name that is already taken replaces the earlier entry. Newer argparse versions raise an error instead, and the error is not modelled.
- `App.ArgparseApp.Run`: an `AttributeError` raised inside the command itself is caught too, like a missing `func`, because the whole call sits inside the `try` (mundane/app.py:430-439). The model follows the code here; the class documentation only mentions the namespace lacking `func`.
- `Docstrings.Docstring.Process`: the generator yields paragraphs lazily, while the model collects the blocks first and then reflows them. The paragraphs and their order are the same.
- `App.Overrides`: an override is a string or absent. Passing `help=None` (or another value that is not a string) counts as an override in the source, since `parser_args.update(kwargs)` replaces the docstring's text with whatever was passed (mundane/app.py:344); the model cannot express that case. Other `add_parser` keyword arguments are not modelled.
- The `parser`, `global_flags` and `argparse_api` properties only expose argparse objects, and are not modelled separately.
