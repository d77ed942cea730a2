# masklint, modelled in Dafny

masklint lints the scripts embedded in a maskfile. The maskfile has already been parsed into a tree of commands. The walker (`process_command` in `src/main.rs`) visits that tree in document order and does the following for each command that carries a script:

- It builds the command's full name (the parent's full name, a space, then its own name).
- It picks a language handler from the script's executor tag.
- It creates a new file in the output directory, named after the full name with spaces turned into underscores plus the handler's extension. Creation fails if the file already exists.
- It writes the handler's content into that file.
- Unless it is only dumping, it runs the handler's analyser on the file. A non-empty `Findings` result counts one and is printed. A non-empty `Warning` is printed unless warnings are suppressed.

Subcommands come next and their counts are added. The first error ends the walk. `main` adds up the counts of the top-level commands. A positive total becomes an error, `N file(s) with lint failures.`

The handlers are:
- **Catchall**: writes the source unchanged and only ever warns `no linter found for target`.
- **Shellcheck** (`sh`, `bash`): puts a `#!/bin/usr/env <executor>` line in front of the source, trims the analyser's output and removes every `<path> `.
- **Ruff** (`py`, `python`): keeps the trimmed output's lines up to the first one starting with `Found `, rewrites `<path>:` to `line ` in each, then joins and trims.
- **Rubocop** (`rb`, `ruby`): drops the lines mentioning `1 file inspected`, then joins, trims and rewrites `<path>:` to `line `.
- **Nushell**: reports the trimmed output of `nu-check`.

`src/main.rs` carries its own copy of the result type, the handler trait and the four handlers it dispatches to. `src/handlers.rs` holds the same handlers plus Nushell; `src/main.rs` never refers to that file.

Modules:
- `Wrappers`: `Option` and `Result`.
- `Text`: the Rust string operations the handlers use. These are `trim` with the full Unicode White_Space set, `replace`, `contains`, `starts_with` (Dafny's prefix test `<=`), `lines` and `join`; `Split` is the helper `Lines` is built on.
- `Decimal`: how a count is rendered in decimal.
- `Handlers`: result kinds, extensions, content, and the output normalisers. `Execute` takes the analyser as an oracle.
- `Naming`: dispatch, full names, file names, and joining a path onto a directory.
- `Walker`: `process_command` as `Walk` and `WalkAll`, and the flat reference run `ProcessEntries` over the scripts in document order.
- `WalkProperties`: shows the tree walk equals the reference run, then proves the walker's guarantees on it.
- `Summary`: the top-level loop and its message.
- `Scenarios`: the walker combined with the real handlers.

The output directory is a map from path to content. Creating a file at a path already in the map fails, as `create_new(true)` does. Launching an analyser is a function from handler and path to either a lint result or the kind of I/O error. The handlers' version of that function runs a given analyser oracle through `Execute`.

## Model

| member | source | states |
|---|---|---|
| Text.Trim | src/main.rs:207-209 | the trimmed text is a contiguous piece of the input that neither starts nor ends with Unicode white space |
| Text.TrimStart | src/main.rs:239 | drops exactly the longest all-white-space prefix: what is cut is all white space and the rest does not start with white space |
| Text.TrimEnd | src/main.rs:273 | drops exactly the longest all-white-space suffix |
| Text.TrimEmptyIff | src/main.rs:207-208 | trimming gives the empty string exactly when the whole input is white space |
| Text.TrimIdempotent | src/main.rs:247 | trimming an already trimmed text changes nothing, so the final trim of the Python handler's joined lines is stable |
| Text.TrimIgnoresTrailingNewline | src/main.rs:207-208 | a trailing line feed in an analyser's output never reaches the message |
| Text.TrimStartAppend | src/main.rs:239 | trimming the start of `a + b` only reaches into `b` when `a` is all white space |
| Text.ReplaceAll | src/main.rs:209 | `replace` leaves the text alone when the pattern does not occur, and a replacement no longer than the pattern never lengthens the text; what an occurrence becomes is stated by `Text.ReplaceFirstOccurrence` |
| Text.NoMatchBeforeIff | src/main.rs:209 | the helper condition of the next rows means exactly that none of the first `k` positions starts an occurrence |
| Text.ReplaceFirstOccurrence | src/main.rs:209 | in `a + pat + b` with no occurrence starting inside `a`, `replace` keeps `a`, puts the replacement for the occurrence and goes on replacing in `b` |
| Text.ReplaceAtFirstMatch | src/main.rs:209 | the same for an occurrence at any position with none in front of it |
| Text.ReplaceShorterUnchangedIff | src/main.rs:207-209 | with a replacement shorter than the pattern, the text is unchanged exactly when the pattern does not occur |
| Text.ReplaceShorterShrinks | src/main.rs:209 | removing `<path> ` from output that mentions it makes the message strictly shorter |
| Text.ReplaceCharPointwise | src/main.rs:105 | replacing one character by another keeps the length and changes exactly the positions holding that character |
| Text.ContainsKeepsChars | src/main.rs:245 | every character of a pattern that occurs in a text is in the text, so a line without `:` is never rewritten |
| Text.ContainsFits | src/main.rs:270 | a pattern that occurs is no longer than the text, so a line mentioning `1 file inspected` is not empty |
| Text.Split | src/main.rs:269 | a split, on which `lines()` is built, has at least one piece and no piece holds the separator |
| Text.JoinSplit | src/main.rs:269 | joining the pieces of a split with the separator gives back the text |
| Text.SplitJoin | src/main.rs:269 | splitting a join of separator-free pieces gives back the pieces |
| Text.SplitFree | src/main.rs:269 | a text without the separator splits into itself alone |
| Text.SplitAtFirst | src/main.rs:269 | a split cuts at the first separator and goes on with the rest |
| Text.JoinSnoc | src/main.rs:247 | joining one more piece appends the separator and that piece |
| Text.Lines | src/main.rs:269 | no line holds a line feed |
| Text.LinesJoin | src/main.rs:268-272 | the lines of a text joined with line feeds give back the text without its final line feed, and nothing else is lost |
| Text.TrimJoinedLines | src/main.rs:269-273 | splitting into lines and joining them back before trimming gives the same as trimming the raw output |
| Text.LinesOfTrimmed | src/main.rs:239 | for a text not ending in a line feed, joining its lines gives the text back |
| Text.LinesOfJoin | src/main.rs:269-272 | lines without line feeds, the last not empty, are the lines of their join |
| Decimal.NatToString | src/main.rs:71 | a count is rendered as at least one decimal digit, with a leading `0` only for zero itself |
| Decimal.ParseNatToString | src/main.rs:71 | reading the rendered digits back gives the count |
| Decimal.LeadingDigits | src/main.rs:71 | read-back helper for the summary round trip: the longest digit prefix of a text is followed by a non-digit or the end |
| Decimal.LeadingDigitsOfConcat | src/main.rs:71 | the digits in front of a non-digit are exactly the leading digits |
| Handlers.WarningResult | src/main.rs:161-163 | a warning keeps its message and has the warning kind |
| Handlers.FindingsResult | src/main.rs:165-167 | findings keep their message and have the findings kind |
| Handlers.Extension | src/main.rs:170-173 | an extension is empty (the trait default) or a dot and two lower-case letters |
| Handlers.ExtensionIdentifiesHandler | src/handlers.rs:32-34 | each handler has its own extension and only the catch-all has none |
| Handlers.NameIdentifiesHandler | src/handlers.rs:43-46 | each handler has its own display name |
| Handlers.Content | src/main.rs:212-216 | the file ends with the script's source; every handler except the shell one writes the source unchanged; the shell handler writes the shebang line first |
| Handlers.IndexOf | src/main.rs:213 | read-back helper for the shell content round trip: the first position of a character that occurs |
| Handlers.ShellcheckContentRoundTrip | src/main.rs:212-216 | for an executor tag without a line feed, the shell file content gives back the executor tag and the source |
| Handlers.IndexOfAfter | src/main.rs:213 | the first line feed after a line-feed-free tag is right after that tag |
| Handlers.ShellcheckMessage | src/main.rs:205-211 | the shell message is never longer than the trimmed output; what it becomes is stated by `Handlers.ShellcheckRemovesPath` |
| Handlers.ShellcheckMessageUnchangedIff | src/main.rs:207-209 | the shell message is the trimmed output verbatim exactly when that output never mentions `<path> ` |
| Handlers.ShellcheckRemovesPath | src/main.rs:207-209 | the first `<path> ` in the trimmed output is removed, the text in front of it is kept, and removing goes on after it |
| Handlers.LinesBeforeSummary | src/main.rs:239-246 | the kept lines are a prefix of the output's lines, none starts with `Found `, and the first one dropped does |
| Handlers.RewriteLines | src/main.rs:245 | every kept line has `<path>:` rewritten to `line `, one output line per input line |
| Handlers.RuffRewritesPath | src/main.rs:245 | in each kept line the first `<path>:` becomes `line `, the text in front of it is kept, and rewriting goes on after it |
| Handlers.RuffSummaryFirstIsEmpty | src/main.rs:239-247 | output that opens with a `Found ` summary followed by more text gives an empty message |
| Handlers.RuffEmptyWhenSummaryFirst | src/main.rs:239-247 | when the first line of the trimmed output starts with `Found `, the message is empty |
| Handlers.RuffBareSummaryIsKept | src/main.rs:239-247 | output that trims to `Found` is not cut as a summary: the message is `Found`, for any path |
| Handlers.TrimFoundSpace | src/main.rs:239 | trimming turns a bare `Found ` into `Found`, which no longer starts with `Found ` |
| Handlers.RuffSingleLineKept | src/main.rs:238-248 | output that trims to one line, neither starting with `Found ` nor mentioning `<path>:`, is reported as that line |
| Handlers.RuffMessagePassThrough | src/main.rs:238-248 | output without summary lines and without `<path>:` is reported as its trimmed self |
| Handlers.DropInspected | src/main.rs:270 | the lines kept are exactly those not mentioning `1 file inspected`, and a text with no such line is kept whole; order and repetitions are stated by `Handlers.DropInspectedAppend` |
| Handlers.DropInspectedAppend | src/main.rs:270 | the filter distributes over concatenation, so kept lines stay in order with their repetitions |
| Handlers.DropInspectedSingle | src/main.rs:270 | a single line is dropped exactly when it mentions `1 file inspected` |
| Handlers.RubocopMessagePassThrough | src/main.rs:262-276 | output with no `1 file inspected` line and no `<path>:` is reported as its trimmed self |
| Handlers.RubocopRewritesPath | src/main.rs:270-274 | in the filtered, joined and trimmed output the first `<path>:` becomes `line `, and rewriting goes on after it |
| Handlers.RubocopIgnoresMarkerLine | src/main.rs:268-274 | two outputs whose lines differ by one line mentioning `1 file inspected` give the same message |
| Handlers.RubocopIgnoresInsertedMarker | src/main.rs:268-274 | inserting a `1 file inspected` line among separator-free output lines leaves the message unchanged |
| Handlers.NushellMessageEmptyIff | src/handlers.rs:151-161 | Nushell reports nothing exactly when its output is blank |
| Handlers.Execute | src/main.rs:187-276 | the catch-all always warns `no linter found for target`; every other handler reports findings exactly when its analyser ran, with the message its own normaliser makes of the analyser's output, and a launch error is passed through |
| Handlers.CatchallIgnoresTool | src/main.rs:188-190 | the catch-all's result does not depend on any analyser and is never empty |
| Naming.Dispatch | src/main.rs:98-103 | `sh` and `bash` pick the shell handler, `py` and `python` the Python one, `rb` and `ruby` the Ruby one, anything else the catch-all; the Nushell handler is never picked |
| Naming.DispatchDiffersOnlyOnNushell | src/main.rs:98-103 | the walker's dispatch agrees with `Naming.RegistryDispatch` (the same dispatch plus the `nu`/`nushell` arm the Nushell handler of `src/handlers.rs` would need) except on `nu` and `nushell`, which fall to the catch-all |
| Naming.NushellUnreachable | src/main.rs:98-103 | no executor tag reaches Nushell, and the catch-all is exactly the handler with no extension |
| Naming.ChainNameIsJoin | src/main.rs:90-93 | the full name of a nested command is its ancestors' names and its own joined with spaces |
| Naming.ChainNameRecoversNames | src/main.rs:90-93 | when no name contains a space, the full name gives back every name on the way down |
| Naming.UnderscoredIsReplace | src/main.rs:105 | turning each space into an underscore position by position is exactly `replace(" ", "_")` |
| Naming.FileNameShape | src/main.rs:105-106 | the file name is the full name with spaces turned into underscores, character by character, then the extension; it holds no space |
| Naming.FileNameInjective | src/main.rs:105-106 | for full names without underscores, the same handler never gives two commands the same file name |
| Naming.SpaceAndUnderscoreCollide | src/main.rs:105 | `a b` and `a_b` get the same file name |
| Naming.TopLevelFileName | src/main.rs:90-106 | a top-level command without spaces in its name gets the file `<name><ext>` |
| Naming.SubcommandFileName | src/main.rs:90-106 | a subcommand gets the file `<parent>_<child><ext>` when neither name has a space |
| Naming.JoinPathShape | src/main.rs:107 | an absolute file name is the path itself; a relative one follows the directory and at most one added `/` |
| Naming.JoinPathInjective | src/main.rs:107 | for relative names, the same directory gives the same path exactly for the same name |
| Naming.JoinRelative | src/main.rs:107 | a relative file name is put after the directory, with a `/` between them unless the directory is empty or already ends in one |
| Walker.MissingExecutableMessage | src/main.rs:114-116 | the text that the error `WalkError.MissingExecutable` stands for (the walk carries the error itself) starts with `executable for ` |
| Walker.MissingExecutableMessageIdentifiesHandler | src/main.rs:114-116 | the missing-analyser message names the handler, so two handlers never share it |
| Walker.ProcessScriptContract | src/main.rs:97-136 | a taken path is an error; otherwise the file gets the handler's content; outside dump mode a launch error becomes the walk's error (a missing binary names the handler); the script counts one exactly for a non-empty finding and is printed exactly when shown |
| WalkProperties.SequenceAppend | src/main.rs:139-144 | running the scripts of two consecutive groups is running the first group and then the second from where it left the directory |
| WalkProperties.WalkIsFold | src/main.rs:84-146 | the walk from a command equals processing its own script and then its subtree's scripts, in document order |
| WalkProperties.WalkAllIsFold | src/main.rs:139-144 | the walk over siblings equals processing all their scripts in document order |
| WalkProperties.FreshAndDistinctCons | src/main.rs:108 | the paths are all new and distinct exactly when the first is new and the rest are new in the directory that includes the first |
| WalkProperties.StepEffect | src/main.rs:105-118 | one script succeeds exactly when its path is free and, outside dump mode, its analyser launches; it then adds its file |
| WalkProperties.AllRunCons | src/main.rs:113-118 | all launches succeed exactly when the first does and the rest do |
| WalkProperties.ProcessEntriesSucceedsIff | src/main.rs:105-118 | the run succeeds exactly when every script's path is new and no two scripts share one and, outside dump mode, every analyser launches |
| WalkProperties.SequenceCons | src/main.rs:141-143 | a successful run is a successful first script followed by a successful run of the rest |
| WalkProperties.ProcessEntriesFiles | src/main.rs:105-110 | afterwards the directory holds what it held before, unchanged, plus exactly one file per script with the handler's content |
| WalkProperties.ProcessEntriesOutput | src/main.rs:112-135 | the count is the number of scripts with a non-empty finding (zero when dumping); the printed reports are the shown results in order (none when dumping) |
| WalkProperties.WalkSucceedsIff | src/main.rs:84-146 | a walk succeeds exactly when its scripts get new, distinct paths and, outside dump mode, every analyser launches |
| WalkProperties.WalkEffect | src/main.rs:84-146 | a successful walk writes one file per script, keeps the old files, counts the non-empty findings and prints the shown results in document order |
| WalkProperties.DumpIgnoresTools | src/main.rs:112 | in dump mode the result does not depend on the analysers |
| WalkProperties.DumpWalk | src/main.rs:112 | a dump walk never consults an analyser and counts nothing |
| WalkProperties.SequenceSameButPrinted | src/main.rs:141-143 | scripts whose results differ only in what is printed give runs that differ only in what is printed |
| WalkProperties.NoWarningsOnlyAffectsPrinting | src/main.rs:129-133 | suppressing warnings changes what is printed and nothing else: the success, the error, the count and the files stay the same |
| WalkProperties.ScriptFreeFlattensToNothing | src/main.rs:97 | a tree without scripts has no scripts to process |
| WalkProperties.ScriptFreeAllFlattensToNothing | src/main.rs:140-144 | siblings without scripts have no scripts to process |
| WalkProperties.ScriptFreeWalkIsIdle | src/main.rs:95-145 | a tree without scripts counts nothing, creates nothing, prints nothing and cannot fail |
| WalkProperties.WalkAllStopsAtFirstError | src/main.rs:141-143 | once a sibling fails, later siblings change nothing: the walk fails with that error |
| WalkProperties.CollidingPathsFail | src/main.rs:108 | two scripts that land on the same path make the walk fail instead of overwriting |
| WalkProperties.SecondWalkCollides | src/main.rs:108 | walking a tree again into the directory its first walk filled fails on the first script's file |
| Summary.FileNoun | src/main.rs:70 | the noun is `file` for exactly one and `files` otherwise |
| Summary.LintSummary | src/main.rs:69-73 | there is a message exactly when the total is positive, and it starts with the total's digits |
| Summary.SummaryRecoversCount | src/main.rs:69-72 | the total can be read back from the start of the message |
| Summary.SummaryInjective | src/main.rs:69-72 | different totals give different messages |
| Summary.SingleFileSummary | src/main.rs:70-71 | one finding gives exactly `1 file with lint failures.` |
| Summary.PluralSummary | src/main.rs:70-71 | more than one finding gives exactly `<n> files with lint failures.`, with `<n>` the total in decimal |
| Summary.RunOutcome | src/main.rs:64-74 | the run succeeds exactly when the walk succeeds with no findings; a walk error is passed through unchanged; findings give an error whose message yields their number |
| Summary.DumpNeverReportsFindings | src/main.rs:64-74 | a dump run either fails on a file or succeeds; it never ends in the lint-failure error |
| Scenarios.CatchallEntry | src/main.rs:187-191 | a script without an analyser yields the fixed warning: it never counts, and it is printed exactly when warnings are not suppressed |
| Scenarios.UnlintedOutput | src/main.rs:119-134 | scripts without analysers always launch, count nothing, and print one warning each unless warnings are suppressed |
| Scenarios.UnlintedRun | src/main.rs:64-74 | a maskfile whose scripts all lack an analyser passes exactly when all their files can be created |
| Scenarios.DumpScript | src/main.rs:97-112 | dumping one script whose path is free creates its file with the handler's content, counts nothing and prints nothing |
| Scenarios.DumpLeaf | src/main.rs:84-146 | dumping a command with a script and no subcommands whose path is free adds exactly its file |

## Left out

- The maskfile parser, the command line, reading the maskfile, creating the output or temporary directory, and terminal colours. The walker starts from the parsed command tree and a context.
- Launching analysers. It is a parameter: an oracle from handler and path to the captured standard output or an I/O error kind. What the analysers themselves print is not modelled.
- Printing. The model keeps the printed reports as a list. It does not model that they are already on the terminal when a later error ends the run; on error the list is not returned.
- `String::from_utf8_lossy`. The analysers' output is taken as text.
- `str::lines` dropping a `\r` before each line feed. Lines are split on line feeds only.
- Text.Lines: carriage returns stay in the lines, because `\r\n` output is not modelled.
- Summary.LintSummary: the total is an unbounded number; the source's `u32` could overflow past 4294967295 findings, which is not modelled.
- I/O errors from `File::open` other than an existing file, and from `write_all`. Creation fails only on a taken path, and writing always succeeds.
- Files left behind by a failed walk. A failure carries only the error, not the directory, while on disk every file written before the failing one stays in the output directory (`src/main.rs:108`, propagated by the `?` at line 142).
- File-system path equivalence. The output directory is a map keyed by the exact path text, so two spellings of one file (different case on a case-insensitive file system, `a/./b` and `a/b`) never collide in the model, whereas `create_new` would fail on the second.
- Handlers.Content: always succeeds. Every handler's `content` in the source returns `Ok`.
- Naming.JoinPath: models Unix `Path::join`. An absolute file name replaces the directory; otherwise a `/` is added only when the directory is non-empty and does not already end in one. Non-Unix separators are not modelled.
- The Nushell handler's invocation string. Only its output normalisation is modelled.

Notes on the code that the model follows:

- `src/handlers.rs` defines a Nushell handler (extension `.nu`, lines 140-161), but the dispatch at `src/main.rs:98-103` has no arm for it, so the tags `nu` and `nushell` fall to the catch-all (`Naming.DispatchDiffersOnlyOnNushell`, which compares `Naming.Dispatch` with `Naming.RegistryDispatch`, the same dispatch with the `nu`/`nushell` arm that handler would need).
- The full name is built from whether a parent is present, not from its text (`src/main.rs:90-93`). A subcommand of a parent whose full name is empty is therefore named with a leading space, which becomes a leading underscore in the file name (`Naming.FullName`).
