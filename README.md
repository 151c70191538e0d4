# A model of a small interactive shell

The shell (`app/main.ts`) reads one line at a time and evaluates it.

- It splits the line at the first operator token: `|`, `1>`, `>`, `2>`, `>>`, `1>>` or `2>>`. It parses the rest the same way, which gives a right-leaning tree.
- It runs each leaf in one of two ways:
  - through three built-ins: `echo`, `type` and `exit`;
  - as an external program found along `PATH`.
- An operator node becomes one of two things:
  - a two-stage pipe;
  - a redirection of stdout or stderr to a file, in write or append mode.
- A tab-completion engine offers completions when the user presses tab.
  - It offers `echo`, `exit` and the executables along `PATH`.
  - It follows a two-press protocol: the first press on an ambiguous line rings the bell, and the second lists the matches.

The model is split into one module per concern:

| module | what it holds |
|---|---|
| `JsStrings` | the JavaScript string operations the shell relies on: `indexOf`, `startsWith`/`endsWith`, `trim` with ECMAScript's whitespace set, `split` on one character, `join`, and the default `Array.prototype.sort` order (UTF-16 code units) |
| `Collections` | `[...new Set(xs)]`: the elements without repeats, in order of first occurrence |
| `Types` | the constants `BUILT_IN_COMMANDS` and `BUILT_IN_OPERATORS`, an `Op` datatype for the operator tokens, and the `ParsedCommand` and `CommandOutput` records |
| `Environment` | what the shell reads from the operating system, as values (see below) |
| `Parser` | `parseCommand` and `parseParts` |
| `PathResolver` | `findInPath`, as a method with its loop, proved against the recursive `Resolve` |
| `Builtins`, `Runner` | `echoCommand` and `typeCommand`; how a `spawnSync` result becomes a command's output |
| `Executor` | `handleCommand`, `handlePipeCommand`, `redirectOutput` and `executeParsedCommand`, together with a `Files` class whose `contents` map stands for the files redirections write |
| `Completion` | `getExecutablesStartingWith`, as a method whose loop over the PATH directories calls `ScanDirectory`, a method holding the loop over one directory's entries, and `completer`, as the `Completer` class whose two fields are the module variables `lastCompletionInput` and `lastCompletionMatches` |
| `Scenarios` | concrete lines worked through the model |

`Environment` models the operating system like this:

- The `PATH` variable is an `Option<string>`, because it may be undefined.
- `fs.statSync` is a table from path to `(isFile, mode)`.
- `fs.readdirSync` is a table from directory to its entries.
- `path.join` is an uninterpreted function.
- `spawnSync` is an oracle. It returns either a launch error, with its code and message, or the captured streams, each of which may be missing.
- A path missing from a table is a call that throws.

The imperative parts of the source are imperative here:

- `findInPath` is a method with a loop and an early return.
- `getExecutablesStartingWith` is a method with the loop over the PATH directories. Each iteration calls the method `ScanDirectory`, which holds the loop over that directory's entries and a `break` where `statSync` throws.
- `redirectOutput` is a method that updates the `Files` object.
- `executeParsedCommand` is a method that updates the `Files` object.
- `completer` is a method that updates the `Completer` object.

Each of these methods is proved equal to a pure function of its inputs and of the old state. The properties the source promises are then proved about those functions.

Two behaviours of the code are easy to misread, so the model states them outright:

- **Spacing in `parseParts`.** The code splits on a single space and rejoins with a single space. The argument text is therefore exactly the text after the first space, runs of spaces included. `Parser.ParsePartsSplitsAtFirstSpace` proves this.
- **Outer quotes.** Argument text that starts and ends with the same quote character loses that outer pair, even when quotes occur inside it. So `'a' 'b'` becomes `a' 'b`. `Scenarios.InteriorQuotesStripped` proves this.

## Model

| member | source | states |
|---|---|---|
| Types.Token | app/main.ts:15 | every operator token is non-empty |
| Types.Rank | app/main.ts:15 | the position of each operator in `BUILT_IN_OPERATORS`; that position holds the operator |
| JsStrings.IndexOf | app/main.ts:148 | `indexOf`: the result is an occurrence and no earlier position is one; `None` (JavaScript's -1) exactly when the token occurs nowhere |
| JsStrings.IndexOfIs | app/main.ts:148 | the first occurrence is fixed by being an occurrence with none before it |
| JsStrings.Trim | app/main.ts:160-161 | `trim` returns the infix that is left after removing the leading and trailing ECMAScript whitespace; what it removes is whitespace, and what it keeps neither starts nor ends with whitespace |
| JsStrings.TrimTrimmed | app/main.ts:254 | trimming text that does not start or end with whitespace leaves it unchanged (so trimming twice is trimming once) |
| JsStrings.Split | app/main.ts:56 | `split` on one character gives at least one piece, and no piece contains the separator |
| JsStrings.JoinSplit | app/main.ts:56-57 | joining the pieces of a split with the separator gives back the original text |
| JsStrings.SplitJoin | app/main.ts:56-57 | splitting a join of separator-free pieces gives back the pieces |
| JsStrings.SplitFirst | app/main.ts:56 | the first piece is the text before the first separator (the whole text if there is none), and the other pieces join to the text after it |
| JsStrings.Utf16LessEqTotal | app/main.ts:321 | the default sort order compares any two strings |
| JsStrings.Utf16LessEqAntisymmetric | app/main.ts:321 | strings ordered both ways are equal |
| JsStrings.Utf16LessEqTransitive | app/main.ts:321 | the default sort order is transitive |
| JsStrings.SortedHeadLeast | app/main.ts:321 | the first string of a sorted list is at most every string in it |
| JsStrings.SortedUnique | app/main.ts:321 | two sorted arrangements of the same strings are equal, so any correct sort, `Array.prototype.sort` included, prints the same listing as `Sort` |
| JsStrings.Sort | app/main.ts:321 | `sort()` returns the strings ordered by UTF-16 code units and is a permutation of its input |
| Collections.Dedup | app/main.ts:301 | `[...new Set(xs)]` has no repeats, has the same elements as `xs` and is no longer |
| Collections.DedupPrefix | app/main.ts:313-314 | the first occurrences of `a` stay in front, in order, when `b` is appended |
| Collections.DedupDistinct | app/main.ts:314 | a sequence without repeats comes through unchanged |
| Parser.Positions | app/main.ts:146-149 | the mapped and filtered list holds exactly the operators that occur, each with its first index, in list order |
| Parser.Earliest | app/main.ts:156-158 | the reduce picks a candidate whose index is the smallest |
| Parser.EarliestPrefersLater | app/main.ts:156-158 | on a tie the reduce keeps the candidate listed later |
| Parser.EarliestWins | app/main.ts:146-158 | the list is empty exactly when no operator occurs; otherwise the reduce picks the winning operator, the earliest one and on a tie the one listed last |
| Parser.FirstOperator | app/main.ts:146-158 | the operator the line is split at: none exactly when no operator occurs, otherwise the winner with its first index |
| Parser.WinsUnique | app/main.ts:156-158 | at most one operator wins on a line |
| Parser.ParseCommand | app/main.ts:145-169 | the model of `parseCommand`; its behaviour is stated by `ParseCommandChooses`, `ParseCommandLeaf`, `ParseCommandRoot`, `ParseCommandRight`, `ParseCommandWellShaped` and `LongestMatch` |
| Parser.ParseCommandChooses | app/main.ts:145-169 | the root operator of `parseCommand` is `op` if and only if `op` wins on the line |
| Parser.ParseCommandLeaf | app/main.ts:151-153 | a leaf comes back exactly when no operator occurs, and the leaf holds the line unchanged with `right` empty |
| Parser.ParseCommandRoot | app/main.ts:155-160 | otherwise the root is the winner and `left` is the trimmed text before its first occurrence |
| Parser.Remainder | app/main.ts:161 | the trimmed text after the winning operator is shorter than the line, so the recursion ends |
| Parser.ParseCommandRight | app/main.ts:161-165 | `right` is always a parsed command: the parse of the trimmed text after the operator |
| Parser.ParseCommandWellShaped | app/main.ts:163-168 | every parse is a chain with a parsed right side at each operator, ending in a leaf whose raw `right` is the empty string, with no more operators than characters (so line 168 is never reached) |
| Parser.LongestMatch | app/main.ts:156-158 | no operator token starting where the winner starts is longer than the winner, so `>>` is never read as `>` followed by `>` |
| Parser.TieLength | app/main.ts:15 | of two tokens with the same first character, the one listed later is not shorter |
| Parser.StripQuotes | app/main.ts:59-65 | argument text that starts and ends with the same `'` or `"` loses exactly its first and last character (a lone quote becomes empty); any other text, including text with mismatched quotes, is unchanged |
| Parser.ParseParts | app/main.ts:55-68 | the model of `parseParts`; its behaviour is stated by `ParsePartsSplitsAtFirstSpace` and `StripQuotes` |
| Parser.ParsePartsSplitsAtFirstSpace | app/main.ts:55-67 | the command is the text before the first space (the whole input if there is none, with empty arguments); before the quotes are stripped, the arguments are exactly the text after that space; the command holds no space; and command, space and arguments give back the input |
| PathResolver.SearchDirs | app/main.ts:37-38 | the search directories are the colon-free pieces of PATH and join back to it with `:`; an unset or empty PATH gives exactly one directory, the empty one |
| PathResolver.Resolve | app/main.ts:36-53 | a found path is `join(d, name)` for the first directory `d` in which it is an executable regular file; nothing is found exactly when it is one in none of them |
| PathResolver.FindInPath | app/main.ts:36-53 | the loop with its early return computes exactly `Resolve`: the first executable match along PATH, with failed stats skipped, or none |
| PathResolver.FirstExecutableUnique | app/main.ts:40-46 | the first matching directory fixes the result |
| Builtins.EchoCommand | app/main.ts:74-76 | the model of `echoCommand`; `Executor.HandleCommandDispatch` and `Scenarios.EchoWord` state that it prints its argument text and a newline, with empty stderr |
| Builtins.TypeCommand | app/main.ts:78-91 | `type` reports echo, type and exit as built-ins; for any other name it reports the path of the first executable match along PATH, or "not found" when there is none or the joined path is empty; stderr is always empty |
| Runner.RunExternalCommand | app/main.ts:97-125 | ENOENT gives empty stdout and `<cmd>: command not found` on stderr; any other launch error gives `Error: <message>`; otherwise the captured streams come back, with a missing one as "" |
| Executor.HandleCommand | app/main.ts:131-143 | the model of `handleCommand`; its dispatch is stated by `HandleCommandDispatch` |
| Executor.HandleCommandDispatch | app/main.ts:131-143 | `echo` prints its argument text and a newline; `type` reports; the outcome is `Exit` exactly for `exit`; any other name is spawned with empty input and the arguments `query.split(" ")`, which join back to the query (an empty query gives `[""]`) |
| Executor.Files.WriteFileSync | app/main.ts:258 | the named file then holds exactly the data, and no other file changes |
| Executor.Files.AppendFileSync | app/main.ts:260 | the data goes after the old contents (after "" for a new file), and no other file changes |
| Executor.PipeCommand | app/main.ts:228-238 | the model of `handlePipeCommand`; its effect is stated by `PipeEffect` and `PipeIgnoresRest` |
| Executor.Redirect | app/main.ts:245-270 | the model of `redirectOutput` on the file table; its effect is stated by `RedirectResult`, and `RedirectOutput` is proved equal to it |
| Executor.RedirectOutput | app/main.ts:245-270 | the method's outcome and new file table are those of the `Redirect` function |
| Executor.RedirectResult | app/main.ts:245-270 | for either mode and either stream, the redirection leaves the named file holding the stream (write) or its old contents followed by the stream (append), creates it if absent, leaves every other file as it was, and passes only the other stream through; `exit` writes nothing |
| Executor.RedirectEffect | app/main.ts:182-219 | a redirection changes only the file named by the trimmed right-hand text. Write leaves that file holding exactly the selected stream, and append adds the stream after the old contents. `>`, `1>`, `>>` and `1>>` select stdout; `2>` and `2>>` select stderr. The redirected stream comes back empty and the other passes through unchanged. `exit` on the left writes nothing |
| Executor.RedirectIgnoresRest | app/main.ts:254 | only the trimmed left text of the right side is used, so operators after the file name are ignored |
| Executor.PipeEffect | app/main.ts:228-238 | a pipe changes no file. Its left leaf goes through the dispatcher, so built-ins are allowed. Its right leaf always runs externally, with the one argument `[rightArgs]` and the left side's stdout as input |
| Executor.PipeIgnoresRest | app/main.ts:235-237 | only two stages exist: everything after the right side's first command is dropped |
| Executor.OnlyRedirectsWrite | app/main.ts:171-180 | the shell itself writes no file for a leaf or a pipe |
| Executor.ParsedLinesHaveParsedRight | app/main.ts:178-218 | every parse meets what `executeParsedCommand` expects: an operator node has a parsed right side, so the casts hold |
| Executor.Execute | app/main.ts:171-222 | the model of `executeParsedCommand` on the file table; its behaviour is stated by `RedirectEffect`, `RedirectIgnoresRest`, `PipeEffect`, `PipeIgnoresRest` and `OnlyRedirectsWrite`, and `ExecuteParsedCommand` is proved equal to it |
| Executor.ExecuteParsedCommand | app/main.ts:171-222 | the method's outcome and new file table are those of the `Execute` function, which sends a leaf to the dispatcher, the pipe operator to the pipe handler and each redirection to `redirectOutput` with its mode and stream |
| Completion.ListingDirs | app/main.ts:281 | an unset PATH gives no directories to list; a set PATH, even an empty one, gives the same directories as `findInPath`, joining back to PATH |
| Completion.EntryMatchesSound | app/main.ts:286-293 | every name the inner loop pushes is an entry that starts with the prefix, is an executable regular file, and is followed by a space |
| Completion.EntryMatchesComplete | app/main.ts:286-293 | in a directory whose matching entries can all be stat-ed, every matching executable regular file is pushed |
| Completion.StatFailureAbandonsDirectory | app/main.ts:284-298 | a failing stat of a matching entry ends its directory, so nothing after it is pushed, whatever follows |
| Completion.ScanDirectory | app/main.ts:285-297 | the inner loop over one directory's entries pushes exactly the matching executable regular files, each with a trailing space, up to the first entry whose stat fails |
| Completion.GetExecutablesStartingWith | app/main.ts:279-302 | the nested loops push, for each readable PATH directory in order, its matching executables until a stat fails; the result is those names without repeats |
| Completion.AllMatches | app/main.ts:304-314 | the model of the candidate list `allMatches`; it is stated by `AllMatchesShape`, `CandidateSound` and `CandidateComplete` |
| Completion.AllMatchesShape | app/main.ts:305-314 | the candidates have no repeats, start with the matching built-ins in declaration order, and otherwise come from readable PATH directories |
| Completion.CandidateSound | app/main.ts:304-314 | every candidate is a name that starts with the line, followed by a space; the name is `echo`, `exit`, or an executable regular file in a readable PATH directory |
| Completion.CandidateComplete | app/main.ts:279-314 | conversely, every executable regular file that starts with the line, in a readable PATH directory whose matching entries can all be stat-ed, is a candidate, followed by a space |
| Completion.ScanMatchesContains | app/main.ts:282-298 | what one PATH directory pushes is among the names the outer loop collects |
| Completion.BuiltinSound | app/main.ts:305-308 | each built-in match is a listed name that starts with the line, followed by a space |
| Completion.TrimAll | app/main.ts:319-320 | each stored match is trimmed, in place |
| Completion.CompletionStep | app/main.ts:316-345 | the model of one `completer` call on the two module variables; it is stated by `SecondPressLists`, `OtherPressStores`, `AtMostOneCandidate`, `TwoPressProtocol` and `EmptyLineRepeatsListing`, and `Completer.Complete` is proved equal to it |
| Completion.SecondPressLists | app/main.ts:316-326 | a second request for the same line with more than one stored match prints, without the bell, the stored matches trimmed, sorted and separated by two spaces between newlines, as a permutation; it offers no candidates, clears `lastCompletionInput` and keeps `lastCompletionMatches` |
| Completion.OtherPressStores | app/main.ts:328-345 | any other request stores the line and its matches. It rings the bell exactly when there is more than one match, or none for a non-empty line, and then offers nothing. Otherwise it offers the matches, and it never prints a listing |
| Completion.AtMostOneCandidate | app/main.ts:332-344 | at most one candidate is ever offered for insertion |
| Completion.TwoPressProtocol | app/main.ts:316-345 | on a non-empty ambiguous line, a first request (any request that is not a repeat of a stored ambiguous line) only rings the bell, the second lists the first request's matches, and a third behaves as a first request again: it offers its single match, or rings the bell when it has none or several |
| Completion.EmptyLineRepeatsListing | app/main.ts:324-325 | because a listing clears only the stored line, a later request on the empty line lists the old matches again instead of completing |
| Completion.Completer.Complete | app/main.ts:304-345 | the method's candidates, listing, bell and new state are those of `CompletionStep` applied to the old state and the matches computed for the line |
| Scenarios.AppendBeatsWrite | app/main.ts:156-158 | `cmd >> f` is split at `>>`, not at `>` |
| Scenarios.FdAppendBeatsFdWrite | app/main.ts:156-158 | `a 1>> f` is split at `1>>` |
| Scenarios.ErrAppendBeatsErrWrite | app/main.ts:156-158 | `a 2>> f` is split at `2>>` |
| Scenarios.InteriorQuotesStripped | app/main.ts:60-65 | `'a' 'b'` becomes `a' 'b`, a lone `'` becomes empty, and `'a"` is unchanged |
| Scenarios.ParseWriteLine | app/main.ts:145-169 | for any trimmed, non-empty command `left` and file name `name` without `|` or `>`, `left > name` parses as a stdout write of `left` whose target is the leaf `name` |
| Scenarios.EchoWord | app/main.ts:74-76 | `echo word` splits into `echo` and the word, and prints the word and a newline |
| Scenarios.ParseAppendLine | app/main.ts:145-169 | for any trimmed, non-empty command `left` and file name `name` without `|` or `>`, `left >> name` parses as a stdout append of `left` whose target is the leaf `name` |
| Scenarios.WriteThenAppend | app/main.ts:245-270 | on the parse trees of `echo w1 > f` and `echo w2 >> f`, the two redirects print nothing, leave `f` holding both lines, and change no other file |
| Scenarios.WriteThenAppendLines | app/main.ts:171-270 | the typed lines `echo w1 > f` and then `echo w2 >> f`, each trimmed, parsed and executed, print nothing, leave `f` holding both lines, and change no other file |

## Left out

- The read–eval–print loop is left out: `main`, readline, the prompt and the writes to the terminal (app/main.ts:351-377). These are I/O driven by callbacks. `Executor.EvalLine` only composes the trim, parse and execute that the line handler performs. The completer's printed listing and bell are returned as values.
- `spawnSync`, `fs.statSync`, `fs.readdirSync` and `path.join` are foreign calls. They are the oracle and the tables of `Environment`. `process.exit(0)` is the `Exit` outcome.
- Runner.RunExternalCommand: an exception that `spawnSync` itself throws, for example for an empty command name, is not modelled. Neither is an exit status or a signal, which the source ignores.
- Executor.Files.WriteFileSync: a write that fails, for example to a directory, throws and ends the shell. The model lets every write succeed.
- Executor.Files.AppendFileSync: the same holds for appends; the model lets every append succeed.
- The file table of `Files` is independent of the `stat` and `listing` tables of `Environment`. Writing a file does not change what `type`, the PATH search or completion see.
- Spawned programs neither see nor change the file table: the `spawnSync` oracle does not take it. A leaf such as `rm f`, or the left side of `touch g > f`, changes no file in the model, and `cat f` after `echo hi > f` does not read what was written. The "no other file changes" statements of `Executor.RedirectResult`, `Executor.RedirectEffect` and `Executor.OnlyRedirectsWrite` are about the shell's own writes only.
- The file table is keyed by the literal trimmed file name, with no path normalisation: `f` and `./f` are different keys.
- The test at line 163 of app/main.ts always holds, because the operator is never null there, so line 168 is unreachable. `Parser.ParseCommandWellShaped` states the effect: every operator node has a parsed right side.
- Line 221 of app/main.ts is also unreachable, because every operator the parser can return is handled above it. The `Op` datatype has no other case.
- Strings are sequences of Unicode scalar values, not of UTF-16 code units. Every token and separator the shell looks for is ASCII. Positions and slices therefore agree with JavaScript's wherever the shell cuts a string, except that a character outside the Basic Multilingual Plane counts as one position, not two. The sort order is still modelled as UTF-16 code-unit order.
- Completion.Completer.Complete: the second component of the source's return value is always the line itself, so it is not returned. What readline then does with a single candidate is outside the model.
- app/main.js is not part of this model. It is compiled output of an earlier version of main.ts.
