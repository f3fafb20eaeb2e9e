# Todo list: a Dafny model

This project models `todo_list`, an interactive command-line task list written in Rust.
The user types one command per line: `add`, `list`, `done`, `rm`, `reset`, `sort`,
`exit`/`quit` or `help`. The program keeps an in-memory sequence of tasks. Each task
is a description and a completion flag, and it is identified only by its position.

The model is functional:

- `wrappers.dfy`: `Option`, used for the source's parse results. The error value is dropped: the parse error kind only selects the message text, which the model leaves out.
- `text.dfy`: `split_whitespace` (Unicode White_Space, as `char::is_whitespace`) and `join(" ")`,
  with the round trip between them.
- `index.dfy`: `usize::from_str` as `ParseIndex`, with an optional leading `+`, ASCII digits only,
  and overflow above `usize::MAX` on a 64-bit target rejected.
- `operations.dfy`: the `Operation` enum and its parser, `Todo`, and one function per arm of
  `process_operation`. Done and Remove are left folds over the argument tokens. Sort is
  specified by its result, a stable partition. The file also holds `populate_todo`.
- `repl.dfy`: one turn of the loop in `main` as a pure `Step(list, line)`, and the loop
  itself as `Run` over the sequence of lines read.

Output is modelled as a sequence of `Message` values, not as text:

- a listed task with its strike-through flag;
- the usage text;
- an index token that failed to parse;
- an unrecognised command token.

Two details the model takes from the code:

- The dispatcher receives the whole token sequence, command token included, and reads the
  arguments as `args[1..]`. That is why `Apply` requires `|args| >= 1`, and `Step` always meets it.
- `help`, `--help` and `-h` are always recognised.

## Model

| member | source | states |
|---|---|---|
| Text.SplitWhitespace | src/main.rs:33 | every token is non-empty and has no whitespace; a line has no tokens exactly when every character is whitespace |
| Text.Join | src/operations.rs:43 | the joined line starts with the first token; `SplitJoin` shows that splitting it gives back exactly the tokens |
| Text.SplitJoin | src/operations.rs:43 | splitting tokens joined with single spaces gives back exactly those tokens |
| Index.ParseIndex | src/operations.rs:60 | an accepted token is an optional '+' followed only by digits (at least one), and its value fits in a usize |
| Index.ParseShowIndex | src/operations.rs:60 | the decimal spelling of n, with or without a leading '+', parses to n when n <= usize::MAX and is rejected as an overflow otherwise |
| Index.LeadingZeroIndex | src/operations.rs:60 | a leading zero after the optional '+' does not change the index a digit token parses to |
| Index.SignedPaddedIndex | src/operations.rs:60 | the token "+05" parses to the index 5 |
| Index.RejectedTokens | src/operations.rs:60 | the empty token, a lone '+', any token starting with '-' and any token starting with "++" are parse errors |
| Operations.ParseOp | src/operations.rs:19-31 | an accepted token is a spelling of the operation returned; a refused token spells no operation |
| Operations.ParseOpExact | src/operations.rs:19-31 | a token parses to op if and only if it is one of op's spellings; "", "Add" and "EXIT" are refused |
| Operations.AddTask | src/operations.rs:41-46 | with argument tokens, exactly one pending task is appended and it carries the arguments joined by spaces, with all earlier tasks kept; with none, the list is unchanged |
| Operations.AddedTaskSplits | src/operations.rs:41-46 | the appended description is non-empty and splits back into the argument tokens |
| Operations.MarkOne | src/operations.rs:60-70 | one token marks done only the task at the index it parses to, if that index is in range; descriptions and length are kept |
| Operations.DoneAll | src/operations.rs:58-72 | length and descriptions are kept, and a task ends up done exactly when it was done before or some token names its index |
| Operations.DoneOrderIrrelevant | src/operations.rs:58-72 | any permutation of the index tokens gives the same list |
| Operations.DoneIdempotent | src/operations.rs:58-72 | marking the same tokens twice equals marking them once |
| Operations.DoneBadTokens | src/operations.rs:58-72 | `done x` reports the token and marks nothing; `done 99` on a list of at most 99 tasks is silent and marks nothing |
| Operations.RemoveAll | src/operations.rs:73-86 | the result is never longer than the list and holds no task the list did not; `RemoveAllShrinks`, `RemoveOutOfRange`, `RemoveAllConcat` and `RemoveShiftExample` characterise it further |
| Operations.RemoveOne | src/operations.rs:75-84 | an in-range index n removes position n, and later tasks shift down by one; otherwise the list is unchanged |
| Operations.RemoveAllShrinks | src/operations.rs:73-86 | the length falls by the number of tokens in range when applied, and the result is a subsequence and sub-multiset of the list |
| Operations.RemoveOutOfRange | src/operations.rs:73-86 | tokens that are unparseable or out of range for the original list remove nothing |
| Operations.RemoveAllConcat | src/operations.rs:73-86 | the tokens are applied left to right, each against the list the earlier ones left |
| Operations.RemoveShiftExample | src/operations.rs:73-86 | `rm 0` on [A,B,C] gives [B,C], and `rm 0 0` gives [C] |
| Operations.SortByDone | src/operations.rs:88 | the result is a permutation with no done task before a pending one, and the order within each group is kept |
| Operations.SortUnique | src/operations.rs:88 | a list equals the sort result if and only if it is partitioned and keeps the order within both groups |
| Operations.SortIdempotent | src/operations.rs:88 | sorting twice equals sorting once |
| Operations.Listing | src/operations.rs:47-57 | one line per task in order, struck through exactly when the task is done |
| Operations.BadIndices | src/operations.rs:62-70 | every unparseable index token is reported, and only those |
| Operations.BadIndicesPerToken | src/operations.rs:59-70 | a token yields one report exactly when it does not parse, and the reports of a token sequence are its tokens' reports in token order |
| Operations.BadIndicesRepeats | src/operations.rs:59-70 | `done x x` reports the bad token twice |
| Operations.Apply | src/operations.rs:39-92 | only Add, Done, Remove, Reset and Sort change the list; Reset always empties it; List, Help and Exit leave it unchanged; each command writes what its arm prints |
| Operations.Populate | src/operations.rs:94-112 | four sample tasks with done flags false, true, false, true |
| Operations.SortPopulated | src/operations.rs:94-112 | sorting the sample tasks gives first, third, second, fourth |
| Repl.LineOf | src/main.rs:28-31 | a failed read yields the empty line, and a successful read yields the line read |
| Repl.Dispatch | src/main.rs:37-49 | the loop stops exactly on a token spelling exit, leaving the list unchanged with nothing written; a token that spells no command is reported and changes nothing |
| Repl.Step | src/main.rs:28-50 | a failed read changes nothing and the loop goes on; a stopping step leaves the list unchanged and writes nothing |
| Repl.StepIgnoresBlank | src/main.rs:33-36 | an empty or whitespace-only line changes nothing and the loop goes on |
| Repl.StepStopsOnExit | src/main.rs:40-41 | the loop stops if and only if the line's first token is `exit` or `quit` |
| Repl.StepRejectsUnknown | src/main.rs:44-48 | a first token that spells no command is reported, the list is unchanged and the loop goes on |
| Repl.StepDispatches | src/main.rs:36-43 | a recognised command other than exit is applied to the full token sequence |
| Repl.StepAdd | src/main.rs:33-42 | an `add` line with arguments appends their space-joined description, which splits back into the arguments |
| Repl.StepAddExample | src/main.rs:33-42 | the line "add buy carrots" appends the pending task "buy carrots" |
| Repl.Loop | src/main.rs:27-51 | with no input the loop ends without exiting and leaves the list alone, and it exits only after reading a line; `RunStopsAtExit` and `RunSkipsBlank` characterise it further |
| Repl.Run | src/main.rs:27-51 | the loop of `main` with `Step` as its step: with no input the list is unchanged and the loop has not exited |
| Repl.Program | src/main.rs:14 | the program starts from the sample tasks; `ExitImmediately` shows an immediate exit keeps them |
| Repl.RunStopsAtExit | src/main.rs:27-52 | lines after an exit command have no effect |
| Repl.RunExitLine | src/main.rs:40-41 | a first line of just `exit` or `quit` ends the loop with the list unchanged and nothing written |
| Repl.RunSkipsBlank | src/main.rs:27-36 | inserting a failed read anywhere in the input changes nothing |
| Repl.ExitImmediately | src/main.rs:14-41 | the program starts from the sample tasks, and `exit` or `quit` as the first line ends it with those tasks intact, whatever follows |

## Left out

- Terminal I/O is not modelled: the prompt library, the window title and the welcome line. The lines read become the input sequence of `Run`.
- Styling is not modelled: colour, underline, bold and strike-through rendering. A listed task carries only a `struck` flag.
- Message texts are not modelled: the text of `HELP_MESSAGE`, the `ParseIntError` text and the "command is not valid" line. They are the `Usage`, `InvalidIndex` and `InvalidCommand` messages.
- The order in which Done and Remove interleave their error reports with their changes is not modelled. The errors are reported per token, in token order, as `BadIndices`; `BadIndicesPerToken` proves that order.
- Rust's sort algorithm is not modelled. Sort is specified by its result, which a stable sort on the flag must produce, and `SortUnique` shows that this result is unique.
- Text.Join: its contract states only that the line starts with the first token; the rest of its meaning is given by the `SplitJoin` round trip.
- Repl.Loop: its contract states only the empty-input and exit cases; its behaviour over a run of lines is given by `RunStopsAtExit`, `RunSkipsBlank` and `RunExitLine`.
- Index.ParseIndex: assumes a 64-bit target, so `usize::MAX` is 2^64 - 1.
- Text.SplitWhitespace: uses the Unicode White_Space set as Rust's `char::is_whitespace` defines it; the contract does not state that concatenating the tokens gives the line's non-whitespace characters.
