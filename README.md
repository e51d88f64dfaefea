# Task Tracker CLI — a Dafny model

TaskTrackerCLI is a small C# command-line to-do list. It has three parts:

- A `CommandHandler` reads the first argument as a command name. The name is compared ignoring case, and its hyphens are removed first, so `mark-in-progress` and `MarkInProgress` both select the same command. The handler then checks how many parameters follow.
- Five command classes (`AddCommand`, `UpdateCommand`, `StatusCommand`, `DeleteCommand` and `ListCommand`) load the list of tasks through a `FileHandler`. Add, update, mark and delete validate their arguments, change the list and write it back, printing one line of result; delete goes on after reporting an unparsable index, so it can print two. List only loads, and prints one line per task shown or a single "No tasks found" line.
- A `Todo` record holds a task's fields `Id`, `Description`, `Status`, `CreatedAt` and `UpdatedAt`.

This project models those parts:

- `wrappers.dfy`: `Option`.
- `dotnet.dfy`: the parts of .NET the code relies on, written out explicitly:
  - unchecked 32-bit `+ 1`;
  - `char.IsWhiteSpace` and `string.IsNullOrWhiteSpace`;
  - `int.TryParse` in its default number style;
  - integer formatting;
  - ordinal case-insensitive comparison.
- `models.dfy`: the `Todo` record and a clock standing for `DateTime.Now`, assumed never to step back.
- `file_handler.dfy`: the `FileHandler`, as a class over an abstract file. The file is missing, blank, or holds a list.
- `todo_lists.dfy`: the list operations the commands use, and the facts about ids:
  - `FirstOrDefault` by id, `Max`, `List.Remove` and `Where`;
  - the facts: ids stay unique, ids can be reused, and the wrap-around at the top of the Int32 range.
- `commands.dfy`:
  - module `Commands`: the five command classes as imperative methods over the file handler and the clock, with their messages;
  - module `Scenarios`: a lifecycle driven only through those methods' contracts.
- `command_handler.dfy`: `CommandHandler.Execute` and the `Handle*` arity checks, as pure functions over the argument list, plus the text they print.

How the code behaves, which the model follows:

- `list` needs exactly one parameter. `CommandHandler.HandleList` refuses zero, so `list` on its own is refused at dispatch, although `ListTodosAsync` would show every task for a null filter.
- The `Handle*` methods only print the parameters they received. The command classes are separate entry points, and `Program.cs` never calls them. The model keeps the two apart in the same way.
- Ids are `Max + 1`, so deleting the todo with the largest id, while the id one below it is still taken, makes the next added task reuse it (`TodoLists.DeleteMaxThenAddReusesId`). With ids 1 and 5, deleting 5 makes the next id 2 instead.
- `Max + 1` is unchecked Int32 arithmetic. At `int.MaxValue` the next id wraps to `int.MinValue`, which may already be taken (`TodoLists.NextIdCanCollide`).
- Statuses are free text. `mark-in-progress` and `mark-done` are only command names; `UpdateStatusAsync` stores whatever string it is given.

## Model

| member | source | states |
|---|---|---|
| DotNet.Increment | TaskTrackerCLI/Commands/AddCommand.cs:43 | `Max + 1` in unchecked Int32 arithmetic: the result is x + 1 reduced modulo 2^32 into the Int32 range |
| DotNet.ParseFormatRoundTrip | TaskTrackerCLI/Commands/DeleteCommand.cs:19 | `int.TryParse` reads back every Int32 that integer formatting writes, so an id printed in a message parses to the same id |
| DotNet.ParseIgnoresPadding | TaskTrackerCLI/Commands/StatusCommand.cs:35 | `int.TryParse` gives the same result when the text is surrounded by number white space (tab, line feed, vertical tab, form feed, carriage return, space) |
| DotNet.NatToStringValue | TaskTrackerCLI/Commands/AddCommand.cs:53 | the decimal digits written for a natural number read back as that number |
| DotNet.TrimStart | TaskTrackerCLI/Commands/UpdateCommand.cs:34 | the leading-white-space trim done by `int.TryParse` returns a suffix of the text; everything it drops is white space, and what it keeps does not start with white space |
| DotNet.TrimEnd | TaskTrackerCLI/Commands/UpdateCommand.cs:34 | the trailing trim returns a prefix of the text; everything it drops is white space, and what it keeps does not end with white space |
| DotNet.TrimPadding | TaskTrackerCLI/Commands/UpdateCommand.cs:34 | trimming a text with white space added on both sides gives the same result as trimming the text alone |
| DotNet.TrimStartSkips | TaskTrackerCLI/Commands/UpdateCommand.cs:34 | leading white space added in front does not change the trimmed start |
| DotNet.TrimEndSkips | TaskTrackerCLI/Commands/UpdateCommand.cs:34 | trailing white space added at the end does not change the trimmed end |
| DotNet.TrimStartAppend | TaskTrackerCLI/Commands/UpdateCommand.cs:34 | once a text has a non-white character, text appended after it survives the leading trim unchanged |
| DotNet.TrimStartOfBlank | TaskTrackerCLI/Commands/UpdateCommand.cs:34 | a text that is only white space disappears from the front of any longer text |
| DotNet.IsWhiteSpace | TaskTrackerCLI/Commands/AddCommand.cs:33 | `char.IsWhiteSpace` covers the six characters `int.TryParse` skips; a white-space character is neither a digit nor a sign, and case folding leaves it alone |
| DotNet.IsNullOrWhiteSpace | TaskTrackerCLI/Commands/UpdateCommand.cs:39 | null and empty text are blank, and blank text never parses as an integer |
| DotNet.BlankIsNotANumber | TaskTrackerCLI/Commands/UpdateCommand.cs:34-39 | text made only of white space fails `int.TryParse` |
| DotNet.TryParseInt32 | TaskTrackerCLI/Commands/UpdateCommand.cs:34 | `int.TryParse` succeeds only on text that, once trimmed, is an optional sign followed by one or more digits |
| DotNet.PlainDigitsParse | TaskTrackerCLI/Commands/StatusCommand.cs:35 | a string of digits whose value fits in Int32 parses to that value |
| DotNet.OverflowFails | TaskTrackerCLI/Commands/DeleteCommand.cs:19 | digits whose value exceeds `int.MaxValue` fail to parse |
| DotNet.ParsedOrZero | TaskTrackerCLI/Commands/DeleteCommand.cs:19-26 | the `out int id` left by `int.TryParse`: 0 when the parse fails, so a non-zero id always comes from a successful parse |
| DotNet.IntToString | TaskTrackerCLI/Commands/AddCommand.cs:53 | integer formatting writes a non-empty text that starts with `-` exactly for a negative number and is otherwise all digits |
| DotNet.EqualsIgnoreCaseFolded | TaskTrackerCLI/Services/CommandHandler.cs:38 | ordinal case-insensitive equality holds exactly when the two upper-case foldings are equal, in both directions |
| TodoLists.FirstIndex | TaskTrackerCLI/Commands/UpdateCommand.cs:47 | `FirstOrDefault(t => t.Id == id)`: the position found holds the id and no earlier task has it; when no task is found, no task has the id |
| TodoLists.MaxId | TaskTrackerCLI/Commands/AddCommand.cs:43 | `Max(t => t.Id)` is the id of some task and at least every task's id |
| TodoLists.NextId | TaskTrackerCLI/Commands/AddCommand.cs:43 | the new id is 1 for an empty list and exceeds every id while the maximum is below `int.MaxValue`; when a task has `int.MaxValue` it wraps to `int.MinValue` |
| TodoLists.AppendNextKeepsUnique | TaskTrackerCLI/Commands/AddCommand.cs:41-50 | below the top of the range, appending a task with the next id keeps ids unique, and looking up that id finds the new task |
| TodoLists.NextIdCanCollide | TaskTrackerCLI/Commands/AddCommand.cs:43 | any list that holds both `int.MinValue` and `int.MaxValue` gets a duplicate id from the next add |
| TodoLists.RemoveAt | TaskTrackerCLI/Commands/DeleteCommand.cs:33 | removing position i shifts every later task down by one and keeps the earlier ones in place |
| TodoLists.RemoveFirst | TaskTrackerCLI/Commands/DeleteCommand.cs:33-37 | `List.Remove` fails exactly when the todo is not in the list; otherwise it removes the first position holding the todo, and every other task keeps its order |
| TodoLists.RemoveFoundTask | TaskTrackerCLI/Commands/DeleteCommand.cs:26-37 | removing the todo that the id lookup found removes exactly that position, so the "Could not remove" branch cannot be reached |
| TodoLists.RemoveAtKeepsUnique | TaskTrackerCLI/Commands/DeleteCommand.cs:33-39 | deleting keeps ids unique, and a later lookup of the deleted id finds nothing |
| TodoLists.DeleteMaxThenAddReusesId | TaskTrackerCLI/Commands/AddCommand.cs:43 | after the todo with the largest id is deleted while the id one below it is taken, the next add hands out the deleted id again |
| TodoLists.FirstIndexFollowsIds | TaskTrackerCLI/Commands/StatusCommand.cs:43-53 | changing any field except the id leaves every id lookup finding the same position |
| TodoLists.SameIdsKeepUnique | TaskTrackerCLI/Commands/UpdateCommand.cs:54-57 | updates that keep each task's id keep ids unique |
| TodoLists.MarkTwice | TaskTrackerCLI/Commands/StatusCommand.cs:43-53 | marking a task with the same status twice finds the same task the second time; the result equals marking once at the later time, and only `UpdatedAt` differs from the first result |
| TodoLists.DescribedAt | TaskTrackerCLI/Commands/UpdateCommand.cs:54-55 | only the todo at the position changes, getting the new description and `UpdatedAt`; its id, status and `CreatedAt` stay, as do all other tasks |
| TodoLists.MarkedAt | TaskTrackerCLI/Commands/StatusCommand.cs:50-51 | only the todo at the position changes, getting the new status and `UpdatedAt`; its id, description and `CreatedAt` stay, as do all other tasks |
| TodoLists.WithStatus | TaskTrackerCLI/Commands/ListCommand.cs:38 | `Where(t => t.Status == filter)` keeps only stored tasks whose status equals the filter, and is no longer than the list |
| TodoLists.WithStatusMembers | TaskTrackerCLI/Commands/ListCommand.cs:38 | a task is in the `Where` result exactly when it is in the list and its status equals the filter |
| TodoLists.WithStatusIsSubsequence | TaskTrackerCLI/Commands/ListCommand.cs:38 | `Where` keeps the matching tasks in their store order |
| TodoLists.WithStatusConcat | TaskTrackerCLI/Commands/ListCommand.cs:38 | `Where` on two lists joined is the join of `Where` on each |
| FileHandling.FileHandler.SaveTasks | TaskTrackerCLI/Services/FileHandler.cs:22-27 | the file then holds exactly the list saved |
| FileHandling.FileHandler.LoadTasks | TaskTrackerCLI/Services/FileHandler.cs:36-47 | a missing or blank file loads as the empty list; otherwise the stored list is loaded |
| FileHandling.FileHandler.TodoFileExists | TaskTrackerCLI/Services/FileHandler.cs:53 | a file holding a list exists, and a file that does not exist loads as the empty list |
| FileHandling.FileHandler.InitializeFile | TaskTrackerCLI/Services/FileHandler.cs:62-66 | only a missing file is written, with an empty list; the loaded list is the same before and after |
| Models.Clock.Now | TaskTrackerCLI/Commands/AddCommand.cs:46-47 | a clock reading is no earlier than the previous one; this is an assumption the model makes about `DateTime.Now`, which is local wall-clock time and can step back |
| Commands.Message | TaskTrackerCLI/Commands/DeleteCommand.cs:19-41 | the line printed for an outcome starts with "Error: " exactly when the outcome is an error |
| Commands.AddCommand.AddTodo | TaskTrackerCLI/Commands/AddCommand.cs:31-54 | a blank description changes nothing. Otherwise one task is appended: its id is `NextId`, its status is "todo", and its two timestamps are successive clock readings. The list is saved once and the new id is reported |
| Commands.UpdateCommand.UpdateTodo | TaskTrackerCLI/Commands/UpdateCommand.cs:32-60 | checks in the source's order: an unparsable id, then a blank description, then an unknown id, each changing nothing. Otherwise the first task with the id gets the new description and `UpdatedAt`, and everything else stays |
| Commands.StatusCommand.UpdateStatus | TaskTrackerCLI/Commands/StatusCommand.cs:33-56 | an unparsable id or an unknown id changes nothing. Otherwise the first task with the id gets the given status verbatim and `UpdatedAt`, and everything else stays |
| Commands.DeleteCommand.DeleteTodo | TaskTrackerCLI/Commands/DeleteCommand.cs:17-42 | as written: an unparsable index is reported, and the method then goes on with id 0. The first task with the id is removed and the list saved; otherwise "not found" is reported |
| Commands.DeleteCommand.DeleteTodoChecked | TaskTrackerCLI/Commands/DeleteCommand.cs:17-42 | as intended: an unparsable index changes nothing. Otherwise the same removal as above |
| Commands.DeleteCommand.DeleteById | TaskTrackerCLI/Commands/DeleteCommand.cs:24-41 | an unknown id changes nothing; otherwise exactly the first task with the id is removed and the list saved |
| Commands.UnparsableIndexDeletesTaskZero | TaskTrackerCLI/Commands/DeleteCommand.cs:19-22 | deleting with a non-numeric index from a store whose first task has id 0 reports the error and then deletes that task |
| Commands.WordIsNotAnIndex | TaskTrackerCLI/Commands/DeleteCommand.cs:19 | the text "first" fails `int.TryParse` |
| Commands.Filtered | TaskTrackerCLI/Commands/ListCommand.cs:36-38 | a null or blank filter keeps the whole list; otherwise every task kept is a stored task whose status equals the filter |
| Commands.LineShowsId | TaskTrackerCLI/Commands/ListCommand.cs:48 | each listed line opens with the todo's id, as written by integer formatting, between brackets |
| Commands.Lines | TaskTrackerCLI/Commands/ListCommand.cs:46-49 | one `[id] description - status` line per task, in order |
| Commands.ListLines | TaskTrackerCLI/Commands/ListCommand.cs:36-49 | one line per task shown, or the single "No tasks found" line when no task is shown |
| Commands.ListCommand.PrintLines | TaskTrackerCLI/Commands/ListCommand.cs:46-49 | the `foreach` prints exactly the lines of the tasks it is given, in order |
| Commands.ListShows | TaskTrackerCLI/Commands/ListCommand.cs:32-50 | a null or blank filter lists every task in store order. With a filter, the "No tasks found" message appears exactly when no task has that status, and otherwise every line shows a stored task with that status |
| Commands.ListCommand.ListTodos | TaskTrackerCLI/Commands/ListCommand.cs:32-50 | the printed lines are the listing of the loaded tasks for the filter, and the file is not written |
| Scenarios.Lifecycle | TaskTrackerCLI/Program.cs:11-12 | from a missing file, add, mark in progress, update and delete of one task give id 1, four success outcomes and an empty store; only its first step, `InitializeFile`, is what the cited lines do, and the four commands are then called directly |
| Scenarios.ParsesOne | TaskTrackerCLI/Commands/StatusCommand.cs:35 | "1" parses to 1 |
| CommandHandling.RemoveHyphens | TaskTrackerCLI/Services/CommandHandler.cs:33-36 | the token after `Replace("-", "")` has no hyphen and is no longer than before |
| CommandHandling.RemoveHyphensConcat | TaskTrackerCLI/Services/CommandHandler.cs:35 | removing hyphens from two joined texts is the join of the two results |
| CommandHandling.RemoveHyphensKeepsOthers | TaskTrackerCLI/Services/CommandHandler.cs:33 | a token without hyphens is left unchanged |
| CommandHandling.CanonicalToken | TaskTrackerCLI/Services/CommandHandler.cs:33-36 | the token matched has no hyphen left, is never longer than the argument, and is the argument itself when that has no hyphen |
| CommandHandling.CanonicalTokenRemovesHyphens | TaskTrackerCLI/Services/CommandHandler.cs:33-36 | replacing only when the token contains a hyphen gives the same result as always replacing |
| CommandHandling.FoldedName | TaskTrackerCLI/Services/CommandHandler.cs:3-11 | the upper-case folding of each enum member's name |
| CommandHandling.ParseCommand | TaskTrackerCLI/Services/CommandHandler.cs:38 | a token that selects a command is exactly as long as the member's name and made only of letters |
| CommandHandling.ParseCommandMatchesName | TaskTrackerCLI/Services/CommandHandler.cs:38 | a token selects a command exactly when it equals that member's name ignoring case |
| CommandHandling.Execute | TaskTrackerCLI/Services/CommandHandler.cs:22-69 | No arguments gives "No command provided". The token is unknown exactly when, with its hyphens removed, it names no command; the message then echoes the original token. Otherwise the parameters are the remaining arguments, and the command is handled exactly when their number is its arity |
| CommandHandling.Arity | TaskTrackerCLI/Services/CommandHandler.cs:71-159 | `update` takes exactly two parameters and every other command exactly one |
| CommandHandling.Handle | TaskTrackerCLI/Services/CommandHandler.cs:71-159 | a handler refuses exactly when the number of parameters differs from the command's arity, and keeps the command and its parameters either way |
| CommandHandling.SameCommandWhenEqualIgnoringHyphensAndCase | TaskTrackerCLI/Services/CommandHandler.cs:30-38 | two tokens that agree after removing hyphens and ignoring case dispatch the same way |
| CommandHandling.HyphenIgnored | TaskTrackerCLI/Services/CommandHandler.cs:32-36 | a hyphen anywhere in the token does not change which command is selected |
| CommandHandling.RemoveInnerHyphen | TaskTrackerCLI/Services/CommandHandler.cs:35 | removing hyphens across an inner hyphen joins the two sides with their own hyphens removed |
| CommandHandling.RemoveHyphenBetween | TaskTrackerCLI/Services/CommandHandler.cs:35 | two hyphen-free words joined by a hyphen become the two words joined |
| CommandHandling.RemoveInnerHyphens | TaskTrackerCLI/Services/CommandHandler.cs:35 | three hyphen-free words joined by hyphens become the three words joined |
| CommandHandling.StripMarkInProgress | TaskTrackerCLI/Services/CommandHandler.cs:35 | `mark-in-progress` becomes `markinprogress` |
| CommandHandling.StripUpperMarkInProgress | TaskTrackerCLI/Services/CommandHandler.cs:35 | `MARK-IN-PROGRESS` becomes `MARKINPROGRESS` |
| CommandHandling.StripMarkDone | TaskTrackerCLI/Services/CommandHandler.cs:35 | `mark-done` becomes `markdone` |
| CommandHandling.StrippedCliName | TaskTrackerCLI/Services/CommandHandler.cs:33-36 | each command's hyphenated command-line name, with hyphens removed, is its compact lower-case name |
| CommandHandling.CompactNameSelects | TaskTrackerCLI/Services/CommandHandler.cs:38-63 | each compact lower-case name selects its command |
| CommandHandling.CliNamesSelect | TaskTrackerCLI/Services/CommandHandler.cs:30-63 | every documented command-line name (`add`, `update`, `delete`, `list`, `mark-in-progress`, `mark-done`) selects its command |
| CommandHandling.MarkInProgressSpellings | TaskTrackerCLI/Services/CommandHandler.cs:30-38 | `mark-in-progress`, `markinprogress` and `MARK-IN-PROGRESS` all select MarkInProgress |
| CommandHandling.UpperCaseSelects | TaskTrackerCLI/Services/CommandHandler.cs:38 | for every command, its name folded to capitals selects that command |
| CommandHandling.Echo | TaskTrackerCLI/Services/CommandHandler.cs:80-83 | one tab-indented line per parameter, in order |
| CommandHandling.Output | TaskTrackerCLI/Services/CommandHandler.cs:22-165 | every refusal prints one line; a handled command prints its heading and then each parameter on its own tab-indented line |

## Left out

- The JSON file format, `System.Text.Json` and the file system are left out. The file is an abstract value: missing, blank, or holding a list. Malformed JSON, which makes `LoadTasksAsync` throw, is not modelled.
- `async`/`await` and any concurrent access to the file are not modelled. Each command runs to completion on its own.
- Console output is returned as values: an `Outcome` for each command, plus its exact message text.
- `DateTime.Now` is a clock parameter. The model assumes each reading is no earlier than the previous one; local wall-clock time can in fact step back (at the end of daylight saving time, or after a clock correction), which is not modelled, and neither are time zones or the `DateTime` range.
- `Program.cs` is modelled only through `Scenarios.Lifecycle`'s starting state: the file is initialised, then commands run.
- `CommandHandler.PrintArgs` is left out: it is debug output that nothing calls.
- CommandHandling.ParseCommand: `Enum.TryParse` also accepts numeric text, comma-separated lists of names, and white space around names; the model accepts only a name. Numeric text selects the member with that value (`"0"` Add, `"1"` Update, up to `"5"` MarkDone). Any other Int32 value, such as `"7"`, is accepted but reaches the `default` branch (TaskTrackerCLI/Services/CommandHandler.cs:60-62), which prints the unknown-command message. The model reports such a token as unknown directly, so the message is the same; a numeric token that names a member is not modelled.
- CommandHandling.ParseCommandMatchesName: holds for the name-only parse above, not for the numeric and comma-separated forms.
- Commands.UpdateCommand.UpdateTodo: requires a first parameter, and a second whenever the first parses. With fewer, `UpdateTodoAsync` throws `IndexOutOfRangeException` (TaskTrackerCLI/Commands/UpdateCommand.cs:34, 39); the exception is not modelled. A single unparsable id is covered: it is reported before `parameters[1]` is read.
- DotNet.EqualsIgnoreCaseFolded: case is folded for ASCII letters only. Ordinal ignore-case comparison of non-ASCII letters is not modelled; no command name contains any.
- DotNet.TrimStart: `int.TryParse` also accepts trailing `'\0'` characters, and takes its signs from the current culture. The model trims only the six ASCII white-space characters and uses the ASCII `+` and `-`.
- A `Todo` is a value in the model, while the source's `todo.Description = ...` mutates an object inside the loaded list. The list is loaded fresh on every call, so no other reference sees that change; the model replaces the element in the list instead.

## Findings

| source | as written | input that shows it | evidently intended | confidence | as-written member | corrected member |
|---|---|---|---|---|---|---|
| TaskTrackerCLI/Commands/DeleteCommand.cs:19-22 | when `int.TryParse` fails, the error is printed but there is no `return`, so the method goes on with `id` = 0 | `delete first` with a stored task whose id is 0: the error is printed and that task is then deleted | return after the error, as `UpdateCommand` and `StatusCommand` do, so the store is unchanged | not executed | Commands.DeleteCommand.DeleteTodo, Commands.UnparsableIndexDeletesTaskZero | Commands.DeleteCommand.DeleteTodoChecked |
