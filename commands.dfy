/**
 * The five task operations of TaskTrackerCLI/Commands/: each loads the whole
 * list from the file handler, validates its arguments, changes the list and
 * saves the whole list back; listing only loads. Console output is returned
 * as `Outcome` values (one per printed line) and rendered by `Message`.
 */
module Commands {
  import opened Wrappers
  import opened DotNet
  import opened Models
  import opened FileHandling
  import opened TodoLists

  /** What an operation reports, one value per printed line. */
  datatype Outcome =
    | EmptyDescription
    | NotAnIndex(text: string)
    | NotAnId(text: string)
    | NotFound(id: Int32)
    | Added(id: Int32)
    | Updated(id: Int32)
    | Marked(id: Int32, status: string)
    | Deleted(id: Int32)
  {
    predicate IsError() {
      EmptyDescription? || NotAnIndex? || NotAnId? || NotFound?
    }
  }

  /** The line the source prints for each outcome: exactly the errors begin with "Error: ". */
  function Message(o: Outcome): (r: string)
    ensures o.IsError() <==> "Error: " <= r
  {
    assert "Error: "[0] == 'E';
    match o
    case EmptyDescription => "Error: Task description cannot be empty."
    case NotAnIndex(text) =>
      ErrorPrefix("Error: Expected an integer index, got ", text + ".");
      "Error: Expected an integer index, got " + (text + ".")
    case NotAnId(text) =>
      ErrorPrefix("Error: Expected an integer ID, got ", text + ".");
      "Error: Expected an integer ID, got " + (text + ".")
    case NotFound(id) =>
      ErrorPrefix("Error: No task found with ID ", IntToString(id) + ".");
      "Error: No task found with ID " + (IntToString(id) + ".")
    case Added(id) => "Task added successfully (ID: " + IntToString(id) + ")"
    case Updated(id) => "Task updated successfully (ID: " + IntToString(id) + ")"
    case Marked(id, status) => "Task " + IntToString(id) + " marked as " + status
    case Deleted(id) => "Task deleted successfully (ID: " + IntToString(id) + ")"
  }

  lemma ErrorPrefix(head: string, tail: string)
    requires "Error: " <= head
    ensures "Error: " <= head + tail
  {
    assert (head + tail)[..|head|] == head;
  }

  // ---------------------------------------------------------------------------
  // AddCommand.cs

  class AddCommand {
    const fileHandler: FileHandler

    constructor(fileHandler: FileHandler)
      ensures this.fileHandler == fileHandler
    {
      this.fileHandler := fileHandler;
    }

    /**
     * `AddTodoAsync`: a blank description is refused before the file is
     * touched; otherwise one task is appended with the next id, status
     * "todo" and two successive clock readings, and the list is saved.
     */
    method AddTodo(description: string, clock: Clock) returns (outcome: Outcome)
      modifies fileHandler, clock
      ensures IsNullOrWhiteSpace(Some(description)) ==>
                outcome == EmptyDescription && unchanged(fileHandler, clock)
      ensures !IsNullOrWhiteSpace(Some(description)) ==>
                var before := old(fileHandler.Loaded());
                var after := fileHandler.Loaded();
                && fileHandler.file.Holds? && fileHandler.saves == old(fileHandler.saves) + 1
                && |after| == |before| + 1 && after[..|before|] == before
                && after[|before|].id == NextId(before)
                && after[|before|].description == Some(description)
                && after[|before|].status == Some("todo")
                && old(clock.time) <= after[|before|].createdAt <= after[|before|].updatedAt == clock.time
                && outcome == Added(NextId(before))
    {
      if IsNullOrWhiteSpace(Some(description)) {
        outcome := EmptyDescription;
        return;
      }
      var todos := fileHandler.LoadTasks();
      var id := if |todos| > 0 then Increment(MaxId(todos)) else 1;
      var createdAt := clock.Now();
      var updatedAt := clock.Now();
      var newTodo := Todo(id, Some(description), Some("todo"), createdAt, updatedAt);
      todos := todos + [newTodo];
      fileHandler.SaveTasks(todos);
      outcome := Added(newTodo.id);
    }
  }

  // ---------------------------------------------------------------------------
  // UpdateCommand.cs

  class UpdateCommand {
    const fileHandler: FileHandler

    constructor(fileHandler: FileHandler)
      ensures this.fileHandler == fileHandler
    {
      this.fileHandler := fileHandler;
    }

    /**
     * `UpdateTodoAsync`: the id must parse and the description must not be
     * blank (checked in that order, before loading); the first task with the
     * id gets the description and a fresh `UpdatedAt`, and the list is saved.
     * The description is read only once the id has parsed, so a call with an
     * unparsable id needs no second parameter.
     */
    method UpdateTodo(parameters: seq<string>, clock: Clock) returns (outcome: Outcome)
      requires |parameters| >= 1
      requires TryParseInt32(parameters[0]).Some? ==> |parameters| >= 2
      modifies fileHandler, clock
      ensures TryParseInt32(parameters[0]).None? ==>
                outcome == NotAnIndex(parameters[0]) && unchanged(fileHandler, clock)
      ensures TryParseInt32(parameters[0]).Some? && IsNullOrWhiteSpace(Some(parameters[1])) ==>
                outcome == EmptyDescription && unchanged(fileHandler, clock)
      ensures TryParseInt32(parameters[0]).Some? && !IsNullOrWhiteSpace(Some(parameters[1])) ==>
                var id := TryParseInt32(parameters[0]).value;
                var before := old(fileHandler.Loaded());
                match FirstIndex(before, id)
                case None => outcome == NotFound(id) && unchanged(fileHandler, clock)
                case Some(i) =>
                  && outcome == Updated(id)
                  && fileHandler.file == Holds(DescribedAt(before, i, parameters[1], clock.time))
                  && DescriptionChanged(before, fileHandler.Loaded(), i, parameters[1], clock.time)
                  && fileHandler.saves == old(fileHandler.saves) + 1
                  && old(clock.time) <= clock.time
    {
      var parsed := TryParseInt32(parameters[0]);
      if parsed.None? {
        outcome := NotAnIndex(parameters[0]);
        return;
      } else if IsNullOrWhiteSpace(Some(parameters[1])) {
        outcome := EmptyDescription;
        return;
      }
      var id := parsed.value;
      var todos := fileHandler.LoadTasks();
      var found := FirstIndex(todos, id);
      if found.None? {
        outcome := NotFound(id);
        return;
      }
      var i := found.value;
      var now := clock.Now();
      var todo := todos[i];
      todo := todo.(description := Some(parameters[1]));
      todo := todo.(updatedAt := now);
      todos := todos[i := todo];
      fileHandler.SaveTasks(todos);
      outcome := Updated(id);
    }
  }

  // ---------------------------------------------------------------------------
  // StatusCommand.cs

  class StatusCommand {
    const fileHandler: FileHandler

    constructor(fileHandler: FileHandler)
      ensures this.fileHandler == fileHandler
    {
      this.fileHandler := fileHandler;
    }

    /**
     * `UpdateStatusAsync`: the id must parse; the first task with the id gets
     * `status` verbatim (any string) and a fresh `UpdatedAt`, and the list is
     * saved.
     */
    method UpdateStatus(idStr: string, status: string, clock: Clock) returns (outcome: Outcome)
      modifies fileHandler, clock
      ensures TryParseInt32(idStr).None? ==>
                outcome == NotAnId(idStr) && unchanged(fileHandler, clock)
      ensures TryParseInt32(idStr).Some? ==>
                var id := TryParseInt32(idStr).value;
                var before := old(fileHandler.Loaded());
                match FirstIndex(before, id)
                case None => outcome == NotFound(id) && unchanged(fileHandler, clock)
                case Some(i) =>
                  && outcome == Marked(id, status)
                  && fileHandler.file == Holds(MarkedAt(before, i, status, clock.time))
                  && StatusChanged(before, fileHandler.Loaded(), i, status, clock.time)
                  && fileHandler.saves == old(fileHandler.saves) + 1
                  && old(clock.time) <= clock.time
    {
      var parsed := TryParseInt32(idStr);
      if parsed.None? {
        outcome := NotAnId(idStr);
        return;
      }
      var id := parsed.value;
      var todos := fileHandler.LoadTasks();
      var found := FirstIndex(todos, id);
      if found.None? {
        outcome := NotFound(id);
        return;
      }
      var i := found.value;
      var now := clock.Now();
      var todo := todos[i];
      todo := todo.(status := Some(status));
      todo := todo.(updatedAt := now);
      todos := todos[i := todo];
      fileHandler.SaveTasks(todos);
      outcome := Marked(id, status);
    }
  }

  // ---------------------------------------------------------------------------
  // DeleteCommand.cs

  class DeleteCommand {
    const fileHandler: FileHandler

    constructor(fileHandler: FileHandler)
      ensures this.fileHandler == fileHandler
    {
      this.fileHandler := fileHandler;
    }

    /**
     * `DeleteTodoAsync` as written: an index that does not parse is reported
     * but the method goes on with id 0, the value `int.TryParse` leaves
     * behind. The first task with the id is removed and the list saved.
     */
    method DeleteTodo(index: string) returns (reports: seq<Outcome>)
      modifies fileHandler
      ensures TryParseInt32(index).None? ==> |reports| == 2 && reports[0] == NotAnIndex(index)
      ensures TryParseInt32(index).Some? ==> |reports| == 1
      ensures var id := ParsedOrZero(index);
              var before := old(fileHandler.Loaded());
              match FirstIndex(before, id)
              case None => reports[|reports| - 1] == NotFound(id) && unchanged(fileHandler)
              case Some(i) =>
                && reports[|reports| - 1] == Deleted(id)
                && fileHandler.file == Holds(RemoveAt(before, i))
                && fileHandler.saves == old(fileHandler.saves) + 1
    {
      reports := [];
      var parsed := TryParseInt32(index);
      if parsed.None? {
        reports := reports + [NotAnIndex(index)];
      }
      var id := parsed.GetOr(0);
      var outcome := DeleteById(id);
      reports := reports + [outcome];
    }

    /** `DeleteTodoAsync` with the `return` after a parse failure that the other commands have. */
    method DeleteTodoChecked(index: string) returns (reports: seq<Outcome>)
      modifies fileHandler
      ensures TryParseInt32(index).None? ==> reports == [NotAnIndex(index)] && unchanged(fileHandler)
      ensures TryParseInt32(index).Some? ==>
                var id := TryParseInt32(index).value;
                var before := old(fileHandler.Loaded());
                match FirstIndex(before, id)
                case None => reports == [NotFound(id)] && unchanged(fileHandler)
                case Some(i) =>
                  && reports == [Deleted(id)]
                  && fileHandler.file == Holds(RemoveAt(before, i))
                  && fileHandler.saves == old(fileHandler.saves) + 1
    {
      var parsed := TryParseInt32(index);
      if parsed.None? {
        reports := [NotAnIndex(index)];
        return;
      }
      var outcome := DeleteById(parsed.value);
      reports := [outcome];
    }

    /** Looks up the first task with `id`, removes it with `List.Remove` and saves. */
    method DeleteById(id: Int32) returns (outcome: Outcome)
      modifies fileHandler
      ensures var before := old(fileHandler.Loaded());
              match FirstIndex(before, id)
              case None => outcome == NotFound(id) && unchanged(fileHandler)
              case Some(i) =>
                && outcome == Deleted(id)
                && fileHandler.file == Holds(RemoveAt(before, i))
                && fileHandler.saves == old(fileHandler.saves) + 1
    {
      var todos := fileHandler.LoadTasks();
      var found := FirstIndex(todos, id);
      if found.None? {
        outcome := NotFound(id);
        return;
      }
      var todo := todos[found.value];
      RemoveFoundTask(todos, id, found.value);
      var removed := RemoveFirst(todos, todo);
      if removed.None? {
        // "Could not remove task": cannot happen, the todo was just found in this list
        assert false;
      }
      todos := removed.value;
      fileHandler.SaveTasks(todos);
      outcome := Deleted(id);
    }
  }

  /**
   * With the source's missing `return`, an index that is not a number deletes
   * the todo with id 0 when there is one.
   */
  method UnparsableIndexDeletesTaskZero(index: string, a: Todo, b: Todo) returns (reports: seq<Outcome>, remaining: seq<Todo>)
    requires TryParseInt32(index).None? && a.id == 0
    ensures reports == [NotAnIndex(index), Deleted(0)]
    ensures remaining == [b]
  {
    var fileHandler := new FileHandler(Holds([a, b]));
    var command := new DeleteCommand(fileHandler);
    assert ParsedOrZero(index) == 0;
    ZeroFoundFirst(a, b);
    reports := command.DeleteTodo(index);
    assert |reports| == 2 && reports[0] == NotAnIndex(index);
    assert reports[1] == Deleted(0) && fileHandler.file == Holds([b]);
    remaining := fileHandler.LoadTasks();
  }

  /** In the two-task store of the method above, id 0 is found first and removing it leaves the second task. */
  lemma ZeroFoundFirst(a: Todo, b: Todo)
    requires a.id == 0
    ensures FirstIndex([a, b], 0) == Some(0) && RemoveAt([a, b], 0) == [b]
  {
    var rest := RemoveAt([a, b], 0);
    assert |rest| == 1 && rest[0] == b;
  }

  /** A word such as "first" is not a number, so the method above applies to it. */
  lemma WordIsNotAnIndex()
    ensures TryParseInt32("first").None?
  {
    assert Trim("first") == "first";
    assert !IsDigit('f');
  }

  // ---------------------------------------------------------------------------
  // ListCommand.cs

  /** The todos `ListTodosAsync` shows: all of them for a null or blank filter, else those whose status equals it exactly. */
  function Filtered(todos: seq<Todo>, filter: Option<string>): (r: seq<Todo>)
    ensures IsNullOrWhiteSpace(filter) ==> r == todos
    ensures !IsNullOrWhiteSpace(filter) ==> forall k :: 0 <= k < |r| ==> r[k] in todos && r[k].status == filter
  {
    if IsNullOrWhiteSpace(filter) then todos else WithStatus(todos, filter.value)
  }

  /** `[id] description - status`, a null field printing as nothing. */
  function Line(t: Todo): string {
    "[" + IntToString(t.id) + "] " + t.description.GetOr("") + " - " + t.status.GetOr("")
  }

  /** Every listed line opens with the todo's id between brackets. */
  lemma LineShowsId(t: Todo)
    ensures var id := IntToString(t.id); var r := Line(t);
      |r| > |id| + 1 && r[0] == '[' && r[1..|id| + 1] == id && r[|id| + 1] == ']'
  {
    var id := IntToString(t.id);
    var head := "[" + id + "] ";
    assert Line(t) == head + (t.description.GetOr("") + " - " + t.status.GetOr(""));
    assert head[1..|id| + 1] == id;
  }

  /** One line per task, in order. */
  function Lines(todos: seq<Todo>): (lines: seq<string>)
    ensures |lines| == |todos|
    ensures forall k :: 0 <= k < |todos| ==> lines[k] == Line(todos[k])
  {
    if todos == [] then [] else [Line(todos[0])] + Lines(todos[1..])
  }

  function NoTasksMessage(filter: Option<string>): string {
    "No tasks found with status '" + filter.GetOr("") + "'."
  }

  /** What `ListTodosAsync` prints for the loaded `todos`. */
  function ListLines(todos: seq<Todo>, filter: Option<string>): (r: seq<string>)
    ensures |r| == if Filtered(todos, filter) == [] then 1 else |Filtered(todos, filter)|
  {
    var shown := Filtered(todos, filter);
    if shown == [] then [NoTasksMessage(filter)] else Lines(shown)
  }

  /**
   * Without a filter every task is listed, in store order; with one, the
   * informational message appears exactly when no task has that status, and
   * otherwise every line shows a task of the store that has it.
   */
  lemma ListShows(todos: seq<Todo>, filter: Option<string>)
    ensures IsNullOrWhiteSpace(filter) && todos != [] ==>
              ListLines(todos, filter) == Lines(todos)
    ensures !IsNullOrWhiteSpace(filter) ==>
              (ListLines(todos, filter) == [NoTasksMessage(filter)] <==>
                 forall t :: t in todos ==> t.status != filter)
    ensures !IsNullOrWhiteSpace(filter) ==>
              forall k :: 0 <= k < |ListLines(todos, filter)| && ListLines(todos, filter) != [NoTasksMessage(filter)] ==>
                exists t :: t in todos && t.status == filter && ListLines(todos, filter)[k] == Line(t)
  {
    if !IsNullOrWhiteSpace(filter) {
      var shown := WithStatus(todos, filter.value);
      forall t | t in todos ensures t in shown <==> t.status == filter {
        WithStatusMembers(todos, filter.value, t);
      }
      if shown != [] {
        var lines := ListLines(todos, filter);
        assert lines[0][0] == '[' != NoTasksMessage(filter)[0];
        forall k | 0 <= k < |lines| ensures exists t :: t in todos && t.status == filter && lines[k] == Line(t) {
          WithStatusMembers(todos, filter.value, shown[k]);
        }
      } else {
        forall t | t in todos ensures t.status != filter {
          WithStatusMembers(todos, filter.value, t);
        }
      }
    }
  }

  class ListCommand {
    const fileHandler: FileHandler

    constructor(fileHandler: FileHandler)
      ensures this.fileHandler == fileHandler
    {
      this.fileHandler := fileHandler;
    }

    /** `ListTodosAsync`: loads, filters and prints; the file is never written. */
    method ListTodos(filter: Option<string>) returns (lines: seq<string>)
      ensures lines == ListLines(fileHandler.Loaded(), filter)
    {
      var todos := fileHandler.LoadTasks();
      var filteredTodos := if IsNullOrWhiteSpace(filter) then todos else WithStatus(todos, filter.value);
      assert filteredTodos == Filtered(fileHandler.Loaded(), filter);
      if |filteredTodos| == 0 {
        lines := [NoTasksMessage(filter)];
        return;
      }
      lines := PrintLines(filteredTodos);
    }

    /** The `foreach` of `ListTodosAsync`: one line per task, in order. */
    static method PrintLines(todos: seq<Todo>) returns (lines: seq<string>)
      ensures lines == Lines(todos)
    {
      lines := [];
      for k := 0 to |todos|
        invariant |lines| == k
        invariant forall j :: 0 <= j < k ==> lines[j] == Line(todos[j])
      {
        lines := lines + [Line(todos[k])];
      }
    }
  }
}

/** A whole task lifecycle driven through the operations' contracts. */
module Scenarios {
  import opened Wrappers
  import opened DotNet
  import opened Models
  import opened FileHandling
  import opened TodoLists
  import opened Commands

  /**
   * From a missing file: add a task, mark it in progress, change its
   * description, delete it, addressing it each time by a text that parses
   * to 1. The todo gets id 1, each step reports success and the store
   * ends empty.
   */
  method Lifecycle(description: string, newDescription: string, idText: string)
    returns (outcomes: seq<Outcome>, final: seq<Todo>)
    requires !IsNullOrWhiteSpace(Some(description)) && !IsNullOrWhiteSpace(Some(newDescription))
    requires TryParseInt32(idText) == Some(1)
    ensures outcomes == [Added(1), Marked(1, "in-progress"), Updated(1), Deleted(1)]
    ensures final == []
  {
    var fileHandler := new FileHandler(Missing);
    fileHandler.InitializeFile();
    var clock := new Clock(0);
    var added := AddFirst(fileHandler, clock, description);
    var marked := MarkOnly(fileHandler, clock, idText);
    var updated := DescribeOnly(fileHandler, clock, idText, newDescription);
    var deleted := DeleteOnly(fileHandler, idText);
    outcomes := [added, marked, updated, deleted];
    final := fileHandler.LoadTasks();
  }

  /** Adding to an empty store gives the single task id 1. */
  method AddFirst(fileHandler: FileHandler, clock: Clock, description: string) returns (outcome: Outcome)
    requires fileHandler.Loaded() == [] && !IsNullOrWhiteSpace(Some(description))
    modifies fileHandler, clock
    ensures outcome == Added(1)
    ensures |fileHandler.Loaded()| == 1 && fileHandler.Loaded()[0].id == 1
  {
    var add := new AddCommand(fileHandler);
    outcome := add.AddTodo(description, clock);
  }

  /** Marking the only task, found by an id text that parses to its id. */
  method MarkOnly(fileHandler: FileHandler, clock: Clock, idText: string) returns (outcome: Outcome)
    requires |fileHandler.Loaded()| == 1 && fileHandler.Loaded()[0].id == 1
    requires TryParseInt32(idText) == Some(1)
    modifies fileHandler, clock
    ensures outcome == Marked(1, "in-progress")
    ensures |fileHandler.Loaded()| == 1 && fileHandler.Loaded()[0].id == 1
  {
    var status := new StatusCommand(fileHandler);
    assert FirstIndex(fileHandler.Loaded(), 1) == Some(0);
    outcome := status.UpdateStatus(idText, "in-progress", clock);
  }

  /** Changing the description of the only task. */
  method DescribeOnly(fileHandler: FileHandler, clock: Clock, idText: string, description: string)
    returns (outcome: Outcome)
    requires |fileHandler.Loaded()| == 1 && fileHandler.Loaded()[0].id == 1
    requires TryParseInt32(idText) == Some(1) && !IsNullOrWhiteSpace(Some(description))
    modifies fileHandler, clock
    ensures outcome == Updated(1)
    ensures |fileHandler.Loaded()| == 1 && fileHandler.Loaded()[0].id == 1
  {
    var update := new UpdateCommand(fileHandler);
    assert FirstIndex(fileHandler.Loaded(), 1) == Some(0);
    outcome := update.UpdateTodo([idText, description], clock);
  }

  /** Deleting the only task empties the store. */
  method DeleteOnly(fileHandler: FileHandler, idText: string) returns (outcome: Outcome)
    requires |fileHandler.Loaded()| == 1 && fileHandler.Loaded()[0].id == 1
    requires TryParseInt32(idText) == Some(1)
    modifies fileHandler
    ensures outcome == Deleted(1)
    ensures fileHandler.Loaded() == []
  {
    var delete := new DeleteCommand(fileHandler);
    assert FirstIndex(fileHandler.Loaded(), 1) == Some(0);
    var reports := delete.DeleteTodo(idText);
    outcome := reports[0];
  }

  /** Reading "1" as an index gives 1, so the lifecycle above can be run with it. */
  lemma ParsesOne()
    ensures TryParseInt32("1") == Some(1) && ParsedOrZero("1") == 1
  {
    ParseFormatRoundTrip(1);
    assert IntToString(1) == "1";
  }
}
