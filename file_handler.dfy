/**
 * TaskTrackerCLI/Services/FileHandler.cs as an abstract store: the todos file
 * is missing, blank (empty, white space or a JSON `null`), or holds a list of
 * tasks. The JSON text itself is not modelled.
 */
module FileHandling {
  import opened Models

  datatype TodoFile = Missing | Blank | Holds(todos: seq<Todo>)

  class FileHandler {
    /** What `todos.json` holds. */
    var file: TodoFile
    /** How many times the file has been written. */
    ghost var saves: nat

    constructor(file: TodoFile)
      ensures this.file == file && saves == 0
    {
      this.file := file;
      saves := 0;
    }

    /** The list `LoadTasksAsync` returns for the current file. */
    ghost function Loaded(): seq<Todo>
      reads this
    {
      if file.Holds? then file.todos else []
    }

    /** Replaces the whole file with `todos`. */
    method SaveTasks(todos: seq<Todo>)
      modifies this
      ensures file == Holds(todos) && saves == old(saves) + 1
    {
      file := Holds(todos);
      saves := saves + 1;
    }

    /** A missing or blank file loads as the empty list; otherwise the list it holds. */
    method LoadTasks() returns (todos: seq<Todo>)
      ensures file.Holds? ==> todos == file.todos
      ensures !file.Holds? ==> todos == []
    {
      match file
      case Holds(saved) => todos := saved;
      case _ => todos := [];
    }

    /** Whether `todos.json` exists; a file that does not loads as the empty list. */
    predicate TodoFileExists()
      reads this
      ensures file.Holds? ==> TodoFileExists()
      ensures !TodoFileExists() ==> Loaded() == []
    {
      !file.Missing?
    }

    /** Creates the file with an empty list when it does not exist; leaves an existing one alone. */
    method InitializeFile()
      modifies this
      ensures old(file).Missing? ==> file == Holds([]) && saves == old(saves) + 1
      ensures !old(file).Missing? ==> file == old(file) && saves == old(saves)
      ensures Loaded() == old(Loaded())
    {
      if !TodoFileExists() {
        SaveTasks([]);
      }
    }
  }
}
