/** The todo record of TaskTrackerCLI/Models/Todo.cs and the clock the commands read. */
module Models {
  import opened Wrappers
  import opened DotNet

  /** A point in time, as a count of clock ticks. */
  type DateTime = int

  /**
   * One task. `description` and `status` are nullable strings in the source
   * (`None` is `null`): a task read back from the file may lack either.
   */
  datatype Todo = Todo(
    id: Int32,
    description: Option<string>,
    status: Option<string>,
    createdAt: DateTime,
    updatedAt: DateTime)

  /**
   * Stands for `DateTime.Now`. The model assumes every reading is at least
   * the one before it, by however much time the environment lets pass; the
   * local wall clock itself can step back, which is not modelled.
   */
  class Clock {
    var time: DateTime

    constructor(start: DateTime)
      ensures time == start
    {
      time := start;
    }

    method Now() returns (t: DateTime)
      modifies this
      ensures old(time) <= t && time == t
    {
      t :| t >= time;
      time := t;
    }
  }
}
