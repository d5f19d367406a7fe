/**
 * The configured tasks and their lookup by name (main.go). The task list is
 * loaded once at startup and never changes; both handlers scan it for the first
 * task with the requested name.
 */
module Registry {
  import opened Wrappers

  /** A configured task: its name, its command template and its timeout in seconds. */
  datatype Task = Task(name: string, command: seq<string>, timeout: int)

  /** One second, as a `time.Duration` counts it (nanoseconds). */
  const Second: int := 1_000_000_000

  /** `defaultTimeout`: 15 seconds. */
  const DefaultTimeout: int := 15 * Second

  /** The first task with the given name, or None when no task carries it. */
  function FindTask(tasks: seq<Task>, name: string): (r: Option<Task>)
    ensures r.None? <==> forall i :: 0 <= i < |tasks| ==> tasks[i].name != name
    ensures r.Some? ==> exists i :: 0 <= i < |tasks| && tasks[i] == r.value && r.value.name == name &&
                          forall j :: 0 <= j < i ==> tasks[j].name != name
  {
    if |tasks| == 0 then None
    else if tasks[0].name == name then Some(tasks[0])
    else
      var r := FindTask(tasks[1..], name);
      assert forall i :: 1 <= i < |tasks| ==> tasks[i] == tasks[1..][i - 1];
      r
  }

  /**
   * The lookup loop of `executeTask` and `taskForm`: scan the tasks in order and
   * stop at the first whose name matches; None stands for the nil pointer.
   */
  method SelectTask(tasks: seq<Task>, name: string) returns (selected: Option<Task>)
    ensures selected == FindTask(tasks, name)
  {
    selected := None;
    var i := 0;
    while i < |tasks|
      invariant 0 <= i <= |tasks|
      invariant FindTask(tasks[i..], name) == FindTask(tasks, name)
      invariant selected.None?
    {
      if tasks[i].name == name {
        selected := Some(tasks[i]);
        break;
      }
      assert tasks[i..][1..] == tasks[i + 1..];
      i := i + 1;
    }
  }

  /**
   * The time budget of a run, in nanoseconds: the task's own timeout when it is
   * positive, otherwise the default. It is always a positive whole number of seconds.
   */
  function EffectiveTimeout(task: Task): (d: int)
    ensures d >= Second && d % Second == 0
    ensures task.timeout > 0 ==> d / Second == task.timeout
    ensures task.timeout <= 0 ==> d == DefaultTimeout
  {
    if task.timeout > 0 then task.timeout * Second else DefaultTimeout
  }
}
