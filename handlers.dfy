/**
 * The task-related work of the two handlers `taskForm` and `executeTask`
 * (main.go), with the HTTP request reduced to its form values and the rendered
 * page reduced to the data handed to the template.
 */
module Handlers {
  import opened Wrappers
  import opened Placeholders
  import opened Registry
  import opened Stats

  /** The form field that names the task. */
  const TaskField: string := "task"

  /** A handler's answer: "Task not found" (HTTP 400), or what it computed for its page. */
  datatype Response<+P> = TaskNotFound | Page(page: P)

  /** What the task form shows: the task, its time budget and the fields to ask for. */
  datatype FormPage = FormPage(task: Task, timeout: int, params: seq<string>)

  /**
   * The outcome of a run: the task name and the record handed to the result
   * template, together with the argument vector and budget handed to the launcher.
   */
  datatype ResultPage = ResultPage(task: string, argv: seq<string>, timeout: int, stats: TaskStats)

  /** `taskForm`: find the task named by the form, list its parameters and its budget. */
  method TaskForm(tasks: seq<Task>, form: Form) returns (resp: Response<FormPage>)
    ensures resp.TaskNotFound? <==> forall i :: 0 <= i < |tasks| ==> tasks[i].name != FormValue(form, TaskField)
    ensures resp.Page? ==>
              Some(resp.page.task) == FindTask(tasks, FormValue(form, TaskField)) &&
              resp.page.params == ParamsOf(resp.page.task.command) &&
              resp.page.timeout == EffectiveTimeout(resp.page.task)
  {
    var taskName := FormValue(form, TaskField);
    var selectedTask := SelectTask(tasks, taskName);
    if selectedTask.None? {
      return TaskNotFound;
    }
    var task := selectedTask.value;
    var params := ExtractParamsFromCommandList(task.command);
    var timeout := EffectiveTimeout(task);
    resp := Page(FormPage(task, timeout, params));
  }

  /**
   * `executeTask`: find the task named by the form, resolve its template against
   * the form, choose the budget and record how the run ended. The launch indexes
   * the first argument, so the selected task's template must not be empty.
   */
  method ExecuteTask(tasks: seq<Task>, form: Form, outcome: Outcome, started: int, ended: int)
    returns (resp: Response<ResultPage>)
    requires FindTask(tasks, FormValue(form, TaskField)).Some? ==>
               |FindTask(tasks, FormValue(form, TaskField)).value.command| > 0
    ensures resp.TaskNotFound? <==> forall i :: 0 <= i < |tasks| ==> tasks[i].name != FormValue(form, TaskField)
    ensures resp.Page? ==>
              var task := FindTask(tasks, FormValue(form, TaskField)).value;
              resp.page.task == task.name == FormValue(form, TaskField) &&
              |resp.page.argv| == |task.command| > 0 &&
              (forall k :: 0 <= k < |task.command| ==> resp.page.argv[k] == ResolveToken(task.command[k], form)) &&
              resp.page.timeout == EffectiveTimeout(task) &&
              resp.page.stats == StatsFor(outcome, started, ended)
  {
    var taskName := FormValue(form, TaskField);
    var selectedTask := SelectTask(tasks, taskName);
    if selectedTask.None? {
      return TaskNotFound;
    }
    var task := selectedTask.value;
    var args := ResolveArgs(task.command, form);
    var taskTimeout := EffectiveTimeout(task);
    var stats := StatsFor(outcome, started, ended);
    resp := Page(ResultPage(task.name, args, taskTimeout, stats));
  }

  /**
   * The task name travels in the same form as the parameters, so a placeholder
   * "%task" in a template resolves to the name of the task being run.
   */
  lemma TaskPlaceholderResolvesToTaskName(form: Form)
    ensures ResolveToken("%" + TaskField, form) == FormValue(form, TaskField)
  {
    assert forall i :: 0 <= i < |TaskField| ==> IsNameChar(TaskField[i]);
    ResolvePlaceholder(TaskField, form);
  }
}
