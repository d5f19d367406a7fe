# webaction task engine, modelled in Dafny

webaction is a small web server that lets operators run preconfigured shell
commands ("tasks"). Each task has a name, a command template (an argument
vector) and a timeout in seconds. A request names a task and supplies form
fields. The server resolves the placeholders of the template against those
fields, runs the command under a deadline and shows a record of the run.

This project models the pure and loop-based logic of that path in `main.go`:

- `placeholders.dfy` (module `Placeholders`): the whole-token placeholder
  grammar `^%([A-Za-z0-9_-]+)$` as a character-class predicate, the `%%`
  escape, Go's `strings.ReplaceAll` for a non-empty pattern, the resolution
  loop over an array copy of the template (`ResolveArgs`), and the discovery
  of parameter names (`ExtractParams`, `ExtractParamsFromCommandList`).
  Form fields are a `map<string, string>`; a missing field reads as `""`,
  as `FormValue` returns it.
- `registry.dfy` (module `Registry`): the `Task` record, the first-match
  lookup by name (a recursive specification `FindTask` and the scanning loop
  with `break`, `SelectTask`), and the effective timeout. Timeouts are
  durations in nanoseconds. The 15 second default applies unless the task's
  own timeout is positive.
- `stats.dfy` (module `Stats`): `defaultString`, the `TaskStats` record, and
  the record built for each way a run ends: start failure, kill at the
  deadline, or natural exit. The way a run ends is an input (`Outcome`).
- `handlers.dfy` (module `Handlers`): what `taskForm` and `executeTask` compute
  once I/O is stripped away. A response is either "Task not found" or what the
  handler computed. For the task form that is the data handed to the form
  template. For a run it is the task name and the record handed to the result
  template, together with the argument vector and budget handed to the launcher.
- `wrappers.dfy` (module `Wrappers`): the `Option` type that stands for Go's
  nil pointer or nil error.

An empty template is never turned into a start-failure record: main.go:240
indexes `args[0]` before `cmd.Start`, so the handler panics. A non-empty
template is therefore a precondition of `ExecuteTask`.

## Model

| member | source | states |
|---|---|---|
| Placeholders.FormValue | main.go:221 | a field's value, or "" when the form has no such field |
| Placeholders.ExtractParams | main.go:395-409 | at most one name per token; one exactly when the whole token matches `%` plus `[A-Za-z0-9_-]+`; the name is valid and `"%" + name` is the token |
| Placeholders.ExtractParamsOfPlaceholder | main.go:398 | `%` followed by any valid name matches the grammar, and extraction gives back exactly that name |
| Placeholders.EscapedIsNotPlaceholder | main.go:214-219 | a token starting with `%%` never matches the placeholder grammar, so no name is extracted from it |
| Placeholders.PlaceholderIsNotEscaped | main.go:214-219 | a placeholder token is never taken for an escaped one |
| Placeholders.ReplaceAllWhole | main.go:220-225 | `strings.ReplaceAll` on a token that is exactly the placeholder yields exactly the value |
| Placeholders.ResolveEscaped | main.go:214-217 | an escaped token loses its first character (`%` + result is the token) and its result does not depend on the form |
| Placeholders.ResolvePlaceholder | main.go:218-226 | `%name` resolves to the form value of `name`, or to "" when the field is missing |
| Placeholders.ResolvePassThrough | main.go:213-227 | a token that is neither escaped nor a placeholder is left unchanged |
| Placeholders.ResolveTokenUsesOnlyItsName | main.go:219-226 | two forms that agree on the token's extracted names resolve it identically |
| Placeholders.ResolveArgs | main.go:209-227 | the array-based loop returns a vector of the template's length whose element k is the resolution of token k alone |
| Placeholders.ParamsOfAppend | main.go:387-393 | the names of a concatenated template are the concatenation of the names, so they come in template order |
| Placeholders.ParamsOfLength | main.go:387-393 | a template yields no more names than it has tokens |
| Placeholders.ParamsOfMembership | main.go:387-409 | a name is listed if and only if it is valid and `"%" + name` is one of the template's tokens |
| Placeholders.ExtractParamsFromCommandList | main.go:387-393 | the append loop returns the in-order concatenation of the per-token names, no longer than the template |
| Placeholders.ResolveUsesOnlyListedFields | main.go:213-227 | forms that agree on every field the task form lists resolve every token of the template identically |
| Placeholders.ResolveExamples | main.go:213-227 | `%Name` gives the value, a missing `%Host` gives "", `%%literal` gives `%literal`; `a%Nameb`, `%`, `%a.b` and `%Name` plus a newline are unchanged |
| Registry.FindTask | main.go:194-205 | not found if and only if no task has the name; otherwise a task with that name that no earlier task's name matches |
| Registry.SelectTask | main.go:358-369 | the scan with `break` returns exactly the first task with the name, or nothing |
| Registry.EffectiveTimeout | main.go:229-233 | the budget is a positive whole number of seconds: the task's own timeout when positive, else 15 s |
| Stats.DefaultString | main.go:303-308 | "" becomes "N/A", any other text is kept; the result is never empty |
| Stats.DefaultStringIdempotent | main.go:303-308 | normalising twice equals normalising once |
| Stats.StatsFor | main.go:246-300 | start failure: exit code -1, both outputs "N/A", not killed, "can't start process"; deadline: killed, "timeout killed"; natural exit: not killed, exit code kept, error only when the wait error is set; outputs never empty; duration is end minus start |
| Stats.StatsExplainOutcome | main.go:251-294 | exactly one of the three endings explains a record: it can be read back from the record |
| Handlers.TaskForm | main.go:351-384 | "Task not found" if and only if no task has the requested name; otherwise the first such task, its parameter names in template order and its effective timeout |
| Handlers.ExecuteTask | main.go:187-301 | "Task not found" if and only if no task has the requested name; otherwise the first such task's name, its template resolved token by token against the form, its effective timeout and the record for the outcome |
| Handlers.TaskPlaceholderResolvesToTaskName | main.go:189-221 | the task name is a form field like the parameters, so `%task` resolves to the name of the task being run |

## Left out

- HTTP handling, middleware (request id, server version header, timing, basic auth, user logging), logging inside the handlers, CSRF, template loading and rendering, and the favicon: I/O and foreign libraries.
- Configuration loading (YAML, `os.ReadFile`), command-line flags, `os.Stat` probing, `os.Exit`, `uuid` and `toJson`: I/O or thin wrappers.
- Process start, the race between the deadline and `cmd.Wait`, `Process.Kill` and output capture: the model takes how the run ended, the exit code and the captured output as an `Outcome` input.
- Stats.StatsFor: no claim about the exit code after a timeout kill, because the process state is read while the wait may still be filling it in; the model records whatever value was observed.
- Stats.StatsFor: the wait error of a natural exit is taken as an input independent of the exit code; `cmd.Wait` in fact returns an error for every non-zero exit, a link the model does not state.
- Clock readings are opaque integers; only `duration == ended - started` is modelled.
- Registry.EffectiveTimeout: does not model the 64-bit overflow of `time.Duration(Timeout) * time.Second` for timeouts above about 9.2e9 seconds, because durations are unbounded integers here.
- Handlers.ExecuteTask: requires a non-empty template for the selected task, because the code panics on `args[0]` for an empty one rather than producing a start-failure record.
- Placeholders.ReplaceAll: modelled only for a non-empty pattern; the code only ever passes `"%" + name`.
- Strings are sequences of characters; invalid UTF-8 and byte-level slicing are not modelled (slicing off a leading `%` removes one byte and one character alike).
- `FormValue` on a field sent several times returns the first value, and query and body fields are merged; the form is modelled as a single map.
