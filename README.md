# Working shifts switch — a verified model

This project models the rotation logic of the `hr_working_shifts_switch` module's
`hr.working.template` model. It is written in Dafny.

A working template is a cycle of lines, ordered by `sequence`. Each line names a
working-time scheduler (`resource.calendar`). A template also has:

- a pointer to its current line;
- a lifecycle state: `draft`, `done` or `cancel`;
- a scheduled job (`ir.cron`) that calls `_switch_shift` periodically.

A switch works template by template:

1. It moves the template's pointer to the next line, wrapping after the last one.
2. It writes the scheduler of that line to every contract bound to the template.
   Dated per-contract exceptions can override that scheduler.
3. It logs every write as a history row.

The lifecycle actions change the template's state. They also create, activate or
deactivate the template's job.

The project has these files:

- `records.dfy` has the record shapes: template, line, exception, contract, history
  row, job, and `Option`/`Result`.
- `strings.dfy` renders digits and defines Python 2's ordering of strings.
- `dates.dfy` renders a date as `%Y-%m-%d`. It proves that comparing two rendered
  dates as text compares the dates themselves.
- `rotation.dfy` specifies one rotation and a whole switch as functions over the
  records (`RotateOne`, `RotateAll`), with the lemmas about them.
- `lifecycle.dfy` specifies `_update_cron` and the three actions as functions over
  the templates and the job table, with the lemmas about them. It also holds the
  corrected `action_draft`.
- `store.dfy` has the class `TemplateStore`. It holds the tables as fields, and its
  methods update them in place as the module does. Each method's loop is proved
  equal to the specifying function.

Dates are stored as `YYYY-MM-DD` text, and the exception test compares that text
with today's rendered date, just as the source does. Python 2's comparisons with
`False` decide what an unset date means:

- an unset start date sets no lower bound;
- an unset stop date makes the exception never apply.

## Model

All source paths are in `hr_working_shifts_switch/model/hr_working_template.py`.

| member | source | states |
|---|---|---|
| Rotation.NextIndex | hr_working_shifts_switch/model/hr_working_template.py:253-260 | the next index stays inside the cycle; it is the successor, except that the last line wraps round to 0 |
| Rotation.IndexOf | hr_working_shifts_switch/model/hr_working_template.py:254-260 | `list.index`: no result exactly when the id is absent; otherwise the position of the first occurrence |
| Rotation.TemplateLines | hr_working_shifts_switch/model/hr_working_template.py:244-248 | the line search returns exactly the lines whose template is `t` |
| Rotation.TemplateLinesSorted | hr_working_shifts_switch/model/hr_working_template.py:244-248 | the template's lines keep the table's ascending `sequence` order |
| Rotation.TemplateLinesUnique | hr_working_shifts_switch/model/hr_working_template.py:244-248 | the template's lines have distinct ids when the table does |
| Rotation.ExceptionsForMembers | hr_working_shifts_switch/model/hr_working_template.py:266-272 | the exception search keeps exactly the exceptions of that template and that contract |
| Rotation.ExceptionsFor | hr_working_shifts_switch/model/hr_working_template.py:266-272 | the search returns no more exceptions than the table holds, each of them for this template and this contract |
| Rotation.ExceptionsForAppend | hr_working_shifts_switch/model/hr_working_template.py:266-272 | the search distributes over concatenation of the table, so the kept exceptions keep the table's order and multiplicity |
| Rotation.ExceptionsForOne | hr_working_shifts_switch/model/hr_working_template.py:266-272 | on a one-row table the search keeps the row exactly when its template and contract match |
| Rotation.Active | hr_working_shifts_switch/model/hr_working_template.py:279-282 | an exception in force has a stop date on or after today's text, and a start date, when set, on or before it |
| Rotation.Applied | hr_working_shifts_switch/model/hr_working_template.py:279-312 | the scheduler written for one exception is the exception's or the line's; an exception without a stop date always yields the line's |
| Rotation.Writes | hr_working_shifts_switch/model/hr_working_template.py:273-331 | a contract receives one write without exceptions and one per exception otherwise; every write is the line's scheduler or the scheduler of an exception in force at that position |
| Rotation.RowsFor | hr_working_shifts_switch/model/hr_working_template.py:288-331 | one history row per write, carrying that write's scheduler, the template, the contract and today |
| Rotation.RotatedContract | hr_working_shifts_switch/model/hr_working_template.py:264-331 | a rotated contract keeps its id and template; a contract not bound to the template is unchanged |
| Rotation.ContractRows | hr_working_shifts_switch/model/hr_working_template.py:264-331 | a contract gets rows exactly when it is bound to the template; each names the template, the contract and today |
| Rotation.RotatedContracts | hr_working_shifts_switch/model/hr_working_template.py:264-331 | the contract table keeps its length, ids and bindings; unbound contracts are unchanged |
| Rotation.NewRows | hr_working_shifts_switch/model/hr_working_template.py:264-331 | every row the rotation adds names the template and today |
| Rotation.NewRowsAround | hr_working_shifts_switch/model/hr_working_template.py:264-331 | the rows of one contract are logged after those of the contracts before it and before those of the contracts after it |
| Rotation.LastRowScheduler | hr_working_shifts_switch/model/hr_working_template.py:273-331 | a bound contract's new `working_hours` is the scheduler of its last history row |
| Dates.Iso | hr_working_shifts_switch/model/hr_working_template.py:279 | `strftime('%Y-%m-%d')` gives ten characters with dashes at positions 4 and 7 |
| Dates.IsoOrder | hr_working_shifts_switch/model/hr_working_template.py:279-282 | for valid dates, the string order of the rendered texts is the chronological order, in both directions |
| Rotation.ActiveWithinRange | hr_working_shifts_switch/model/hr_working_template.py:279-282 | an exception applies exactly when today lies in its inclusive range; an unset start is no bound and an unset stop means it never applies |
| Rotation.RotateOne | hr_working_shifts_switch/model/hr_working_template.py:243-331 | one rotation keeps the set of templates, leaves other templates unchanged, and changes only the pointer of the rotated one |
| Rotation.RotateAll | hr_working_shifts_switch/model/hr_working_template.py:243-332 | among the templates only the pointers change, and the contracts keep their ids and bindings; the first error aborts the call |
| Rotation.RotateWithoutPointerChangesNothing | hr_working_shifts_switch/model/hr_working_template.py:253 | a template with no lines or no current line is left as it is: no pointer move, no contract write, no history |
| Rotation.RotateRejectsForeignLine | hr_working_shifts_switch/model/hr_working_template.py:254-260 | a current line outside the template's lines makes the rotation fail (the `ValueError` of `index`) |
| Rotation.RotateAdvancesPointer | hr_working_shifts_switch/model/hr_working_template.py:253-263 | with unique line ids, the pointer moves from line `i` to line `i + 1`, or to line 0 after the last line |
| Rotation.RotateRepeatedly | hr_working_shifts_switch/model/hr_working_template.py:253-263 | `k` switches of a template all succeed and move its pointer `k` steps along the cycle |
| Rotation.CycleReturnsPointer | hr_working_shifts_switch/model/hr_working_template.py:253-263 | as many switches as the template has lines bring the pointer back to its starting line |
| Rotation.RotateWritesBoundContracts | hr_working_shifts_switch/model/hr_working_template.py:253-331 | contracts not bound to the template are left unchanged and none changes id; when the template has lines and a current line, contract `k` is rotated with the scheduler of the line the pointer moves to, its rows sit between those of the contracts before and after it, and a bound contract ends with the scheduler of its last row |
| Rotation.BoundContractRows | hr_working_shifts_switch/model/hr_working_template.py:273-331 | a contract without exceptions gets one row with the line's scheduler; otherwise it gets one row per exception, in order, with the exception's scheduler when it applies and the line's otherwise; the last row's scheduler is the contract's new one |
| Rotation.NewRowsShape | hr_working_shifts_switch/model/hr_working_template.py:264-331 | every new row names the template, today and a contract bound to it; there is at least one row per bound contract |
| Rotation.RotateAppendsHistory | hr_working_shifts_switch/model/hr_working_template.py:288-331 | history only grows: old rows are kept, and every added row (exception in force, exception not in force, no exception) records this rotation for a bound contract |
| Rotation.TemplatesInState | hr_working_shifts_switch/model/hr_working_template.py:228-233 | without ids the job rotates exactly the templates in state `done`, in ascending id order |
| Lifecycle.UpdateCronOutcomes | hr_working_shifts_switch/model/hr_working_template.py:155-186 | every branch of `_update_cron`: activate or deactivate the existing job, or create an inactive job for `draft`; the value it returns; `None` with nothing changed exactly when there is no job and the state is not `draft` |
| Lifecycle.UpdateCronEffect | hr_working_shifts_switch/model/hr_working_template.py:172-186 | `_update_cron` never removes a job nor lowers the next job id, and returns `None` only when it changes nothing |
| Lifecycle.NewCron | hr_working_shifts_switch/model/hr_working_template.py:142-151 | the job `_create_cron` writes is inactive, repeats every 1 period with unlimited calls and `doall`, and runs `hr.working.template._switch_shift` on exactly the given ids with the given period |
| Lifecycle.PeriodOf | hr_working_shifts_switch/model/hr_working_template.py:95-100 | `related_interval_type` is the period of the template's job whenever that job exists, and unset otherwise |
| Lifecycle.UpdateCronDraftOnlyDeactivates | hr_working_shifts_switch/model/hr_working_template.py:155-186 | for `draft`, `_update_cron` activates no job |
| Lifecycle.SetStateStep | hr_working_shifts_switch/model/hr_working_template.py:194-197 | one iteration keeps the template ids and job ids, and every job a template points to exists |
| Lifecycle.SetStateAll | hr_working_shifts_switch/model/hr_working_template.py:188-211 | the same, for the whole loop |
| Lifecycle.SetStateStepEffect | hr_working_shifts_switch/model/hr_working_template.py:194-197 | one iteration writes the state to its template only and creates no job; the template's job ends active exactly for `done` |
| Lifecycle.SetStateAllTogglesJobs | hr_working_shifts_switch/model/hr_working_template.py:188-211 | `action_done` and `action_cancel` create no job; they only switch existing jobs on (`done`) or off (`cancel`) |
| Lifecycle.SetStateAllWritesState | hr_working_shifts_switch/model/hr_working_template.py:188-211 | every template of the call takes the new state with its other fields unchanged; other templates are untouched |
| Lifecycle.SetStateAllSyncsJobs | hr_working_shifts_switch/model/hr_working_template.py:188-211 | afterwards, the job of every template of the call is active exactly when the new state is `done` |
| Lifecycle.DraftStep | hr_working_shifts_switch/model/hr_working_template.py:219-225 | one iteration as written keeps the template ids and job consistency; the carried job id exists |
| Lifecycle.DraftAll | hr_working_shifts_switch/model/hr_working_template.py:213-226 | `action_draft` as written keeps the template ids and job consistency |
| Lifecycle.DraftStepEffect | hr_working_shifts_switch/model/hr_working_template.py:219-225 | one iteration as written changes only its template and puts it in draft, with its name and pointer unchanged; no job is activated |
| Lifecycle.DraftAllDeactivates | hr_working_shifts_switch/model/hr_working_template.py:213-226 | as written, `action_draft` activates no job, puts every template of the call in draft and leaves other templates untouched |
| Lifecycle.DraftJobCoversWholeCall | hr_working_shifts_switch/model/hr_working_template.py:176-178 | as written, an iteration on a template without a job creates job `nextId` for the whole id list of the call and hands it on in the dictionary |
| Lifecycle.DraftStepKeepsCarried | hr_working_shifts_switch/model/hr_working_template.py:219-225 | as written, an iteration on a template with a job deactivates that job, passes the carried job id on and writes it over the template's own job |
| Lifecycle.DraftHandsOnCreatedJob | hr_working_shifts_switch/model/hr_working_template.py:213-226 | as written, for any template `a` without a job followed by a template `b` with one, `b` ends on the job created for `a`, which switches both templates, and loses its own job |
| Lifecycle.DraftSharesEarlierJob | hr_working_shifts_switch/model/hr_working_template.py:213-226 | the smallest instance of the shared-dictionary defect: template 11's job 1 is replaced by job 2 created for template 10; corrected, 11 keeps job 1 |
| Lifecycle.DraftFixedStep | hr_working_shifts_switch/model/hr_working_template.py:219-225 | one corrected iteration (a missing job is created for this template alone) keeps the template ids and job consistency |
| Lifecycle.DraftAllFixed | hr_working_shifts_switch/model/hr_working_template.py:213-226 | the corrected action keeps the template ids and job consistency |
| Lifecycle.DraftFixedStepEffect | hr_working_shifts_switch/model/hr_working_template.py:219-225 | one corrected iteration changes only its template; the template ends in draft with an inactive job of its own, which switches it alone when newly created; no job is activated |
| Lifecycle.DraftFixedStepCreates | hr_working_shifts_switch/model/hr_working_template.py:219-225 | corrected, an iteration on a template without a job creates a job for that template alone |
| Lifecycle.DraftFixedStepKeeps | hr_working_shifts_switch/model/hr_working_template.py:219-225 | corrected, an iteration on a template with a job only sets its state and deactivates its job |
| Lifecycle.DraftFixedKeepsLaterJob | hr_working_shifts_switch/model/hr_working_template.py:213-226 | corrected, for the same `a` and `b`, `b` keeps its own job and `a`'s new job switches `a` alone |
| Lifecycle.DraftAllFixedDeactivates | hr_working_shifts_switch/model/hr_working_template.py:213-226 | the corrected action activates no job; the jobs it creates are inactive |
| Lifecycle.DraftAllFixedKeepsOthers | hr_working_shifts_switch/model/hr_working_template.py:213-226 | the corrected action leaves other templates untouched; a template of the call that had a job only changes state |
| Lifecycle.DraftAllFixedKeepsOwnJobs | hr_working_shifts_switch/model/hr_working_template.py:213-226 | after the corrected action, every template of the call is in draft with an inactive job; a template that had none has a job that switches it alone |
| WorkingTemplate.TemplateStore.CreateRecordHistory | hr_working_shifts_switch/model/hr_working_template.py:416-419 | appends exactly the given row to the history |
| WorkingTemplate.TemplateStore.CreateCron | hr_working_shifts_switch/model/hr_working_template.py:125-153 | creates a fresh job with the next id: inactive, every 1 period, unlimited calls, running `_switch_shift` on the ids |
| WorkingTemplate.TemplateStore.Create | hr_working_shifts_switch/model/hr_working_template.py:116-123 | adds a template, in `draft` by default, linked to a fresh inactive job over its own id; nothing else changes |
| WorkingTemplate.TemplateStore.UpdateCron | hr_working_shifts_switch/model/hr_working_template.py:155-186 | the job table and the returned value are those of the `_update_cron` specification |
| WorkingTemplate.TemplateStore.SetStateOne | hr_working_shifts_switch/model/hr_working_template.py:194-197 | one iteration of the done/cancel loop, proved equal to its specification |
| WorkingTemplate.TemplateStore.WriteStateAndJobs | hr_working_shifts_switch/model/hr_working_template.py:188-211 | the done/cancel loop, proved equal to its specification |
| WorkingTemplate.TemplateStore.SetStateNext | hr_working_shifts_switch/model/hr_working_template.py:194-197 | iteration `k` of the done/cancel loop leaves exactly the rest of the call to do, from the new state |
| WorkingTemplate.TemplateStore.ActionDone | hr_working_shifts_switch/model/hr_working_template.py:188-199 | the new templates and jobs are those of `SetStateAll` with `done` |
| WorkingTemplate.TemplateStore.ActionCancel | hr_working_shifts_switch/model/hr_working_template.py:201-211 | the new templates and jobs are those of `SetStateAll` with `cancel` |
| WorkingTemplate.TemplateStore.DraftOne | hr_working_shifts_switch/model/hr_working_template.py:219-225 | one iteration of `action_draft`, carrying the shared dictionary's job id, proved equal to its specification |
| WorkingTemplate.TemplateStore.DraftNext | hr_working_shifts_switch/model/hr_working_template.py:219-225 | iteration `k` of `action_draft` leaves exactly the rest of the call to do, from the new state and the new carried job id |
| WorkingTemplate.TemplateStore.ActionDraft | hr_working_shifts_switch/model/hr_working_template.py:213-226 | the new templates and jobs are those of `DraftAll` as written |
| WorkingTemplate.TemplateStore.ApplyExceptions | hr_working_shifts_switch/model/hr_working_template.py:273-312 | the contract ends with the last exception's write, and one history row is logged per exception, in order |
| WorkingTemplate.TemplateStore.WriteContract | hr_working_shifts_switch/model/hr_working_template.py:264-331 | one contract, proved equal to its specification: rotated when bound, logged row by row, and nothing else changes |
| WorkingTemplate.TemplateStore.WriteContracts | hr_working_shifts_switch/model/hr_working_template.py:264-331 | the contract loop: the contracts become `RotatedContracts` and `NewRows` is appended to the history |
| WorkingTemplate.TemplateStore.RotateTemplate | hr_working_shifts_switch/model/hr_working_template.py:243-331 | one rotation in place is `RotateOne`; on error nothing changes |
| WorkingTemplate.TemplateStore.RotateEach | hr_working_shifts_switch/model/hr_working_template.py:243-332 | the template loop up to the first error is `RotateAll` |
| WorkingTemplate.TemplateStore.SwitchShift | hr_working_shifts_switch/model/hr_working_template.py:236-332 | `switch_shift`: the records become `RotateAll`'s result; on error the whole call is rolled back |
| WorkingTemplate.TemplateStore.SwitchShiftJob | hr_working_shifts_switch/model/hr_working_template.py:228-233 | `_switch_shift`: without ids, it switches the templates in state `done` |

## Left out

- The ORM, access rights, views and field definitions are left out. Tables are
  sequences or maps. Browsing a template id that does not exist is excluded by a
  precondition, because the framework raises its own error there.
- Search order is taken to be table order. The store's `TablesValid` invariant keeps
  the line table in ascending `sequence` order, which is its `_order`, with distinct
  line ids and distinct contract ids. The constructor requires it and every switch
  preserves it. Contracts and exceptions are kept in their search order.
- The clock is a parameter. `today` is the `%Y-%m-%d` text of `datetime.now()`, taken
  once per call. The source reads the clock at every comparison, so a run across
  midnight is not modelled.
- The `ir.cron` scheduler is left out. Nothing models its timer, `nextcall`, or the
  way it calls `_switch_shift`. A job is a record with the fields the template code
  writes.
- The history's `description` field and the related fields are never written by the
  core, so they are left out.
- The create, write and unlink operations of lines, exceptions and contracts are
  left out. These records are inputs of the store.
- A rollback after an error is modelled as restoring the records that
  `switch_shift` writes. The framework's transaction is not modelled.
- The model follows the code, not a simpler reading of the behaviour. A contract
  with `k` exceptions gets `k` writes and `k` history rows, and the last exception
  decides its final scheduler. It does not get one row per contract with the first
  applying exception winning.
- `Rotation.ExceptionsFor` states the template and contract of what it keeps, and
  its length bound. That it keeps every matching exception is stated by
  `Rotation.ExceptionsForMembers`, and that it keeps their table order and
  multiplicity by `Rotation.ExceptionsForAppend` with `Rotation.ExceptionsForOne`.

## Findings

| source | as written | input that shows it | evidently intended | confidence | as-written member | corrected member |
|---|---|---|---|---|---|---|
| hr_working_shifts_switch/model/hr_working_template.py:213-226 | The `state` dictionary is created once, before the loop. The `cron_id` stored in it for one template is written to every later template of the same call. | `action_draft([10, 11])`: template 10 has no job and template 11 has job 1. Template 10 gets a new job 2, and template 11 is also given job 2, so its own job 1 is dropped. | each template keeps its own job, or gets the one created for it | medium, not executed | Lifecycle.DraftHandsOnCreatedJob | Lifecycle.DraftFixedKeepsLaterJob |
| hr_working_shifts_switch/model/hr_working_template.py:176-178 | When `action_draft` meets a template without a job, `_update_cron` passes the call's whole id list to `_create_cron`. The new job switches every template of the call. | `action_draft([11, 10])`: template 11 has job 1 and template 10 has none. Job 2 is created with args `[11, 10]`. After `action_done`, template 11 is in the `args` of two active jobs. | a job created for a template switches that template alone | medium, not executed | Lifecycle.DraftJobCoversWholeCall | Lifecycle.DraftAllFixedKeepsOwnJobs |
