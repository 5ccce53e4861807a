# Dungeon automation core, modelled in Dafny

This project models the control flow of a small Android game bot. The bot captures the
device screen over ADB and locates a picture template with OpenCV. Then it taps, waits
and moves on, following tasks read from JSON configuration files. Two orchestrators sit
on top:

- a daily pipeline that works through a list of configuration files;
- a multi-role pipeline that switches the game account from role to role with a macro
  and runs the daily pipeline for each role.

A cooperative stop flag, set from a GUI thread, can end any of these loops.

The modelled code is:

- `TemplateMatcher.find_template_in_image` and `TemplateMatcher.wait_and_click`
  (`fake_dungeon.py`);
- `DungeonAutomation.run_single_task` and `DungeonAutomation.run_all_tasks`
  (`fake_dungeon.py`);
- `run_daily_pipeline` and `CONFIG_FLOW` (`run_daily_pipeline.py`);
- `run_multi_role_pipeline`, `ROLES` and `SWITCH_MAX_RETRY` (`run_multirole_pipeline.py`).

Each routine becomes a method that returns the **trace of events** it produces. The
events are:

- screen captures, taps and sleeps;
- each poll of the stop flag, together with what it returned;
- each line handed to `log_func`;
- each call into a collaborator whose code is not part of this model: constructing a
  `DungeonAutomation`, `try_return_home`, `run_macro_by_name` and
  `run_all_tasks_with_retry`.

Each loop becomes a method proved equal to a recursive specification function. Each
loop-free body becomes a method proved equal to a plain function (`RunStep` to
`Dispatch`, `RunConfig` to `ConfigRound`). The properties the code promises are lemmas
about those functions: ordering, counting, early exit and
honouring the stop flag.

What the outside world does is given as input:

- the clock readings and capture results (`WaitOracle`);
- the matcher's best score and location (`Best`);
- whether each collaborator call raises or succeeds (`Outcome`, `RolePlan`);
- when another thread sets the stop flag (`StopFlag`).

The flag is set once and never cleared. So every interleaving of the setting thread
with a run is captured by the trace position from which `is_set()` returns true.

Modules, one file each:

- `Trace` (`trace.dfy`): events, the stop flag, event counting, and
  `StopDiscipline`. `StopDiscipline` has four parts:
  - every poll returns whether the flag is set at its own trace position;
  - nothing acts after a poll that saw the flag set;
  - such a poll means the flag is still set when the routine returns;
  - a routine entered with the flag already set does nothing.

  `Guarded(s, k)` says that every event of kind `k` in `s` comes right after a poll that
  saw the flag clear. With fresh polls, this means no such event happens once the flag
  is set.
- `TemplateMatcher` (`template_matcher.dfy`): template location and the
  `wait_and_click` polling loop.
- `TaskLoops` (`task_loops.dfy`): the loops of `run_single_task` and `run_all_tasks`,
  written over an abstract step and task semantics, with their generic properties.
- `DungeonAutomation` (`dungeon_automation.dfy`): the step dispatcher, and the two
  loops applied to configured tasks.
- `DailyPipeline` (`daily_pipeline.dfy`): `run_daily_pipeline`.
- `MultiRolePipeline` (`multirole_pipeline.dfy`): `run_multi_role_pipeline`.

The model follows the code, also where the code departs from its own docstrings and
comments, or from what a reader may expect:

- One may expect nothing below the task scheduler to be fatal. In the code, a
  `wait_and_click` step without a `"template"` key raises `KeyError`, and a `sleep`
  step with negative `seconds` makes `time.sleep` raise `ValueError`. Both escape
  `run_single_task` and `run_all_tasks`. The model has them end with `Raised`.
- One may expect every polling action to check the stop flag on each retry. The code's
  `wait_and_click` never looks at the flag, and polls until its own timeout.
  `DungeonAutomation.StepSilent` states this: a step never polls the flag.
- The docstring of `run_daily_pipeline` lists four stages, with BOSS before Mail. In
  the code the BOSS entry is commented out. The modelled list is the code's (see
  Findings).
- The docstring of `run_daily_pipeline` promises that failed tasks of a configuration
  are retried until every task succeeds, and the comment on `max_rounds` says that 0
  means no limit on rounds. The code passes `max_rounds=1`. The model follows the code
  (`DailyPipeline.DailyHomeBeforeRetry`).

## Model

| member | source | states |
|---|---|---|
| TemplateMatcher.MatchAcceptance | fake_dungeon.py:93-116 | A point comes back iff the template could be read, fits inside the screen in both directions, and the best score is at least the threshold (inclusive). The point is the top-left corner of the match plus half the template's width and height, rounded down. |
| TemplateMatcher.CentreInsideMatch | fake_dungeon.py:111-115 | When a non-empty template is matched inside the screen, the reported point lies inside the matched rectangle, and so on the screen. |
| TemplateMatcher.ThresholdMonotone | fake_dungeon.py:111 | A match accepted at one threshold is accepted, at the same point, at every lower threshold. |
| TemplateMatcher.Deadline | fake_dungeon.py:123 | Finds the first test of `time.time() - start < timeout` that fails. Every earlier test passes. |
| TemplateMatcher.WaitAndClick | fake_dungeon.py:118-142 | The polling loop produces exactly the events and result of the specification `WaitFrom`. |
| TemplateMatcher.WaitCounts | fake_dungeon.py:123-142 | Returns `True` with exactly one tap and `False` with none. On timeout, exactly one capture was attempted per loop iteration before the deadline. |
| TemplateMatcher.WaitClicksFirstMatch | fake_dungeon.py:124-137 | On success, the tap is the last event and lands on the point of the first capture that located the template. That capture came before the deadline, and every earlier capture failed or matched nothing. |
| TemplateMatcher.WaitFailsIffNoMatch | fake_dungeon.py:123-142 | Returns `False` iff no capture before the deadline located the template. A failed screenshot or an unreadable image does not end the loop: only the deadline does. |
| TemplateMatcher.NonPositiveTimeout | fake_dungeon.py:121-123 | With `timeout <= 0` the loop body never runs: no capture, no tap, result `False`. |
| TemplateMatcher.WaitDeviceOnly | fake_dungeon.py:118-142 | The loop only captures, sleeps and taps. It neither logs nor polls the stop flag. |
| TaskLoops.StepsLogDoneOnCompletion | fake_dungeon.py:171-196 | The task's completion line is logged exactly once when the step loop completes, and never otherwise. |
| TaskLoops.StepsSeeStopOnInterruption | fake_dungeon.py:171-174 | A poll sees the flag set exactly once if the task is interrupted, and never otherwise. |
| TaskLoops.StepsLastEvent | fake_dungeon.py:171-196 | The last event says how the task ended: the completion line, the interruption line, or the failed-click line. |
| TaskLoops.StepsDiscipline | fake_dungeon.py:171-174 | The step loop honours the stop flag (`StopDiscipline`): each poll reports the flag at its own position, and nothing acts after a poll that saw it set. While a step is left and a flag exists, each iteration opens with a poll of the flag at that position. Entered with the flag set and a step left, the loop is exactly that poll and the interruption line: no step runs and the completion line is not logged. |
| TaskLoops.StepsBegin | fake_dungeon.py:171-196 | Lists where each step that ran begins. At most one position per step, and one per step when the task completed. The first begins right after the first poll. Each step's events sit at its position, right after a poll that saw the flag clear at that position, and each step begins where the previous one and the next poll end. So no step runs at or after a position where the flag is set. |
| TaskLoops.StepsCount | fake_dungeon.py:171-196 | An event that no step produces, other than a poll, occurs only in the lines that close the task: the completion line, or the poll that saw the flag and the interruption line. |
| TaskLoops.StepsPollEach | fake_dungeon.py:171-172 | If the flag is never set and every step goes on, the task completes, and the flag was polled once before each step. |
| TaskLoops.StepsNeverRaise | fake_dungeon.py:171-196 | A task none of whose steps raises does not raise. |
| TaskLoops.StepsIgnoreLater | fake_dungeon.py:184-186 | A task that did not complete behaves the same whatever steps follow: no later step runs. |
| TaskLoops.BatchStartsInOrder | fake_dungeon.py:200-204 | The tasks started are a prefix of the configured tasks, in configuration order. |
| TaskLoops.BatchNeverRaises | fake_dungeon.py:200-204 | If no task raises, the batch does not raise. |
| TaskLoops.BatchStartsEvery | fake_dungeon.py:200-204 | If the flag is never set and no task raises, every configured task starts, in order, whether or not earlier tasks failed. |
| TaskLoops.BatchDiscipline | fake_dungeon.py:200-204 | The batch honours the stop flag, both between tasks and inside them. While a task is left and a flag exists, the next iteration opens with a poll of the flag at that position. Entered with the flag set and a task left, the batch is exactly that poll and the stop line. When each task opens with its own start line, every start line comes right after a poll that saw the flag clear. |
| DungeonAutomation.RunStep | fake_dungeon.py:176-194 | Each action branch produces the dispatcher's events and outcome (`Dispatch`). |
| DungeonAutomation.RunSingleTask | fake_dungeon.py:167-196 | The step loop produces exactly the events and ending of `SingleTask`. |
| DungeonAutomation.TaskStep | fake_dungeon.py:171-194 | One iteration of the step loop: the stop check, then one step. When the loop ends here, these are the task's last events and its ending. Otherwise the task goes on from the next step. |
| DungeonAutomation.RunBatchStep | fake_dungeon.py:201-204 | One iteration of `run_all_tasks`: the stop check, then one whole task. Says whether the loop goes on. |
| DungeonAutomation.RunTask | fake_dungeon.py:204 | Running a task from the batch produces what the batch's runner gives for that task at that trace position. |
| DungeonAutomation.RunAllTasks | fake_dungeon.py:198-204 | The task loop produces exactly the events and ending of `AllTasks`. |
| DungeonAutomation.StepOutcome | fake_dungeon.py:176-194 | A step raises iff it is malformed (no template, or a negative sleep). It ends the task iff it is a `wait_and_click` whose captures before the deadline all located nothing. A `sleep` or an unknown action always lets the task go on. |
| DungeonAutomation.StepSilent | fake_dungeon.py:176-194 | A step never polls the stop flag, so a `wait_and_click` polls until its own timeout. A step never logs a task's start or completion. A step that ends the task has logged the failed click last. |
| DungeonAutomation.StepDefaults | fake_dungeon.py:168-189 | Absent keys behave as timeout 30, threshold 0.8 and seconds 1. An unnamed task is named `"unnamed_task"`. |
| DungeonAutomation.SingleTaskStarts | fake_dungeon.py:168-169 | A task logs its own start line, once, and no other. |
| DungeonAutomation.SingleTaskCount | fake_dungeon.py:167-196 | An event that no step produces, other than a poll, occurs only in the start line and in the lines that close the task. |
| DungeonAutomation.SingleTaskEndings | fake_dungeon.py:171-196 | The completion line appears exactly once if the task completed, and never otherwise. A poll saw the flag set exactly once if the task was interrupted, and never otherwise. |
| DungeonAutomation.SingleTaskLastEvent | fake_dungeon.py:172-196 | The last line logged tells how the task ended: completion, interruption, or the failed click. |
| DungeonAutomation.SingleTaskDiscipline | fake_dungeon.py:171-174 | `run_single_task` honours the stop flag. The steps that ran, at most one per step and all of them when the task completed, each run right after the start line or the previous step, behind a poll that saw the flag clear at that position. So once a poll sees the flag set, no later step runs and the completion line is not logged. |
| DungeonAutomation.TaskNeverRaises | fake_dungeon.py:176-194 | A task without malformed steps never raises. |
| DungeonAutomation.PollBeforeEveryStep | fake_dungeon.py:171-172 | If the flag is never set and every step goes on, the task completes, and the flag was polled once before each step. |
| DungeonAutomation.UnfinishedIgnoresLaterSteps | fake_dungeon.py:184-186 | A task that failed, was interrupted or raised behaves the same with more steps appended. |
| DungeonAutomation.AllTasksInOrder | fake_dungeon.py:198-204 | `run_all_tasks` starts tasks in configuration order, each at most once. |
| DungeonAutomation.AllTasksRunEvery | fake_dungeon.py:200-204 | If the flag is never set and no step is malformed, every configured task starts, in order, and nothing raises. A failed task does not stop the batch. |
| DungeonAutomation.AllTasksDiscipline | fake_dungeon.py:200-204 | `run_all_tasks` honours the stop flag. Every task start line comes right after a poll that saw the flag clear, so no task starts once the flag is set. Entered with the flag set, it starts no task. |
| DailyPipeline.RunConfig | run_daily_pipeline.py:30-45 | One configuration's body produces its events. The calls stop at the one that raised, and the error line follows. |
| DailyPipeline.RunDailyPipeline | run_daily_pipeline.py:14-45 | The configuration loop produces exactly the events of `DailyFrom`. |
| DailyPipeline.ConfigStep | run_daily_pipeline.py:26-45 | One iteration of the configuration loop: the stop check, then one configuration's `try` block. Says whether the loop goes on. When it ends here, these are the loop's last events. |
| DailyPipeline.ConfigRoundLists | run_daily_pipeline.py:30-45 | One configuration's body loads that configuration only. It logs an error for that configuration iff a call raised. |
| DailyPipeline.ConfigRoundShape | run_daily_pipeline.py:30-42 | One configuration's body starts with its "using config" line. Its retry run comes right after a return home. |
| DailyPipeline.ConfigRoundAnnounced | run_daily_pipeline.py:30-32 | One configuration's body opens with a "using config" line, and its construction comes right after the line naming that configuration. |
| DailyPipeline.RoundsLoadInOrder | run_daily_pipeline.py:24-28 | The configurations loaded are a prefix of the list, in list order. |
| DailyPipeline.RoundsLoadEvery | run_daily_pipeline.py:24-45 | If the flag is never set, every configuration is loaded, in order. |
| DailyPipeline.RoundsReportFailing | run_daily_pipeline.py:44-45 | If the flag is never set, an error is logged for exactly the configurations whose block raised, in order. |
| DailyPipeline.RoundsPollEach | run_daily_pipeline.py:26 | If the flag is never set, it is polled once per configuration. |
| DailyPipeline.RoundsHomeBeforeRetry | run_daily_pipeline.py:35-42 | Every retry run follows a return home directly. |
| DailyPipeline.RoundsDiscipline | run_daily_pipeline.py:24-30 | The loop honours the stop flag. While a configuration is left and a flag exists, each iteration opens with a poll of the flag at that position. Entered with the flag set and a configuration left, the loop is exactly that poll and the stop line. When each configuration's body opens with its "using config" line, every such line comes right after a poll that saw the flag clear. |
| DailyPipeline.RoundsAnnounced | run_daily_pipeline.py:30-32 | When each configuration's body constructs right after the line naming it, so does the whole loop: every automation constructed comes right after the "using config" line of its own configuration. |
| DailyPipeline.DailyLoadsInOrder | run_daily_pipeline.py:24-28 | `run_daily_pipeline` constructs automations in `CONFIG_FLOW` order, each at most once. |
| DailyPipeline.DailyRunsEvery | run_daily_pipeline.py:24-45 | If the flag is never set, every configuration is constructed, in order, even after earlier ones raised. The errors logged are exactly those of the raising configurations. The flag is polled once per configuration. |
| DailyPipeline.DailyHomeBeforeRetry | run_daily_pipeline.py:35-42 | Each `run_all_tasks_with_retry` call has `max_rounds=1` and comes right after `try_return_home`. |
| DailyPipeline.DailyDiscipline | run_daily_pipeline.py:24-32 | `run_daily_pipeline` honours the stop flag. Every "using config" line comes right after a poll that saw the flag clear. Every automation constructed comes right after the line naming its configuration, which comes right after a poll that saw the flag clear at that position. So once the flag is seen set, no later configuration starts. |
| DailyPipeline.DailyRunsNoMacro | run_daily_pipeline.py:24-45 | The daily pipeline runs no switch macro and closes no role pipeline. |
| DailyPipeline.AsWrittenSkipsMail | run_daily_pipeline.py:4-11 | As written, `CONFIG_FLOW` has three entries, and the Mail configuration is never loaded. |
| DailyPipeline.ConfigFlowDistinct | run_daily_pipeline.py:4-11 | The four intended configuration paths are pairwise distinct. |
| DailyPipeline.DailyVisitsEachOnce | run_daily_pipeline.py:4-24 | The corrected list has four entries, and no configuration is loaded twice. If the flag is never set, all four are loaded, Mail third. |
| MultiRolePipeline.FirstOk | run_multirole_pipeline.py:66-85 | Gives the first attempt whose macro succeeds, or the number of attempts if none does. |
| MultiRolePipeline.TryOnce | run_multirole_pipeline.py:68-91 | One switch attempt: the stop check, the attempt line, the macro, then success, or failure followed by a return home. Says whether the attempt loop goes on. |
| MultiRolePipeline.SwitchRole | run_multirole_pipeline.py:66-91 | The attempt loop, with its `switched` flag, produces exactly the events and ending of `Attempts`. |
| MultiRolePipeline.AttemptsCounts | run_multirole_pipeline.py:66-91 | Macros are run at most `SWITCH_MAX_RETRY` times, stopping at the first success. There is one return home per failed macro, the last failed attempt included: all macros on failure, all but one on success. |
| MultiRolePipeline.AttemptsHomeAfterFailure | run_multirole_pipeline.py:84-91 | Each failed switch line comes right after its macro and right before a return home, and every return home comes right after a failed switch line. So each failed attempt is followed by its own return home before the next attempt. |
| MultiRolePipeline.AttemptsDiscipline | run_multirole_pipeline.py:68-70 | The attempt loop honours the stop flag. While an attempt is left and a flag exists, the next iteration opens with a poll of the flag at that position. Entered with the flag set and an attempt left, the loop is exactly that poll and the interruption line. Every attempt line comes right after a poll that saw the flag clear. |
| MultiRolePipeline.AttemptsBounded | run_multirole_pipeline.py:67 | The attempt loop runs at most as many macros as there are attempts. |
| MultiRolePipeline.AttemptsUninterrupted | run_multirole_pipeline.py:68-70 | If the flag is never set, the attempt loop is never interrupted. |
| MultiRolePipeline.SwitchSucceedsIffSomeMacroDoes | run_multirole_pipeline.py:66-97 | If the flag is never set, switching succeeds iff some attempt's macro succeeds. The number of macros run is the first successful attempt's number, or all attempts. |
| MultiRolePipeline.RunRoleTurn | run_multirole_pipeline.py:49-102 | One role's turn produces the events of `RoleTurn`: the first role's direct pipeline, or the switch attempts followed by the pipeline or a skip. |
| MultiRolePipeline.RolePipelineCount | run_multirole_pipeline.py:99-102 | One role's daily pipeline runs no macro and closes exactly one role. |
| MultiRolePipeline.RolePipelineDiscipline | run_multirole_pipeline.py:99-102 | One role's daily pipeline honours the stop flag. Unless the role's opening line is itself a "using config" line, every "using config" line comes right after a poll that saw the flag clear. |
| MultiRolePipeline.FirstRoleSkipsSwitch | run_multirole_pipeline.py:55-61 | The role at index 0 runs no switch macro, is never stopped at the attempt level, and its daily pipeline runs once. |
| MultiRolePipeline.AfterSwitchCount | run_multirole_pipeline.py:93-102 | What follows the attempts closes a role pipeline iff switching succeeded, and runs no macro. |
| MultiRolePipeline.AfterSwitchDiscipline | run_multirole_pipeline.py:93-102 | What follows the attempts honours the stop flag, and logs no attempt line that a clear poll did not just precede. |
| MultiRolePipeline.LaterRoleRunsIffSwitched | run_multirole_pipeline.py:66-102 | A later role's daily pipeline runs iff switching succeeded. The turn stops the function iff an attempt saw the flag. It runs exactly the attempts' macros, at most `SWITCH_MAX_RETRY`. |
| MultiRolePipeline.TurnDiscipline | run_multirole_pipeline.py:45-102 | Each role's turn honours the stop flag. With a flag that can be set, every switch attempt line comes right after a poll that saw the flag clear. |
| MultiRolePipeline.RoleStep | run_multirole_pipeline.py:44-102 | One iteration of the role loop: the stop check, then the role's turn. Says whether the loop goes on. |
| MultiRolePipeline.RunMultiRolePipeline | run_multirole_pipeline.py:24-102 | The function produces exactly the events of `MultiRoleWith`, and lists the roles whose pipeline ran. |
| MultiRolePipeline.RunRoles | run_multirole_pipeline.py:44-102 | The loop over the roles produces exactly the events of `RolesFrom`, and lists the roles whose pipeline ran. |
| MultiRolePipeline.RolesInOrder | run_multirole_pipeline.py:44 | The roles whose pipeline ran are distinct and ascending, and there are at most as many as roles. |
| MultiRolePipeline.RolesRunSelected | run_multirole_pipeline.py:44-102 | If the flag is never set and no turn stops, the pipelines that run are exactly those of the turns that run one. |
| MultiRolePipeline.RolesCloseEach | run_multirole_pipeline.py:60-102 | The trace closes one role pipeline for each role reported as run. |
| MultiRolePipeline.RolesMacroBound | run_multirole_pipeline.py:44-91 | The loop runs at most `SWITCH_MAX_RETRY` macros per role after the first. |
| MultiRolePipeline.RolesDiscipline | run_multirole_pipeline.py:45-70 | The role loop honours the stop flag at both levels. While a role is left and a flag exists, the next iteration opens with a poll of the flag at that position. Entered with the flag set, no role runs, and with a role left the loop is exactly that poll and the stop line. Every switch attempt line comes right after a poll that saw the flag clear. |
| MultiRolePipeline.InitFailureRunsNothing | run_multirole_pipeline.py:38-42 | If constructing the role-switch automation raises, there is no macro, return home, retry run, other configuration or pipeline. |
| MultiRolePipeline.MultiRoleInOrder | run_multirole_pipeline.py:11-44 | Roles are processed in list order. Daily pipelines run for distinct roles in ascending order, at most `len(ROLES)` of them, each closed once. |
| MultiRolePipeline.RoleRuns | run_multirole_pipeline.py:55-97 | Says whether each role's pipeline runs when nothing stops the function: the first always, a later one iff some switch macro succeeds. |
| MultiRolePipeline.MultiRoleRunsSwitched | run_multirole_pipeline.py:44-102 | If the flag is never set and construction succeeded, the first role's pipeline runs, and a later role's runs iff one of its macros succeeds. The others are skipped and the loop goes on. |
| MultiRolePipeline.MultiRoleMacroBound | run_multirole_pipeline.py:21-91 | The whole function runs at most `SWITCH_MAX_RETRY * (len(roles) - 1)` switch macros. |
| MultiRolePipeline.MultiRoleDiscipline | run_multirole_pipeline.py:38-70 | Before the first poll, the only action is constructing the role-switch automation. After it, the role loop honours the stop flag, with every poll reporting the flag at its own position. No switch attempt line comes at or after a position where the flag is set. |
| MultiRolePipeline.MultiRoleStoppedAtStart | run_multirole_pipeline.py:44-47 | If the flag is set when the role loop first checks it, no role's pipeline runs. After a successful construction with at least one role, the trace is exactly the load, the poll that saw the flag, and the stop line. |

## Left out

- Printing to standard output (`print` in `TemplateMatcher`) is not traced. Only the lines passed to `log_func` are, and as message constructors, not formatted text.
- `ADBDevice` (subprocess calls, file writes, random delays) becomes the `Screenshot`, `Tap` and `Sleep` events. What a capture yields is an oracle input (`Frame`).
- OpenCV (`imread`, `cvtColor`, `matchTemplate`, `minMaxLoc`) becomes oracle inputs: the dimensions, the best score as a real, and its location. Floating-point scores are real numbers.
- Wall-clock time is a sequence of clock readings, one per test of the loop condition. Sleep durations are not modelled, and `interval` never appears.
- TemplateMatcher.WaitAndClick: requires that some clock reading in the oracle lies past the deadline. A clock that never advances would make the source loop forever, and this is not modelled.
- The bodies of `run_macro_by_name`, `try_return_home` and `run_all_tasks_with_retry` are not part of this model. Each call is a single event, with its outcome as an input, and their own stop-flag polls and log lines are not traced.
- An exception raised by `run_macro_by_name` or `try_return_home` inside `run_multi_role_pipeline` would propagate out of the function. This is not modelled: those calls are assumed to return.
- `DungeonAutomation.__init__` (JSON loading, ADB connection) is reduced to "construction succeeds or raises": `Outcome.LoadFails` in the daily pipeline, `init` in the multi-role pipeline.
- MultiRolePipeline.MultiRoleDiscipline: over the whole function's trace it does not single out, for each later role, the poll before the role's turn. `RolesDiscipline` states that poll for every iteration of the role loop.
- The `DungeonAutomation` class in `fake_dungeon.py` defines none of `try_return_home`, `run_macro_by_name` and `run_all_tasks_with_retry`. As written, each call would raise `AttributeError`: every configuration's `try` block would end in its error line, and `run_multi_role_pipeline` would raise at its first switch macro. The model treats the three as collaborators defined elsewhere, which are not part of this model, with their outcomes as inputs.
- MultiRolePipeline.RunMultiRolePipeline: the `ran` result (which roles' pipelines ran) is instrumentation for stating properties. The source returns `None`.
- MultiRolePipeline.MultiRoleMacroBound: requires a non-empty role list. `ROLES` has five entries, and for an empty list the bound `SWITCH_MAX_RETRY * (len - 1)` is not meaningful.
- The multi-role model runs the daily pipeline over the corrected four-entry `CONFIG_FLOW` (see Findings). The `DailyPipeline` lemmas about `DailyFrom` hold for any list, including the one as written.
- The role display names in `ROLES` repeat, and nothing in the model depends on them.
- `main_Gui.py` (Tk GUI) and `worker_thread.py` (background thread and mode dispatch) are not part of this model. The stop flag they set is the `StopFlag` input.

## Findings

| source | as written | input that shows it | evidently intended | confidence | as-written member | corrected member |
|---|---|---|---|---|---|---|
| run_daily_pipeline.py:4-11 | A comma is missing after `"configs/config_Mail.json"`. Python joins adjacent string literals, so `CONFIG_FLOW` has three entries, the third being `"configs/config_Mail.jsonconfigs/config_roles.json"`. | Any call of `run_daily_pipeline`, for any outcomes and stop flag: the Mail configuration is never loaded. The roles configuration is not loaded on its own either; only the joined name is. | Four configurations, numbered 1 to 4 in the comments: daily personal, daily team, Mail, roles. | not executed | DailyPipeline.AsWrittenSkipsMail | DailyPipeline.DailyVisitsEachOnce |
