/**
 * `DungeonAutomation` of fake_dungeon.py: the step dispatcher, `run_single_task`
 * and `run_all_tasks`.
 *
 * A task comes from the JSON configuration as a dictionary; each field that the
 * source reads with `.get(key, default)` or `[key]` is an `Option` here, `None`
 * meaning the key is absent. Each `wait_and_click` step is given its own clock and
 * capture oracle. Python exceptions that escape a task (`KeyError` for a step
 * without "template", `ValueError` from `time.sleep` with a negative duration) are
 * the `Raised` outcome; they also end `run_all_tasks`.
 */
module DungeonAutomation {
  import opened Trace
  import opened TemplateMatcher
  import opened TaskLoops

  const WaitAndClickAction := "wait_and_click"
  const SleepAction := "sleep"
  const DefaultTaskName := "unnamed_task"
  const DefaultTimeout: real := 30.0
  const DefaultSeconds: real := 1.0

  datatype StepConf = StepConf(
    action: Option<string>,
    template: Option<string>,
    timeout: Option<real>,
    threshold: Option<real>,
    seconds: Option<real>)

  /** A task configuration; an absent "steps" key is the empty list. */
  datatype TaskConf = TaskConf(name: Option<string>, steps: seq<StepConf>)

  function NameOf(task: TaskConf): string {
    task.name.GetOr(DefaultTaskName)
  }

  function TimeoutOf(step: StepConf): real {
    step.timeout.GetOr(DefaultTimeout)
  }

  function ThresholdOf(step: StepConf): real {
    step.threshold.GetOr(DefaultThreshold)
  }

  function SecondsOf(step: StepConf): real {
    step.seconds.GetOr(DefaultSeconds)
  }

  /** The step's oracle lets the polling loop reach its deadline, when the step polls at all. */
  predicate Covered(step: StepConf, o: WaitOracle) {
    step.action == Some(WaitAndClickAction) && step.template.Some? ==> Expires(o, TimeoutOf(step))
  }

  /** One oracle per step, each covering its step. */
  predicate TaskCovered(task: TaskConf, devices: seq<WaitOracle>) {
    && |devices| == |task.steps|
    && forall i :: 0 <= i < |task.steps| ==> Covered(task.steps[i], devices[i])
  }

  /** What one step does: the body of `run_single_task`'s loop after the stop check. */
  function Dispatch(step: StepConf, o: WaitOracle): StepRun
    requires Covered(step, o)
  {
    if step.action == Some(WaitAndClickAction) then
      if step.template.None? then StepRun([], Raise(KeyError("template")))
      else
        var w := WaitFrom(o, TimeoutOf(step), ThresholdOf(step), 0);
        if w.clicked then StepRun(w.events, Next)
        else StepRun(w.events + [Log(ClickFailed(step.template.value))], Abort)
    else if step.action == Some(SleepAction) then
      if SecondsOf(step) < 0.0 then StepRun([Log(Sleeping(SecondsOf(step)))], Raise(ValueError))
      else StepRun([Log(Sleeping(SecondsOf(step))), Sleep], Next)
    else StepRun([Log(UnknownAction(step.action))], Next)
  }

  /** The dispatcher applied to the task's own steps, each with its own oracle. */
  function Dispatcher(task: TaskConf, devices: seq<WaitOracle>): nat -> StepRun
    requires TaskCovered(task, devices)
  {
    (i: nat) => if i < |task.steps| then Dispatch(task.steps[i], devices[i]) else StepRun([], Next)
  }

  /** The events of `run_single_task` from step `i` on, the run being at trace position `at`. */
  function TaskFrom(task: TaskConf, devices: seq<WaitOracle>, flag: StopFlag, at: nat, i: nat): TaskRun
    requires TaskCovered(task, devices) && i <= |task.steps|
  {
    Steps(Dispatcher(task, devices), |task.steps|, NameOf(task), flag, at, i)
  }

  function SingleTask(task: TaskConf, devices: seq<WaitOracle>, flag: StopFlag, at: nat): TaskRun
    requires TaskCovered(task, devices)
  {
    var r := TaskFrom(task, devices, flag, at + 1, 0);
    TaskRun([Log(TaskStart(NameOf(task)))] + r.events, r.end)
  }

  /**
   * The `if action == ... elif ... else` block of `run_single_task`: a
   * `wait_and_click` step reads its "template" key (a `KeyError` when absent) and
   * polls with the step's timeout and threshold, a failure being logged; a `sleep`
   * step logs and sleeps; any other action is logged and skipped.
   */
  method RunStep(step: StepConf, o: WaitOracle) returns (events: seq<Event>, end: StepEnd)
    requires Covered(step, o)
    ensures StepRun(events, end) == Dispatch(step, o)
  {
    if step.action == Some(WaitAndClickAction) {
      if step.template.None? {
        return [], Raise(KeyError("template"));
      }
      var tpl := step.template.value;
      var ok;
      events, ok := WaitAndClick(o, TimeoutOf(step), ThresholdOf(step));
      if !ok {
        events := events + [Log(ClickFailed(tpl))];
        end := Abort;
        return;
      }
      end := Next;
    } else if step.action == Some(SleepAction) {
      var sec := SecondsOf(step);
      events := [Log(Sleeping(sec))];
      if sec < 0.0 {
        end := Raise(ValueError);
        return;
      }
      events := events + [Sleep];
      end := Next;
    } else {
      events := [Log(UnknownAction(step.action))];
      end := Next;
    }
  }

  /**
   * One iteration of `run_single_task`'s loop over the steps, at trace position
   * `pos`: the stop check, then step `i`. Says whether the loop goes on, and
   * otherwise how the task ended.
   */
  method TaskStep(task: TaskConf, devices: seq<WaitOracle>, flag: StopFlag, pos: nat, i: nat)
    returns (events: seq<Event>, goOn: bool, end: TaskEnd)
    requires TaskCovered(task, devices) && i < |task.steps|
    ensures !goOn ==> TaskFrom(task, devices, flag, pos, i) == TaskRun(events, end)
    ensures goOn ==> TaskFrom(task, devices, flag, pos, i) == Led(events, TaskFrom(task, devices, flag, pos + |events|, i + 1))
  {
    var chk: seq<Event> := [];
    if flag.Flag? {
      var stop := flag.IsSet(pos);
      if stop {
        return [StopCheck(true), Log(TaskInterrupted)], false, Interrupted;
      }
      chk := [StopCheck(false)];
    }
    assert chk == Check(flag, pos).events;
    var ev, stepEnd := RunStep(task.steps[i], devices[i]);
    assert StepRun(ev, stepEnd) == Dispatcher(task, devices)(i);
    events := chk + ev;
    match stepEnd {
      case Abort =>
        return events, false, Failed;
      case Raise(e) =>
        return events, false, Raised(e);
      case Next =>
        goOn, end := true, Completed;
    }
  }

  /**
   * `DungeonAutomation.run_single_task`, started at trace position `at`: log the
   * start, then for each step poll the stop flag (stop: log and return), run the
   * step (one whose `wait_and_click` failed, or that raised, ends the task), and
   * log completion.
   */
  method RunSingleTask(task: TaskConf, devices: seq<WaitOracle>, flag: StopFlag, at: nat)
    returns (events: seq<Event>, end: TaskEnd)
    requires TaskCovered(task, devices)
    ensures TaskRun(events, end) == SingleTask(task, devices, flag, at)
  {
    var name := NameOf(task);
    events := [Log(TaskStart(name))];
    var i, pos := 0, at + 1;
    while i < |task.steps|
      invariant i <= |task.steps| && pos == at + |events|
      invariant SingleTask(task, devices, flag, at) == Led(events, TaskFrom(task, devices, flag, pos, i))
    {
      var ev, goOn, e := TaskStep(task, devices, flag, pos, i);
      if !goOn {
        events, end := events + ev, e;
        return;
      }
      LedLed(events, ev, TaskFrom(task, devices, flag, pos + |ev|, i + 1));
      events, pos, i := events + ev, pos + |ev|, i + 1;
    }
    events := events + [Log(TaskDone(name))];
    end := Completed;
  }

  /** The events one step can produce: device actions and the dispatcher's own log lines. */
  predicate StepEvent(e: Event) {
    || e == Screenshot || e == Sleep || e.Tap?
    || (e.Log? && (e.msg.ClickFailed? || e.msg.Sleeping? || e.msg.UnknownAction?))
  }

  lemma DispatchEvents(step: StepConf, o: WaitOracle)
    requires Covered(step, o)
    ensures forall e :: e in Dispatch(step, o).events ==> StepEvent(e)
  {
    if step.action == Some(WaitAndClickAction) && step.template.Some? {
      WaitDeviceOnly(o, TimeoutOf(step), ThresholdOf(step), 0);
    }
  }

  /**
   * A step never polls the stop flag (a `wait_and_click` keeps polling the screen
   * until its own timeout, whatever the flag) and logs neither the start nor the
   * completion of a task; a step that aborts has logged the failed click last.
   */
  lemma StepSilent(step: StepConf, o: WaitOracle, name: string)
    requires Covered(step, o)
    ensures var s := Dispatch(step, o);
      && Count(s.events, Polls) == 0 && Count(s.events, StopsSeen) == 0
      && Count(s.events, Logged(TaskDone(name))) == 0 && Count(s.events, StartLogs) == 0
      && (s.end.Abort? ==> s.events != [] && s.events[|s.events| - 1] == Log(ClickFailed(step.template.value)))
  {
    StepCountNone(step, o, Polls);
    StepCountNone(step, o, StopsSeen);
    StepCountNone(step, o, Logged(TaskDone(name)));
    StepCountNone(step, o, StartLogs);
  }

  /** StepSilent for one kind of event. */
  lemma StepCountNone(step: StepConf, o: WaitOracle, k: Kind)
    requires Covered(step, o)
    requires k.Polls? || k.StopsSeen? || k.StartLogs? || (k.Logged? && k.msg.TaskDone?)
    ensures Count(Dispatch(step, o).events, k) == 0
  {
    var ev := Dispatch(step, o).events;
    DispatchEvents(step, o);
    forall e | e in ev
      ensures !Is(e, k)
    {
      assert StepEvent(e);
    }
    CountNone(ev, k);
  }

  /** The facts about the dispatcher that the loop's properties below rely on. */
  lemma DispatcherFacts(task: TaskConf, devices: seq<WaitOracle>)
    requires TaskCovered(task, devices)
    ensures var step, n := Dispatcher(task, devices), |task.steps|;
      && NoneOf(step, n, Polls) && NoneOf(step, n, StopsSeen) && NoneOf(step, n, Logged(TaskDone(NameOf(task))))
      && NoneOf(step, n, StartLogs) && forall j: nat :: j < n ==> AbortLogged(step(j))
  {
    forall j: nat | j < |task.steps|
      ensures var s := Dispatcher(task, devices)(j);
        && Count(s.events, Polls) == 0 && Count(s.events, StopsSeen) == 0
        && Count(s.events, Logged(TaskDone(NameOf(task)))) == 0 && Count(s.events, StartLogs) == 0
        && AbortLogged(s)
    {
      StepSilent(task.steps[j], devices[j], NameOf(task));
    }
  }

  /** Starting a task logs its own name and no other task's. */
  lemma SingleTaskStarts(task: TaskConf, devices: seq<WaitOracle>, flag: StopFlag, at: nat)
    requires TaskCovered(task, devices)
    ensures Starts(SingleTask(task, devices, flag, at).events) == [NameOf(task)]
  {
    var r := TaskFrom(task, devices, flag, at + 1, 0);
    DispatcherFacts(task, devices);
    StepsStartNothing(Dispatcher(task, devices), |task.steps|, NameOf(task), flag, at + 1, 0);
    StartsNone(r.events);
    StartsAppend([Log(TaskStart(NameOf(task)))], r.events);
    assert [Log(TaskStart(NameOf(task)))][1..] == [];
  }

  /**
   * A kind of event that no step produces occurs in a task only in its start line
   * and in what the step loop adds when it ends the task.
   */
  lemma SingleTaskCount(task: TaskConf, devices: seq<WaitOracle>, flag: StopFlag, at: nat, k: Kind)
    requires TaskCovered(task, devices) && NoneOf(Dispatcher(task, devices), |task.steps|, k) && k != Polls
    ensures var r := SingleTask(task, devices, flag, at);
      Count(r.events, k) == Count([Log(TaskStart(NameOf(task)))], k) + Count(Closing(r.end, NameOf(task)), k)
  {
    var r := TaskFrom(task, devices, flag, at + 1, 0);
    StepsCount(Dispatcher(task, devices), |task.steps|, NameOf(task), flag, at + 1, 0, k);
    CountAppend([Log(TaskStart(NameOf(task)))], r.events, k);
  }

  /**
   * The task's completion line is logged exactly when it completes, once; a poll
   * that saw the flag set is the way, and the only way, a task is interrupted.
   */
  lemma SingleTaskEndings(task: TaskConf, devices: seq<WaitOracle>, flag: StopFlag, at: nat)
    requires TaskCovered(task, devices)
    ensures var r := SingleTask(task, devices, flag, at);
      && Count(r.events, Logged(TaskDone(NameOf(task)))) == (if r.end == Completed then 1 else 0)
      && Count(r.events, StopsSeen) == (if r.end == Interrupted then 1 else 0)
  {
    var name := NameOf(task);
    DispatcherFacts(task, devices);
    SingleTaskCount(task, devices, flag, at, Logged(TaskDone(name)));
    SingleTaskCount(task, devices, flag, at, StopsSeen);
    ClosingCounts(name);
    CountOne(Log(TaskStart(name)), Logged(TaskDone(name)));
    CountOne(Log(TaskStart(name)), StopsSeen);
  }

  /** The last line a task logs says how it ended. */
  lemma SingleTaskLastEvent(task: TaskConf, devices: seq<WaitOracle>, flag: StopFlag, at: nat)
    requires TaskCovered(task, devices)
    ensures var r := SingleTask(task, devices, flag, at);
      && (r.end.Completed? ==> r.events[|r.events| - 1] == Log(TaskDone(NameOf(task))))
      && (r.end.Interrupted? ==> r.events[|r.events| - 1] == Log(TaskInterrupted))
      && (r.end.Failed? ==> r.events[|r.events| - 1].Log? && r.events[|r.events| - 1].msg.ClickFailed?)
  {
    DispatcherFacts(task, devices);
    StepsLastEvent(Dispatcher(task, devices), |task.steps|, NameOf(task), flag, at + 1, 0);
  }

  /**
   * A task honours the stop flag (see Trace.StopDiscipline). Every step that
   * runs begins right after its own poll, which found the flag clear: the steps
   * run in order, one after the other, at the positions `Begins` gives, and no
   * step begins once the flag is set. A task that completes ran all its steps.
   */
  lemma SingleTaskDiscipline(task: TaskConf, devices: seq<WaitOracle>, flag: StopFlag, at: nat)
    requires TaskCovered(task, devices)
    ensures var r := SingleTask(task, devices, flag, at);
      var b := Begins(Dispatcher(task, devices), |task.steps|, flag, at + 1, 0);
      && StopDiscipline(flag, at, r.events)
      && |b| <= |task.steps| && (r.end == Completed ==> |b| == |task.steps|)
      && BeginsChecked(Dispatcher(task, devices), 0, flag, at, r.events, b)
  {
    var start := [Log(TaskStart(NameOf(task)))];
    DispatcherFacts(task, devices);
    StepsDiscipline(Dispatcher(task, devices), |task.steps|, NameOf(task), flag, at + 1, 0);
    StepsBegin(Dispatcher(task, devices), |task.steps|, NameOf(task), flag, at + 1, 0);
    BeginsShift(Dispatcher(task, devices), 0, flag, at, start, TaskFrom(task, devices, flag, at + 1, 0).events,
      Begins(Dispatcher(task, devices), |task.steps|, flag, at + 1, 0));
    CountOne(start[0], Polls);
    assert start[1..] == [];
    DisciplineLogs(flag, at, start);
    DisciplineAppend(flag, at, start, TaskFrom(task, devices, flag, at + 1, 0).events);
  }

  /** A step that the source cannot run without raising: a `wait_and_click` without template, a negative sleep. */
  predicate Malformed(step: StepConf) {
    || (step.action == Some(WaitAndClickAction) && step.template.None?)
    || (step.action == Some(SleepAction) && SecondsOf(step) < 0.0)
  }

  /**
   * How a step ends: it raises exactly when it is malformed, and it ends the task
   * exactly when it is a `wait_and_click` none of whose captures before the
   * deadline located the template; a sleep or an unknown action always goes on.
   */
  lemma StepOutcome(step: StepConf, o: WaitOracle)
    requires Covered(step, o)
    ensures Dispatch(step, o).end.Raise? <==> Malformed(step)
    ensures Dispatch(step, o).end.Abort?
      <==> && step.action == Some(WaitAndClickAction) && step.template.Some?
           && forall j :: 0 <= j < Deadline(o, TimeoutOf(step), 0) ==> Locate(o.polls[j].frame, ThresholdOf(step)).None?
    ensures step.action != Some(WaitAndClickAction) && !Malformed(step) ==> Dispatch(step, o).end == Next
  {
    if step.action == Some(WaitAndClickAction) && step.template.Some? {
      WaitFailsIffNoMatch(o, TimeoutOf(step), ThresholdOf(step), 0);
    }
  }

  /** A task without malformed steps never raises. */
  lemma TaskNeverRaises(task: TaskConf, devices: seq<WaitOracle>, flag: StopFlag, at: nat)
    requires TaskCovered(task, devices) && forall j :: 0 <= j < |task.steps| ==> !Malformed(task.steps[j])
    ensures !SingleTask(task, devices, flag, at).end.Raised?
  {
    forall j: nat | j < |task.steps|
      ensures !Dispatcher(task, devices)(j).end.Raise?
    {
      StepOutcome(task.steps[j], devices[j]);
    }
    StepsNeverRaise(Dispatcher(task, devices), |task.steps|, NameOf(task), flag, at + 1, 0);
  }

  /** Every step of the task goes on. */
  predicate AllGoOn(task: TaskConf, devices: seq<WaitOracle>)
    requires TaskCovered(task, devices)
  {
    forall j :: 0 <= j < |task.steps| ==> Dispatch(task.steps[j], devices[j]).end.Next?
  }

  /**
   * The flag is polled before every step: with a flag that is never set and steps
   * that all go on, the task completes, having polled the flag once per step.
   */
  lemma PollBeforeEveryStep(task: TaskConf, devices: seq<WaitOracle>, flag: StopFlag, at: nat)
    requires TaskCovered(task, devices) && AllGoOn(task, devices) && flag.NeverSet()
    ensures var r := SingleTask(task, devices, flag, at);
      r.end == Completed && Count(r.events, Polls) == (if flag.Flag? then |task.steps| else 0)
  {
    var r := TaskFrom(task, devices, flag, at + 1, 0);
    DispatcherFacts(task, devices);
    StepsPollEach(Dispatcher(task, devices), |task.steps|, NameOf(task), flag, at + 1, 0);
    CountAppend([Log(TaskStart(NameOf(task)))], r.events, Polls);
    CountOne(Log(TaskStart(NameOf(task))), Polls);
  }

  /**
   * A task that did not complete ran none of the steps after the one that ended
   * it: appending steps to it (with their oracles) changes nothing.
   */
  lemma UnfinishedIgnoresLaterSteps(
    task: TaskConf, devices: seq<WaitOracle>, more: seq<StepConf>, moreDevices: seq<WaitOracle>, flag: StopFlag, at: nat)
    requires TaskCovered(task, devices) && TaskCovered(TaskConf(task.name, more), moreDevices)
    requires SingleTask(task, devices, flag, at).end != Completed
    ensures TaskCovered(TaskConf(task.name, task.steps + more), devices + moreDevices)
    ensures SingleTask(TaskConf(task.name, task.steps + more), devices + moreDevices, flag, at)
         == SingleTask(task, devices, flag, at)
  {
    var longer := TaskConf(task.name, task.steps + more);
    var all := devices + moreDevices;
    assert TaskCovered(longer, all) by {
      forall i | 0 <= i < |longer.steps|
        ensures Covered(longer.steps[i], all[i])
      {
        if i >= |task.steps| {
          assert longer.steps[i] == more[i - |task.steps|] && all[i] == moreDevices[i - |task.steps|];
        }
      }
    }
    forall j: nat | j < |task.steps|
      ensures Dispatcher(longer, all)(j) == Dispatcher(task, devices)(j)
    {
      assert longer.steps[j] == task.steps[j] && all[j] == devices[j];
    }
    StepsIgnoreLater(Dispatcher(task, devices), |task.steps|, Dispatcher(longer, all), |longer.steps|,
      NameOf(task), flag, at + 1, 0);
  }

  /** The defaults of `run_single_task`: absent keys behave as the documented values. */
  lemma StepDefaults(step: StepConf, o: WaitOracle)
    requires step.timeout.None? && step.threshold.None? && step.seconds.None?
    requires Covered(step, o)
    ensures var explicit := step.(timeout := Some(30.0), threshold := Some(0.8), seconds := Some(1.0));
      Covered(explicit, o) && Dispatch(step, o) == Dispatch(explicit, o)
    ensures NameOf(TaskConf(None, [])) == "unnamed_task"
  {
  }

  // ---------------------------------------------------------------------------
  // run_all_tasks

  /** One list of oracles per configured task. */
  predicate BatchCovered(tasks: seq<TaskConf>, devices: seq<seq<WaitOracle>>) {
    && |devices| == |tasks|
    && forall u :: 0 <= u < |tasks| ==> TaskCovered(tasks[u], devices[u])
  }

  /** `run_single_task` applied to the configured tasks. */
  function TaskRunner(tasks: seq<TaskConf>, devices: seq<seq<WaitOracle>>, flag: StopFlag): (nat, nat) -> TaskRun
    requires BatchCovered(tasks, devices)
  {
    (u: nat, pos: nat) => if u < |tasks| then SingleTask(tasks[u], devices[u], flag, pos) else TaskRun([], Completed)
  }

  function AllTasks(tasks: seq<TaskConf>, devices: seq<seq<WaitOracle>>, flag: StopFlag, at: nat): BatchRun
    requires BatchCovered(tasks, devices)
  {
    Batch(TaskRunner(tasks, devices, flag), |tasks|, flag, at, 0)
  }

  /** The configured names of the tasks, defaults included. */
  function Names(tasks: seq<TaskConf>): (names: seq<string>)
    ensures |names| == |tasks| && forall u :: 0 <= u < |tasks| ==> names[u] == NameOf(tasks[u])
  {
    seq(|tasks|, u requires 0 <= u < |tasks| => NameOf(tasks[u]))
  }

  /**
   * `run` gives what `run_single_task` does on each configured task. The methods
   * below are stated for such a `run`, so that their proofs do not look inside
   * the tasks; TaskRunner is one (RunnerOfTasks).
   */
  ghost predicate IsRunner(run: (nat, nat) -> TaskRun, tasks: seq<TaskConf>, devices: seq<seq<WaitOracle>>, flag: StopFlag)
    requires BatchCovered(tasks, devices)
  {
    forall u: nat, pos: nat {:trigger SingleTask(tasks[u], devices[u], flag, pos)} ::
      u < |tasks| ==> run(u, pos) == SingleTask(tasks[u], devices[u], flag, pos)
  }

  lemma RunnerOfTasks(tasks: seq<TaskConf>, devices: seq<seq<WaitOracle>>, flag: StopFlag)
    requires BatchCovered(tasks, devices)
    ensures Runs(TaskRunner(tasks, devices, flag), tasks, devices, flag)
  {
  }

  /** The tasks come with their oracles, and `run` runs them. */
  ghost predicate Runs(run: (nat, nat) -> TaskRun, tasks: seq<TaskConf>, devices: seq<seq<WaitOracle>>, flag: StopFlag) {
    BatchCovered(tasks, devices) && IsRunner(run, tasks, devices, flag)
  }

  /** `run_single_task` on task `t`, from trace position `pos`: what `run` says it does. */
  method RunTask(tasks: seq<TaskConf>, devices: seq<seq<WaitOracle>>, flag: StopFlag, pos: nat, t: nat,
                 ghost run: (nat, nat) -> TaskRun)
    returns (events: seq<Event>, end: TaskEnd)
    requires Runs(run, tasks, devices, flag) && t < |tasks|
    ensures TaskRun(events, end) == run(t, pos)
  {
    events, end := RunSingleTask(tasks[t], devices[t], flag, pos);
  }

  /** One iteration of `run_all_tasks`'s loop: the stop check, then the task. */
  method RunBatchStep(tasks: seq<TaskConf>, devices: seq<seq<WaitOracle>>, flag: StopFlag, pos: nat, t: nat,
                      ghost run: (nat, nat) -> TaskRun)
    returns (events: seq<Event>, goOn: bool, raised: Option<PyError>)
    requires Runs(run, tasks, devices, flag) && t < |tasks|
    ensures !goOn ==> Batch(run, |tasks|, flag, pos, t) == BatchRun(events, raised)
    ensures goOn ==> Batch(run, |tasks|, flag, pos, t) == Then(events, Batch(run, |tasks|, flag, pos + |events|, t + 1))
  {
    var chk: seq<Event> := [];
    if flag.Flag? {
      var stop := flag.IsSet(pos);
      if stop {
        return [StopCheck(true), Log(BatchStopped)], false, None;
      }
      chk := [StopCheck(false)];
    }
    assert chk == Check(flag, pos).events;
    var ev, end := RunTask(tasks, devices, flag, pos + |chk|, t, run);
    events := chk + ev;
    if end.Raised? {
      return events, false, Some(end.error);
    }
    BatchUnfold(run, |tasks|, flag, pos, t, events);
    goOn, raised := true, None;
  }

  /**
   * `DungeonAutomation.run_all_tasks`, started at trace position `at`: run the
   * configured tasks in order, whatever way each ends, polling the flag before
   * each; an exception escaping a task ends the run.
   */
  method RunAllTasks(tasks: seq<TaskConf>, devices: seq<seq<WaitOracle>>, flag: StopFlag, at: nat,
                     ghost run: (nat, nat) -> TaskRun)
    returns (events: seq<Event>, raised: Option<PyError>)
    requires Runs(run, tasks, devices, flag)
    ensures BatchRun(events, raised) == Batch(run, |tasks|, flag, at, 0)
  {
    events, raised := [], None;
    var t, pos := 0, at;
    while t < |tasks|
      invariant t <= |tasks| && pos == at + |events|
      invariant Batch(run, |tasks|, flag, at, 0) == Then(events, Batch(run, |tasks|, flag, pos, t))
    {
      var ev, goOn, r := RunBatchStep(tasks, devices, flag, pos, t, run);
      if !goOn {
        events, raised := events + ev, r;
        return;
      }
      ThenThen(events, ev, Batch(run, |tasks|, flag, pos + |ev|, t + 1));
      events, pos, t := events + ev, pos + |ev|, t + 1;
    }
    assert events + [] == events;
  }

  lemma TaskRunnerStartsOnce(tasks: seq<TaskConf>, devices: seq<seq<WaitOracle>>, flag: StopFlag)
    requires BatchCovered(tasks, devices)
    ensures StartsOnce(TaskRunner(tasks, devices, flag), Names(tasks))
  {
    forall u: nat, pos: nat | u < |tasks|
      ensures Starts(TaskRunner(tasks, devices, flag)(u, pos).events) == [Names(tasks)[u]]
    {
      SingleTaskStarts(tasks[u], devices[u], flag, pos);
    }
  }

  /** `run_all_tasks` starts tasks in configuration order, each at most once. */
  lemma AllTasksInOrder(tasks: seq<TaskConf>, devices: seq<seq<WaitOracle>>, flag: StopFlag, at: nat)
    requires BatchCovered(tasks, devices)
    ensures Starts(AllTasks(tasks, devices, flag, at).events) <= Names(tasks)
  {
    TaskRunnerStartsOnce(tasks, devices, flag);
    BatchStartsInOrder(TaskRunner(tasks, devices, flag), Names(tasks), flag, at, 0);
  }

  /**
   * A task that fails or is interrupted does not keep the later ones from running:
   * with the flag never set and no malformed step, every configured task starts,
   * in order, and nothing raises.
   */
  lemma AllTasksRunEvery(tasks: seq<TaskConf>, devices: seq<seq<WaitOracle>>, flag: StopFlag, at: nat)
    requires BatchCovered(tasks, devices) && flag.NeverSet()
    requires forall u, j :: 0 <= u < |tasks| && 0 <= j < |tasks[u].steps| ==> !Malformed(tasks[u].steps[j])
    ensures var r := AllTasks(tasks, devices, flag, at);
      Starts(r.events) == Names(tasks) && r.raised.None?
  {
    forall u: nat, pos: nat | u < |tasks|
      ensures !TaskRunner(tasks, devices, flag)(u, pos).end.Raised?
    {
      TaskNeverRaises(tasks[u], devices[u], flag, pos);
    }
    TaskRunnerStartsOnce(tasks, devices, flag);
    BatchStartsEvery(TaskRunner(tasks, devices, flag), Names(tasks), flag, at, 0);
    BatchNeverRaises(TaskRunner(tasks, devices, flag), |tasks|, flag, at, 0);
  }

  /** A task's first event is its start line, and it logs no other. */
  lemma SingleTaskOpens(task: TaskConf, devices: seq<WaitOracle>, flag: StopFlag, at: nat)
    requires TaskCovered(task, devices)
    ensures Opens(SingleTask(task, devices, flag, at).events, StartLogs)
  {
    var r := TaskFrom(task, devices, flag, at + 1, 0);
    DispatcherFacts(task, devices);
    StepsStartNothing(Dispatcher(task, devices), |task.steps|, NameOf(task), flag, at + 1, 0);
    assert SingleTask(task, devices, flag, at).events[1..] == r.events;
  }

  /**
   * `run_all_tasks` honours the stop flag, inside tasks and between them (see
   * Trace.StopDiscipline): every poll reports the flag as it is then, nothing
   * acts after one saw it set, and every task's start line comes straight after
   * the loop's poll that found the flag clear, so that no task starts once the
   * flag was set; entered with the flag set, the batch starts no task.
   */
  lemma AllTasksDiscipline(tasks: seq<TaskConf>, devices: seq<seq<WaitOracle>>, flag: StopFlag, at: nat)
    requires BatchCovered(tasks, devices)
    ensures var r := AllTasks(tasks, devices, flag, at).events;
      && StopDiscipline(flag, at, r)
      && (flag.Flag? ==> Guarded(r, StartLogs))
      && (flag.Flag? ==> forall i :: 0 <= i < |r| && Is(r[i], StartLogs) ==> 0 < i && !flag.IsSet(at + i - 1))
      && (flag.IsSet(at) ==> Starts(r) == [])
  {
    var run := TaskRunner(tasks, devices, flag);
    forall u: nat, pos: nat | u < |tasks|
      ensures StopDiscipline(flag, pos, run(u, pos).events) && Opens(run(u, pos).events, StartLogs)
    {
      SingleTaskDiscipline(tasks[u], devices[u], flag, pos);
      SingleTaskOpens(tasks[u], devices[u], flag, pos);
    }
    BatchDiscipline(run, |tasks|, flag, at, 0);
    var r := AllTasks(tasks, devices, flag, at).events;
    if flag.Flag? {
      GuardedClear(flag, at, r, StartLogs);
    }
    if flag.IsSet(at) && |tasks| > 0 {
      StoppedStartsNothing(BatchStopped);
    }
  }
}
