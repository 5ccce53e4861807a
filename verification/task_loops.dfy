/**
 * The two loops of `DungeonAutomation` in fake_dungeon.py, stated for any behaviour
 * of the items they run: the loop of `run_single_task` over a task's steps, for a
 * step semantics `step` (`step(i)` is what step `i` does), and the loop of
 * `run_all_tasks` over the configured tasks, for a task runner `run`
 * (`run(t, pos)` is what running task `t` from trace position `pos` produces).
 * DungeonAutomation plugs in the step dispatcher and `run_single_task`; the
 * properties proved here hold for any behaviour with the stated per-item facts.
 */
module TaskLoops {
  import opened Trace

  datatype PyError = KeyError(key: string) | ValueError

  datatype StepEnd = Next | Abort | Raise(error: PyError)

  datatype StepRun = StepRun(events: seq<Event>, end: StepEnd)

  /** How `run_single_task` ended; the Python function itself returns `None` in every case. */
  datatype TaskEnd = Completed | Interrupted | Failed | Raised(error: PyError)

  datatype TaskRun = TaskRun(events: seq<Event>, end: TaskEnd)

  /**
   * The loop of `run_single_task` over `n` steps, from step `i` on at trace position
   * `at`, for a step semantics `step` (`step(i)` is what step `i` does once the flag
   * was found clear): poll the flag (stop: log the interruption), run the step (a
   * failed `wait_and_click` or an exception ends the task), and log completion.
   */
  function Steps(step: nat -> StepRun, n: nat, name: string, flag: StopFlag, at: nat, i: nat): TaskRun
    requires i <= n
    decreases n - i
  {
    if i == n then TaskRun([Log(TaskDone(name))], Completed)
    else
      var chk := Check(flag, at);
      if chk.stop then TaskRun([StopCheck(true), Log(TaskInterrupted)], Interrupted)
      else
        var s := step(i);
        var pre := chk.events + s.events;
        match s.end
        case Next =>
          var rest := Steps(step, n, name, flag, at + |pre|, i + 1);
          TaskRun(pre + rest.events, rest.end)
        case Abort => TaskRun(pre, Failed)
        case Raise(e) => TaskRun(pre, Raised(e))
  }

  /** `pre`, followed by the rest of a task. */
  function Led(pre: seq<Event>, rest: TaskRun): TaskRun {
    TaskRun(pre + rest.events, rest.end)
  }

  lemma LedLed(a: seq<Event>, b: seq<Event>, rest: TaskRun)
    ensures Led(a, Led(b, rest)) == Led(a + b, rest)
  {
    assert a + (b + rest.events) == a + b + rest.events;
  }

  /** The names of the tasks whose start line is logged, in trace order. */
  function Starts(s: seq<Event>): seq<string> {
    if s == [] then []
    else (if s[0].Log? && s[0].msg.TaskStart? then [s[0].msg.task] else []) + Starts(s[1..])
  }

  lemma {:induction false} StartsAppend(a: seq<Event>, b: seq<Event>)
    ensures Starts(a + b) == Starts(a) + Starts(b)
  {
    if a == [] {
      assert a + b == b;
    } else {
      assert (a + b)[1..] == a[1..] + b;
      StartsAppend(a[1..], b);
    }
  }

  lemma {:induction false} StartsNone(s: seq<Event>)
    requires Count(s, StartLogs) == 0
    ensures Starts(s) == []
  {
    if s != [] {
      StartsNone(s[1..]);
    }
  }

  /** None of the first `n` steps produces an event of kind `k`. */
  ghost predicate NoneOf(step: nat -> StepRun, n: nat, k: Kind) {
    forall j: nat :: j < n ==> Count(step(j).events, k) == 0
  }

  /** A step that aborts has logged a failed click last. */
  predicate AbortLogged(s: StepRun) {
    s.end.Abort? ==> s.events != [] && s.events[|s.events| - 1].Log? && s.events[|s.events| - 1].msg.ClickFailed?
  }

  /**
   * Bookkeeping: a poll that found the flag clear, then a stretch `step` and the
   * rest; neither the poll nor `step` has an event of kind `k`.
   */
  lemma CountRound(flag: StopFlag, at: nat, step: seq<Event>, rest: seq<Event>, k: Kind)
    requires !Check(flag, at).stop && Count(step, k) == 0 && k != Polls
    ensures Count(Check(flag, at).events + step, k) == 0
    ensures Count(Check(flag, at).events + step + rest, k) == Count(rest, k)
  {
    CountPolled(flag, at, step, k);
    CountAppend(Check(flag, at).events + step, rest, k);
  }

  /** As CountRound, without the rest. */
  lemma CountPolled(flag: StopFlag, at: nat, step: seq<Event>, k: Kind)
    requires !Check(flag, at).stop && Count(step, k) == 0 && k != Polls
    ensures Count(Check(flag, at).events + step, k) == 0
  {
    var chk := Check(flag, at).events;
    CountAppend(chk, step, k);
    if chk != [] {
      CountOne(StopCheck(false), k);
    }
  }

  /** The events the loop itself adds when it ends the task: the completion line, or the poll and the interruption line. */
  function Closing(end: TaskEnd, name: string): seq<Event> {
    match end
    case Completed => [Log(TaskDone(name))]
    case Interrupted => [StopCheck(true), Log(TaskInterrupted)]
    case _ => []
  }

  /** The completion line and the poll that saw the flag set in what the loop adds when it ends the task. */
  lemma ClosingCounts(name: string)
    ensures forall end: TaskEnd :: Count(Closing(end, name), Logged(TaskDone(name))) == (if end == Completed then 1 else 0)
    ensures forall end: TaskEnd :: Count(Closing(end, name), StopsSeen) == (if end == Interrupted then 1 else 0)
  {
    CountOne(Log(TaskDone(name)), Logged(TaskDone(name)));
    CountOne(Log(TaskDone(name)), StopsSeen);
    CountTwo(StopCheck(true), Log(TaskInterrupted), Logged(TaskDone(name)));
    CountTwo(StopCheck(true), Log(TaskInterrupted), StopsSeen);
  }

  /** Events of kind `k` in `r` come only from the lines that close the task. */
  predicate CountsClose(r: TaskRun, name: string, k: Kind) {
    Count(r.events, k) == Count(Closing(r.end, name), k)
  }

  /**
   * From step `i` on, a kind of event that no step produces (other than a poll)
   * occurs only in what the loop adds when it ends the task.
   */
  lemma {:induction false} StepsCount(step: nat -> StepRun, n: nat, name: string, flag: StopFlag, at: nat, i: nat, k: Kind)
    requires i <= n && NoneOf(step, n, k) && k != Polls
    decreases n - i
    ensures CountsClose(Steps(step, n, name, flag, at, i), name, k)
  {
    if i < n && !Check(flag, at).stop && step(i).end.Next? {
      StepsCount(step, n, name, flag, at + |Check(flag, at).events + step(i).events|, i + 1, k);
    }
    StepsCountRound(step, n, name, flag, at, i, k);
  }

  /** One round of StepsCount, given its claim for the rest of the loop. */
  lemma StepsCountRound(step: nat -> StepRun, n: nat, name: string, flag: StopFlag, at: nat, i: nat, k: Kind)
    requires i <= n && NoneOf(step, n, k) && k != Polls
    requires i < n && !Check(flag, at).stop && step(i).end.Next? ==>
      CountsClose(Steps(step, n, name, flag, at + |Check(flag, at).events + step(i).events|, i + 1), name, k)
    ensures CountsClose(Steps(step, n, name, flag, at, i), name, k)
  {
    if i < n && !Check(flag, at).stop {
      var pre := Check(flag, at).events + step(i).events;
      if step(i).end.Next? {
        var rest := Steps(step, n, name, flag, at + |pre|, i + 1);
        assert Steps(step, n, name, flag, at, i) == TaskRun(pre + rest.events, rest.end);
        CountRound(flag, at, step(i).events, rest.events, k);
      } else {
        assert Steps(step, n, name, flag, at, i).events == pre;
        CountPolled(flag, at, step(i).events, k);
      }
    }
  }

  /** From step `i` on, the completion line is logged, once, exactly when the task completes. */
  lemma StepsLogDoneOnCompletion(step: nat -> StepRun, n: nat, name: string, flag: StopFlag, at: nat, i: nat)
    requires i <= n && NoneOf(step, n, Logged(TaskDone(name)))
    ensures var r := Steps(step, n, name, flag, at, i);
      Count(r.events, Logged(TaskDone(name))) == (if r.end == Completed then 1 else 0)
  {
    var r := Steps(step, n, name, flag, at, i);
    StepsCount(step, n, name, flag, at, i, Logged(TaskDone(name)));
    CountOne(Log(TaskDone(name)), Logged(TaskDone(name)));
    CountTwo(StopCheck(true), Log(TaskInterrupted), Logged(TaskDone(name)));
  }

  /** From step `i` on, a poll sees the flag set, once, exactly when the task is interrupted. */
  lemma StepsSeeStopOnInterruption(step: nat -> StepRun, n: nat, name: string, flag: StopFlag, at: nat, i: nat)
    requires i <= n && NoneOf(step, n, StopsSeen)
    ensures var r := Steps(step, n, name, flag, at, i);
      Count(r.events, StopsSeen) == (if r.end == Interrupted then 1 else 0)
  {
    StepsCount(step, n, name, flag, at, i, StopsSeen);
    CountOne(Log(TaskDone(name)), StopsSeen);
    CountTwo(StopCheck(true), Log(TaskInterrupted), StopsSeen);
  }

  /** The loop logs no task start of its own. */
  lemma StepsStartNothing(step: nat -> StepRun, n: nat, name: string, flag: StopFlag, at: nat, i: nat)
    requires i <= n && NoneOf(step, n, StartLogs)
    ensures Count(Steps(step, n, name, flag, at, i).events, StartLogs) == 0
  {
    StepsCount(step, n, name, flag, at, i, StartLogs);
    CountOne(Log(TaskDone(name)), StartLogs);
    CountTwo(StopCheck(true), Log(TaskInterrupted), StartLogs);
  }

  /**
   * The last event of a task tells how it ended: the completion line, the
   * interruption line, or (for a failed `wait_and_click`) the failed click.
   */
  lemma {:induction false} StepsLastEvent(step: nat -> StepRun, n: nat, name: string, flag: StopFlag, at: nat, i: nat)
    requires i <= n && forall j: nat :: j < n ==> AbortLogged(step(j))
    decreases n - i
    ensures var r := Steps(step, n, name, flag, at, i);
      && (r.end.Completed? ==> r.events != [] && r.events[|r.events| - 1] == Log(TaskDone(name)))
      && (r.end.Interrupted? ==> r.events != [] && r.events[|r.events| - 1] == Log(TaskInterrupted))
      && (r.end.Failed? ==> r.events != [] && r.events[|r.events| - 1].Log? && r.events[|r.events| - 1].msg.ClickFailed?)
  {
    if i < n && !Check(flag, at).stop && step(i).end.Next? {
      StepsLastEvent(step, n, name, flag, at + |Check(flag, at).events + step(i).events|, i + 1);
    }
  }

  /**
   * The stop flag is honoured from step `i` on (see Trace.StopDiscipline). The
   * loop polls before each step: while a step is left, its first event is a
   * poll, and when that poll sees the flag set the task only logs that it was
   * interrupted (see also StepsBegin).
   */
  lemma StepsDiscipline(step: nat -> StepRun, n: nat, name: string, flag: StopFlag, at: nat, i: nat)
    requires i <= n && NoneOf(step, n, Polls)
    ensures var r := Steps(step, n, name, flag, at, i);
      && StopDiscipline(flag, at, r.events)
      && (i < n && flag.Flag? ==> r.events != [] && r.events[0] == StopCheck(flag.IsSet(at)))
      && (i < n && flag.IsSet(at) ==> r == TaskRun([StopCheck(true), Log(TaskInterrupted)], Interrupted))
  {
    StepsHonour(step, n, name, flag, at, i);
  }

  /** The stop discipline of StepsDiscipline. */
  lemma {:induction false} StepsHonour(step: nat -> StepRun, n: nat, name: string, flag: StopFlag, at: nat, i: nat)
    requires i <= n && NoneOf(step, n, Polls)
    decreases n - i
    ensures StopDiscipline(flag, at, Steps(step, n, name, flag, at, i).events)
  {
    if i < n && !Check(flag, at).stop && step(i).end.Next? {
      StepsHonour(step, n, name, flag, at + |Check(flag, at).events + step(i).events|, i + 1);
    }
    DisciplineStep(step, n, name, flag, at, i);
  }

  /**
   * The trace positions at which the steps that run from step `i` on begin, the
   * loop being at trace position `at`: the `k`-th is where step `i + k` begins.
   */
  function Begins(step: nat -> StepRun, n: nat, flag: StopFlag, at: nat, i: nat): seq<nat>
    requires i <= n
    decreases n - i
  {
    if i == n || Check(flag, at).stop then []
    else
      var pre := Check(flag, at).events + step(i).events;
      [at + |Check(flag, at).events|] + (if step(i).end.Next? then Begins(step, n, flag, at + |pre|, i + 1) else [])
  }

  /** One round of StepsDiscipline, given its claim for the rest of the loop. */
  lemma DisciplineStep(step: nat -> StepRun, n: nat, name: string, flag: StopFlag, at: nat, i: nat)
    requires i <= n && NoneOf(step, n, Polls)
    requires i < n && !Check(flag, at).stop && step(i).end.Next? ==>
      var pos := at + |Check(flag, at).events + step(i).events|;
      StopDiscipline(flag, pos, Steps(step, n, name, flag, pos, i + 1).events)
    ensures StopDiscipline(flag, at, Steps(step, n, name, flag, at, i).events)
  {
    if i == n {
      DisciplineLogs(flag, at, [Log(TaskDone(name))]);
    } else if Check(flag, at).stop {
      DisciplineStopped(flag, at, TaskInterrupted);
    } else {
      var pre := Check(flag, at).events + step(i).events;
      DisciplineChecked(flag, at, step(i).events);
      if step(i).end.Next? {
        var rest := Steps(step, n, name, flag, at + |pre|, i + 1);
        assert Steps(step, n, name, flag, at, i).events == pre + rest.events;
        DisciplineAppend(flag, at, pre, rest.events);
      } else {
        assert Steps(step, n, name, flag, at, i).events == pre;
      }
    }
  }

  /**
   * In the stretch `r`, which starts at trace position `at`, the events `s` run
   * from position `p` on, right after (when there is a flag) a poll that found
   * the flag clear at that moment.
   */
  predicate RunsAt(s: seq<Event>, flag: StopFlag, at: nat, r: seq<Event>, p: nat) {
    var w := if flag.Flag? then 1 else 0;
    && at + w <= p && p - at + |s| <= |r|
    && r[p - at .. p - at + |s|] == s
    && (flag.Flag? ==> r[p - at - 1] == StopCheck(false) && !flag.IsSet(p - 1))
  }

  /** Step `i + k` runs at position `b[k]` of the stretch `r`, which starts at trace position `at` (see RunsAt). */
  ghost predicate StepRunsAt(step: nat -> StepRun, i: nat, flag: StopFlag, at: nat, r: seq<Event>, b: seq<nat>, k: nat) {
    k < |b| && RunsAt(step(i + k).events, flag, at, r, b[k])
  }

  /** Step `i + k` begins right where step `i + k - 1` ended and, when there is one, the poll after it. */
  ghost predicate Adjacent(step: nat -> StepRun, i: nat, flag: StopFlag, b: seq<nat>, k: nat) {
    0 < k < |b| && b[k] == b[k - 1] + |step(i + k - 1).events| + (if flag.Flag? then 1 else 0)
  }

  /**
   * In the stretch `r`, which starts at trace position `at`, step `i + k` runs
   * at position `b[k]`, the one step right after the other with only the poll
   * in between.
   */
  ghost predicate BeginsChecked(step: nat -> StepRun, i: nat, flag: StopFlag, at: nat, r: seq<Event>, b: seq<nat>) {
    && (forall k: nat :: k < |b| ==> StepRunsAt(step, i, flag, at, r, b, k))
    && (forall k: nat :: 0 < k < |b| ==> Adjacent(step, i, flag, b, k))
  }

  /** Bookkeeping: events in front of a stretch leave what runs in it where it is. */
  lemma RunsAtShift(s: seq<Event>, flag: StopFlag, at: nat, pre: seq<Event>, r: seq<Event>, p: nat)
    requires RunsAt(s, flag, at + |pre|, r, p)
    ensures RunsAt(s, flag, at, pre + r, p)
  {
    var x := p - (at + |pre|);
    assert (pre + r)[|pre| + x .. |pre| + x + |s|] == r[x .. x + |s|];
    if flag.Flag? {
      assert (pre + r)[|pre| + x - 1] == r[x - 1];
    }
  }

  /** Bookkeeping: a poll that found the flag clear, then `s`. */
  lemma RunsAtHead(s: seq<Event>, flag: StopFlag, at: nat, r: seq<Event>)
    requires !Check(flag, at).stop
    ensures RunsAt(s, flag, at, Check(flag, at).events + s + r, at + |Check(flag, at).events|)
  {
    var chk := Check(flag, at).events;
    assert (chk + s + r)[|chk| .. |chk| + |s|] == s;
    if flag.Flag? {
      assert (chk + s + r)[0] == StopCheck(false);
    }
  }

  /** Bookkeeping: events in front of a stretch leave its steps where they are. */
  lemma BeginsShift(step: nat -> StepRun, i: nat, flag: StopFlag, at: nat, pre: seq<Event>, r: seq<Event>, b: seq<nat>)
    requires BeginsChecked(step, i, flag, at + |pre|, r, b)
    ensures BeginsChecked(step, i, flag, at, pre + r, b)
  {
    forall k: nat | k < |b|
      ensures StepRunsAt(step, i, flag, at, pre + r, b, k)
    {
      assert StepRunsAt(step, i, flag, at + |pre|, r, b, k);
      RunsAtShift(step(i + k).events, flag, at, pre, r, b[k]);
    }
  }

  /** Bookkeeping: a poll that found the flag clear and step `i`, in front of the steps after it. */
  lemma BeginsCons(step: nat -> StepRun, i: nat, flag: StopFlag, at: nat, pre: seq<Event>, r: seq<Event>, b: seq<nat>)
    requires !Check(flag, at).stop && pre == Check(flag, at).events + step(i).events
    requires BeginsChecked(step, i + 1, flag, at + |pre|, r, b)
    requires b != [] ==> b[0] == at + |pre| + |Check(flag, at).events|
    ensures BeginsChecked(step, i, flag, at, pre + r, [at + |Check(flag, at).events|] + b)
  {
    var bb := [at + |Check(flag, at).events|] + b;
    RunsAtHead(step(i).events, flag, at, r);
    forall k: nat | k < |bb|
      ensures StepRunsAt(step, i, flag, at, pre + r, bb, k)
    {
      if k > 0 {
        assert StepRunsAt(step, i + 1, flag, at + |pre|, r, b, k - 1);
        RunsAtShift(step(i + k).events, flag, at, pre, r, b[k - 1]);
      }
    }
    forall k: nat | 0 < k < |bb|
      ensures Adjacent(step, i, flag, bb, k)
    {
      if k > 1 {
        assert Adjacent(step, i + 1, flag, b, k - 1);
      }
    }
  }

  /**
   * Each step that runs begins right after its own poll, which found the flag
   * clear: from step `i` on, the steps at the positions `Begins` gives run one
   * after the other, in order, with their own events, and a task that completes
   * ran every one of them.
   */
  lemma {:induction false} StepsBegin(step: nat -> StepRun, n: nat, name: string, flag: StopFlag, at: nat, i: nat)
    requires i <= n
    decreases n - i
    ensures var r := Steps(step, n, name, flag, at, i);
      var b := Begins(step, n, flag, at, i);
      && |b| <= n - i
      && (r.end == Completed ==> |b| == n - i)
      && (b != [] ==> b[0] == at + |Check(flag, at).events|)
      && BeginsChecked(step, i, flag, at, r.events, b)
  {
    if i < n && !Check(flag, at).stop && step(i).end.Next? {
      StepsBegin(step, n, name, flag, at + |Check(flag, at).events + step(i).events|, i + 1);
    }
    BeginRound(step, n, name, flag, at, i);
  }

  /** One round of StepsBegin, given its claim for the rest of the loop. */
  lemma BeginRound(step: nat -> StepRun, n: nat, name: string, flag: StopFlag, at: nat, i: nat)
    requires i <= n
    requires i < n && !Check(flag, at).stop && step(i).end.Next? ==>
      var pos := at + |Check(flag, at).events + step(i).events|;
      var b := Begins(step, n, flag, pos, i + 1);
      && |b| <= n - (i + 1)
      && (Steps(step, n, name, flag, pos, i + 1).end == Completed ==> |b| == n - (i + 1))
      && (b != [] ==> b[0] == pos + |Check(flag, pos).events|)
      && BeginsChecked(step, i + 1, flag, pos, Steps(step, n, name, flag, pos, i + 1).events, b)
    ensures var r := Steps(step, n, name, flag, at, i);
      var b := Begins(step, n, flag, at, i);
      && |b| <= n - i
      && (r.end == Completed ==> |b| == n - i)
      && (b != [] ==> b[0] == at + |Check(flag, at).events|)
      && BeginsChecked(step, i, flag, at, r.events, b)
  {
    if i < n && !Check(flag, at).stop {
      var pre := Check(flag, at).events + step(i).events;
      if step(i).end.Next? {
        var rest := Steps(step, n, name, flag, at + |pre|, i + 1);
        var b := Begins(step, n, flag, at + |pre|, i + 1);
        assert |Check(flag, at + |pre|).events| == |Check(flag, at).events|;
        assert Steps(step, n, name, flag, at, i) == TaskRun(pre + rest.events, rest.end);
        assert Begins(step, n, flag, at, i) == [at + |Check(flag, at).events|] + b;
        BeginsCons(step, i, flag, at, pre, rest.events, b);
      } else {
        assert Steps(step, n, name, flag, at, i).events == pre + [];
        assert Begins(step, n, flag, at, i) == [at + |Check(flag, at).events|] + [];
        BeginsCons(step, i, flag, at, pre, [], []);
      }
    }
  }

  /** Bookkeeping: as CountRound, for the polls themselves. */
  lemma PollRound(flag: StopFlag, at: nat, step: seq<Event>, rest: seq<Event>)
    requires !Check(flag, at).stop && Count(step, Polls) == 0
    ensures Count(Check(flag, at).events + step + rest, Polls) == (if flag.Flag? then 1 else 0) + Count(rest, Polls)
  {
    var chk := Check(flag, at).events;
    CountAppend(chk + step, rest, Polls);
    CountAppend(chk, step, Polls);
    if chk != [] {
      CountOne(StopCheck(false), Polls);
    }
  }

  /**
   * Steps that let the task go on never end it: with the flag never set, a task
   * whose steps from `i` on all go on completes, and the flag (when there is one)
   * was polled once before every step.
   */
  lemma {:induction false} StepsPollEach(step: nat -> StepRun, n: nat, name: string, flag: StopFlag, at: nat, i: nat)
    requires i <= n && NoneOf(step, n, Polls) && flag.NeverSet()
    requires forall j: nat :: i <= j < n ==> step(j).end.Next?
    decreases n - i
    ensures var r := Steps(step, n, name, flag, at, i);
      r.end == Completed && Count(r.events, Polls) == (if flag.Flag? then n - i else 0)
  {
    if i == n {
      CountOne(Log(TaskDone(name)), Polls);
    } else {
      var pre := Check(flag, at).events + step(i).events;
      StepsPollEach(step, n, name, flag, at + |pre|, i + 1);
      PollRound(flag, at, step(i).events, Steps(step, n, name, flag, at + |pre|, i + 1).events);
    }
  }

  /** A task none of whose steps raises does not raise. */
  lemma {:induction false} StepsNeverRaise(step: nat -> StepRun, n: nat, name: string, flag: StopFlag, at: nat, i: nat)
    requires i <= n && forall j: nat :: i <= j < n ==> !step(j).end.Raise?
    decreases n - i
    ensures !Steps(step, n, name, flag, at, i).end.Raised?
  {
    if i < n && !Check(flag, at).stop && step(i).end.Next? {
      StepsNeverRaise(step, n, name, flag, at + |Check(flag, at).events + step(i).events|, i + 1);
    }
  }

  /**
   * A task that did not complete (a failed `wait_and_click`, an interruption or an
   * exception) behaves the same whatever steps follow its `n` steps: no later step
   * runs.
   */
  lemma {:induction false} StepsIgnoreLater(
    step: nat -> StepRun, n: nat, longer: nat -> StepRun, m: nat, name: string, flag: StopFlag, at: nat, i: nat)
    requires i <= n <= m && forall j: nat :: j < n ==> longer(j) == step(j)
    requires Steps(step, n, name, flag, at, i).end != Completed
    decreases n - i
    ensures Steps(longer, m, name, flag, at, i) == Steps(step, n, name, flag, at, i)
  {
    if i == n {
      assert false;
    } else if !Check(flag, at).stop && step(i).end.Next? {
      StepsIgnoreLater(step, n, longer, m, name, flag, at + |Check(flag, at).events + step(i).events|, i + 1);
    }
  }

  /** How `run_all_tasks` ended: normally, or by an exception escaping a task. */
  datatype BatchRun = BatchRun(events: seq<Event>, raised: Option<PyError>)

  /** `pre`, followed by the rest of a batch. */
  function Then(pre: seq<Event>, rest: BatchRun): BatchRun {
    BatchRun(pre + rest.events, rest.raised)
  }

  lemma ThenThen(a: seq<Event>, b: seq<Event>, rest: BatchRun)
    ensures Then(a, Then(b, rest)) == Then(a + b, rest)
  {
    assert a + (b + rest.events) == a + b + rest.events;
  }

  /**
   * The loop of `run_all_tasks` over `n` tasks, from task `t` on at trace position
   * `at`: poll the flag (stop: log and leave the loop), run task `t` whatever way
   * the previous one ended, and leave the loop only when a task raised.
   */
  function Batch(run: (nat, nat) -> TaskRun, n: nat, flag: StopFlag, at: nat, t: nat): BatchRun
    requires t <= n
    decreases n - t
  {
    if t == n then BatchRun([], None)
    else
      var chk := Check(flag, at);
      if chk.stop then BatchRun([StopCheck(true), Log(BatchStopped)], None)
      else
        var r := run(t, at + |chk.events|);
        var pre := chk.events + r.events;
        if r.end.Raised? then BatchRun(pre, Some(r.end.error))
        else Then(pre, Batch(run, n, flag, at + |pre|, t + 1))
  }

  /** A round of the batch whose task did not raise, followed by the rest of the batch. */
  lemma BatchUnfold(run: (nat, nat) -> TaskRun, n: nat, flag: StopFlag, at: nat, t: nat, pre: seq<Event>)
    requires t < n && !Check(flag, at).stop
    requires var r := run(t, at + |Check(flag, at).events|);
      !r.end.Raised? && pre == Check(flag, at).events + r.events
    ensures Batch(run, n, flag, at, t) == Then(pre, Batch(run, n, flag, at + |pre|, t + 1))
  {
  }

  /** Each of the tasks logs its own start line once, and no other, wherever it starts. */
  ghost predicate StartsOnce(run: (nat, nat) -> TaskRun, names: seq<string>) {
    forall u: nat, pos: nat :: u < |names| ==> Starts(run(u, pos).events) == [names[u]]
  }

  /** Bookkeeping: the names started in one round of the batch, then in the rest. */
  lemma StartsRound(flag: StopFlag, at: nat, task: seq<Event>, rest: seq<Event>)
    requires !Check(flag, at).stop
    ensures Starts(Check(flag, at).events + task + rest) == Starts(task) + Starts(rest)
  {
    var chk := Check(flag, at).events;
    assert Starts(chk) == [] by {
      if chk != [] {
        assert chk == [StopCheck(false)] && chk[1..] == [];
      }
    }
    StartsAppend(chk, task);
    StartsAppend(chk + task, rest);
  }

  lemma SliceCons<T>(s: seq<T>, t: nat)
    requires t < |s|
    ensures s[t..] == [s[t]] + s[t + 1..]
  {
  }

  lemma StoppedStartsNothing(m: Msg)
    requires !m.TaskStart?
    ensures Starts([StopCheck(true), Log(m)]) == []
  {
    CountTwo(StopCheck(true), Log(m), StartLogs);
    StartsNone([StopCheck(true), Log(m)]);
  }

  /** Bookkeeping: one round of the batch keeps the names started a prefix of those configured. */
  lemma PrefixRound(flag: StopFlag, at: nat, task: seq<Event>, rest: seq<Event>, names: seq<string>, t: nat)
    requires !Check(flag, at).stop && t < |names|
    requires Starts(task) == [names[t]] && Starts(rest) <= names[t + 1..]
    ensures Starts(Check(flag, at).events + task) <= names[t..]
    ensures Starts(Check(flag, at).events + task + rest) <= names[t..]
  {
    var chk := Check(flag, at).events;
    StartsRound(flag, at, task, rest);
    StartsRound(flag, at, task, []);
    assert chk + task + [] == chk + task;
    SliceCons(names, t);
    assert (names[t..])[..|[names[t]] + Starts(rest)|] == [names[t]] + Starts(rest);
  }

  /**
   * The batch starts tasks in configuration order, each at most once: the names
   * started from task `t` on are a prefix of the names configured from `t` on.
   */
  lemma {:induction false} BatchStartsInOrder(run: (nat, nat) -> TaskRun, names: seq<string>, flag: StopFlag, at: nat, t: nat)
    requires t <= |names| && StartsOnce(run, names)
    decreases |names| - t
    ensures Starts(Batch(run, |names|, flag, at, t).events) <= names[t..]
  {
    if t == |names| {
    } else if Check(flag, at).stop {
      StoppedStartsNothing(BatchStopped);
    } else {
      var pos := at + |Check(flag, at).events + run(t, at + |Check(flag, at).events|).events|;
      BatchStartsInOrder(run, names, flag, pos, t + 1);
      InOrderRound(run, names, flag, at, t);
    }
  }

  /** One round of BatchStartsInOrder. */
  lemma InOrderRound(run: (nat, nat) -> TaskRun, names: seq<string>, flag: StopFlag, at: nat, t: nat)
    requires t < |names| && StartsOnce(run, names) && !Check(flag, at).stop
    requires var pos := at + |Check(flag, at).events + run(t, at + |Check(flag, at).events|).events|;
      Starts(Batch(run, |names|, flag, pos, t + 1).events) <= names[t + 1..]
    ensures Starts(Batch(run, |names|, flag, at, t).events) <= names[t..]
  {
    var r := run(t, at + |Check(flag, at).events|);
    var pre := Check(flag, at).events + r.events;
    var rest := Batch(run, |names|, flag, at + |pre|, t + 1);
    if r.end.Raised? {
      assert Batch(run, |names|, flag, at, t).events == pre;
    } else {
      assert Batch(run, |names|, flag, at, t).events == pre + rest.events;
    }
    PrefixRound(flag, at, r.events, rest.events, names, t);
  }

  /** No task from `t` on raises, wherever it starts. */
  ghost predicate NoneRaise(run: (nat, nat) -> TaskRun, t: nat, n: nat) {
    forall u: nat, pos: nat :: t <= u < n ==> !run(u, pos).end.Raised?
  }

  /** With no task raising, the batch does not raise. */
  lemma {:induction false} BatchNeverRaises(run: (nat, nat) -> TaskRun, n: nat, flag: StopFlag, at: nat, t: nat)
    requires t <= n && NoneRaise(run, t, n)
    decreases n - t
    ensures Batch(run, n, flag, at, t).raised.None?
  {
    if t < n && !Check(flag, at).stop {
      var pre := Check(flag, at).events + run(t, at + |Check(flag, at).events|).events;
      BatchNeverRaises(run, n, flag, at + |pre|, t + 1);
    }
  }

  /**
   * A task that failed or was interrupted never keeps the later ones from
   * starting: with the flag never set and no task raising, every task from `t` on
   * starts, in order.
   */
  lemma {:induction false} BatchStartsEvery(run: (nat, nat) -> TaskRun, names: seq<string>, flag: StopFlag, at: nat, t: nat)
    requires t <= |names| && StartsOnce(run, names) && NoneRaise(run, t, |names|) && flag.NeverSet()
    decreases |names| - t
    ensures Starts(Batch(run, |names|, flag, at, t).events) == names[t..]
  {
    if t < |names| {
      var r := run(t, at + |Check(flag, at).events|).events;
      var pos := at + |Check(flag, at).events + r|;
      BatchStartsEvery(run, names, flag, pos, t + 1);
      EveryRound(run, names, flag, at, t);
    }
  }

  /** One round of BatchStartsEvery. */
  lemma EveryRound(run: (nat, nat) -> TaskRun, names: seq<string>, flag: StopFlag, at: nat, t: nat)
    requires t < |names| && StartsOnce(run, names) && NoneRaise(run, t, |names|) && flag.NeverSet()
    requires var pos := at + |Check(flag, at).events + run(t, at + |Check(flag, at).events|).events|;
      Starts(Batch(run, |names|, flag, pos, t + 1).events) == names[t + 1..]
    ensures Starts(Batch(run, |names|, flag, at, t).events) == names[t..]
  {
    var r := run(t, at + |Check(flag, at).events|).events;
    var pos := at + |Check(flag, at).events + r|;
    var rest := Batch(run, |names|, flag, pos, t + 1);
    assert Batch(run, |names|, flag, at, t).events == Check(flag, at).events + r + rest.events;
    StartsRound(flag, at, r, rest.events);
    SliceCons(names, t);
  }

  /** Each task honours the stop flag wherever it starts. */
  ghost predicate Disciplined(run: (nat, nat) -> TaskRun, n: nat, flag: StopFlag) {
    forall u: nat, pos: nat :: u < n ==> StopDiscipline(flag, pos, run(u, pos).events)
  }

  /** Each task's first event is its start line, and it logs no other, wherever it starts. */
  ghost predicate Opened(run: (nat, nat) -> TaskRun, n: nat) {
    forall u: nat, pos: nat :: u < n ==> Opens(run(u, pos).events, StartLogs)
  }

  /**
   * The batch honours the stop flag (see Trace.StopDiscipline): every poll, in
   * the batch loop or inside a task, reports the flag as it is then, and after
   * one saw it set nothing acts any more. The loop polls before each task: from
   * any task on, its first event is a poll, and when that poll sees the flag set
   * the batch only logs that it stopped; with tasks that open with their start
   * line, every start line comes straight after a poll that found the flag clear.
   */
  lemma BatchDiscipline(run: (nat, nat) -> TaskRun, n: nat, flag: StopFlag, at: nat, t: nat)
    requires t <= n && Disciplined(run, n, flag)
    ensures var r := Batch(run, n, flag, at, t).events;
      && StopDiscipline(flag, at, r)
      && (t < n && flag.Flag? ==> r != [] && r[0] == StopCheck(flag.IsSet(at)))
      && (t < n && flag.IsSet(at) ==> r == [StopCheck(true), Log(BatchStopped)])
      && (flag.Flag? && Opened(run, n) ==> Guarded(r, StartLogs))
  {
    BatchHonours(run, n, flag, at, t);
    if flag.Flag? && Opened(run, n) {
      BatchGuards(run, n, flag, at, t);
    }
  }

  /** The stop discipline of BatchDiscipline. */
  lemma {:induction false} BatchHonours(run: (nat, nat) -> TaskRun, n: nat, flag: StopFlag, at: nat, t: nat)
    requires t <= n && Disciplined(run, n, flag)
    decreases n - t
    ensures StopDiscipline(flag, at, Batch(run, n, flag, at, t).events)
  {
    if t == n {
    } else if Check(flag, at).stop {
      DisciplineStopped(flag, at, BatchStopped);
    } else {
      var pos := at + |Check(flag, at).events + run(t, at + |Check(flag, at).events|).events|;
      BatchHonours(run, n, flag, pos, t + 1);
      assert StopDiscipline(flag, at + |Check(flag, at).events|, run(t, at + |Check(flag, at).events|).events);
      DisciplineRound(run, n, flag, at, t);
    }
  }

  /** The guard clause of BatchDiscipline. */
  lemma {:induction false} BatchGuards(run: (nat, nat) -> TaskRun, n: nat, flag: StopFlag, at: nat, t: nat)
    requires t <= n && flag.Flag? && Opened(run, n)
    decreases n - t
    ensures Guarded(Batch(run, n, flag, at, t).events, StartLogs)
  {
    if t == n {
    } else if flag.IsSet(at) {
      CountTwo(StopCheck(true), Log(BatchStopped), StartLogs);
      GuardedNone([StopCheck(true), Log(BatchStopped)], StartLogs);
    } else {
      BatchGuards(run, n, flag, at + 1 + |run(t, at + 1).events|, t + 1);
      assert Opens(run(t, at + 1).events, StartLogs);
      GuardRound(run, n, flag, at, t);
    }
  }

  /** One round of BatchDiscipline. */
  lemma DisciplineRound(run: (nat, nat) -> TaskRun, n: nat, flag: StopFlag, at: nat, t: nat)
    requires t < n && !Check(flag, at).stop
    requires StopDiscipline(flag, at + |Check(flag, at).events|, run(t, at + |Check(flag, at).events|).events)
    requires var pos := at + |Check(flag, at).events + run(t, at + |Check(flag, at).events|).events|;
      StopDiscipline(flag, pos, Batch(run, n, flag, pos, t + 1).events)
    ensures StopDiscipline(flag, at, Batch(run, n, flag, at, t).events)
  {
    var r := run(t, at + |Check(flag, at).events|);
    var pre := Check(flag, at).events + r.events;
    DisciplineAfterCheck(flag, at, Check(flag, at), r.events);
    if r.end.Raised? {
      assert Batch(run, n, flag, at, t).events == pre;
    } else {
      BatchUnfold(run, n, flag, at, t, pre);
      DisciplineAppend(flag, at, pre, Batch(run, n, flag, at + |pre|, t + 1).events);
    }
  }

  /** One round of the guard clause of BatchDiscipline. */
  lemma GuardRound(run: (nat, nat) -> TaskRun, n: nat, flag: StopFlag, at: nat, t: nat)
    requires t < n && flag.Flag? && !flag.IsSet(at) && Opens(run(t, at + 1).events, StartLogs)
    requires var pos := at + 1 + |run(t, at + 1).events|;
      Guarded(Batch(run, n, flag, pos, t + 1).events, StartLogs)
    ensures Guarded(Batch(run, n, flag, at, t).events, StartLogs)
  {
    var r := run(t, at + 1);
    var pre := [StopCheck(false)] + r.events;
    assert Check(flag, at).events == [StopCheck(false)];
    GuardedOpen(r.events, StartLogs);
    if r.end.Raised? {
      assert Batch(run, n, flag, at, t).events == pre;
    } else {
      BatchUnfold(run, n, flag, at, t, pre);
      GuardedAppend(pre, Batch(run, n, flag, at + |pre|, t + 1).events, StartLogs);
    }
  }
}
