/**
 * The observable behaviour of one automation run, as an ordered trace of events:
 * device actions (screen captures, taps, sleeps on an abstract clock), calls into
 * collaborators whose code is not part of this model (constructing a
 * `DungeonAutomation` from a config file, `try_return_home`, `run_macro_by_name`,
 * `run_all_tasks_with_retry`), every poll of the cooperative stop flag, and the
 * lines handed to the run's log sink (`log_func`).
 */
module Trace {

  datatype Option<+T> = None | Some(value: T) {
    /** The value, or `default` when absent: Python's `dict.get(key, default)`. */
    function GetOr(default: T): T {
      match this
      case Some(v) => v
      case None => default
    }
  }

  /** The progress lines the core hands to `log_func`, one constructor per call site. */
  datatype Msg =
    // DungeonAutomation.run_single_task and run_all_tasks
    | TaskStart(task: string)
    | TaskInterrupted
    | ClickFailed(template: string)
    | Sleeping(seconds: real)
    | UnknownAction(action: Option<string>)
    | TaskDone(task: string)
    | BatchStopped
    // run_daily_pipeline
    | PipelineStopped
    | UsingConfig(config: string)
    | ConfigError(config: string)
    // run_multi_role_pipeline
    | RoleInitFailed
    | MultiRoleStopped
    | FirstRole(role: string)
    | SwitchInterrupted
    | SwitchAttempt(role: string, attempt: nat, outOf: nat)
    | SwitchOk(role: string)
    | SwitchFailed(role: string, attempt: nat)
    | RoleSkipped(role: string)
    | RolePipelineStart(role: string)
    | RolePipelineDone(role: string)

  datatype Event =
    | Screenshot                        // adb exec-out screencap, whatever its outcome
    | Tap(x: int, y: int)               // adb shell input tap x y
    | Sleep                             // time.sleep, on an abstract clock
    | StopCheck(seen: bool)             // stop_flag.is_set() and the value it returned
    | Log(msg: Msg)                     // log_func(...)
    | Load(config: string)              // DungeonAutomation(config) is constructed
    | ReturnHome                        // try_return_home(...)
    | RunMacro(name: string)            // run_macro_by_name(name, ...)
    | RunTasksWithRetry(maxRounds: nat) // run_all_tasks_with_retry(max_rounds=...)
  {
    /** Everything but a log line or a poll of the stop flag acts on the device or a collaborator. */
    predicate IsAction() {
      !(Log? || StopCheck?)
    }
  }

  /**
   * The cooperative stop flag (a `threading.Event` that is set by another thread and
   * never cleared). `NoFlag` is `stop_flag=None`: the `stop_flag is not None` guard
   * then skips every check. `Flag(Some(n))` is a flag that another thread sets once
   * the run has produced `n` events; `Flag(None)` is one that is never set. Every
   * interleaving of the setter with the run is one of these, because the run's
   * position only grows and each check is itself an event.
   */
  datatype StopFlag = NoFlag | Flag(setAt: Option<nat>) {
    predicate IsSet(pos: nat) {
      Flag? && setAt.Some? && setAt.value <= pos
    }

    predicate NeverSet() {
      NoFlag? || setAt.None?
    }
  }

  /** What one `stop_flag is not None and stop_flag.is_set()` test contributes. */
  datatype Probe = Probe(events: seq<Event>, stop: bool)

  function Check(flag: StopFlag, at: nat): Probe {
    if flag.NoFlag? then Probe([], false) else Probe([StopCheck(flag.IsSet(at))], flag.IsSet(at))
  }

  /** No device action or collaborator call. */
  predicate Quiet(s: seq<Event>) {
    s == [] || (!s[0].IsAction() && Quiet(s[1..]))
  }

  /**
   * Nothing acts after the first poll that saw the flag set, and the flag is still
   * set at trace position `end`, where the stretch `s` ends.
   */
  predicate Halts(flag: StopFlag, end: nat, s: seq<Event>) {
    if s == [] then true
    else if s[0] == StopCheck(true) then flag.IsSet(end) && Quiet(s[1..])
    else Halts(flag, end, s[1..])
  }

  /** Every poll in `s`, which starts at trace position `at`, reports the flag as it is at the poll's own position. */
  predicate Fresh(flag: StopFlag, at: nat, s: seq<Event>)
    decreases |s|
  {
    s == [] || ((s[0].StopCheck? ==> s[0].seen == flag.IsSet(at)) && Fresh(flag, at + 1, s[1..]))
  }

  /**
   * The four facts every flag-polling routine of the core guarantees about the
   * events `s` it produces from trace position `at` on: every poll reports the
   * flag as it is at that moment; nothing acts after a poll saw the flag set; a
   * poll that saw it set means it is still set when the routine returns; and a
   * routine entered with the flag already set does nothing at all.
   */
  predicate StopDiscipline(flag: StopFlag, at: nat, s: seq<Event>) {
    Fresh(flag, at, s) && Halts(flag, at + |s|, s) && (flag.IsSet(at) ==> Quiet(s))
  }

  /** Every event of kind `k` in `s` comes straight after a poll that found the flag clear. */
  predicate Guarded(s: seq<Event>, k: Kind) {
    forall i :: 0 <= i < |s| && Is(s[i], k) ==> 0 < i && s[i - 1] == StopCheck(false)
  }

  /** `s` opens with an event of kind `k` and holds no other. */
  predicate Opens(s: seq<Event>, k: Kind) {
    s != [] && Is(s[0], k) && Count(s[1..], k) == 0
  }

  lemma {:induction false} QuietMeans(s: seq<Event>)
    ensures Quiet(s) <==> forall e :: e in s ==> !e.IsAction()
  {
    if s != [] {
      QuietMeans(s[1..]);
      assert forall e :: e in s <==> e == s[0] || e in s[1..];
    }
  }

  lemma {:induction false} QuietAppend(a: seq<Event>, b: seq<Event>)
    ensures Quiet(a + b) <==> Quiet(a) && Quiet(b)
  {
    if a == [] {
      assert a + b == b;
    } else {
      assert (a + b)[1..] == a[1..] + b;
      QuietAppend(a[1..], b);
    }
  }

  lemma {:induction false} FreshMeans(flag: StopFlag, at: nat, s: seq<Event>)
    ensures Fresh(flag, at, s) <==> forall i :: 0 <= i < |s| && s[i].StopCheck? ==> s[i].seen == flag.IsSet(at + i)
    decreases |s|
  {
    if s != [] {
      FreshMeans(flag, at + 1, s[1..]);
      assert forall i :: 0 < i < |s| ==> s[i] == s[1..][i - 1];
    }
  }

  lemma {:induction false} FreshAppend(flag: StopFlag, at: nat, a: seq<Event>, b: seq<Event>)
    ensures Fresh(flag, at, a + b) <==> Fresh(flag, at, a) && Fresh(flag, at + |a|, b)
    decreases |a|
  {
    if a == [] {
      assert a + b == b;
    } else {
      assert (a + b)[1..] == a[1..] + b;
      FreshAppend(flag, at + 1, a[1..], b);
    }
  }

  lemma {:induction false} FreshUnpolled(flag: StopFlag, at: nat, s: seq<Event>)
    requires Count(s, Polls) == 0
    ensures Fresh(flag, at, s)
    decreases |s|
  {
    if s != [] {
      FreshUnpolled(flag, at + 1, s[1..]);
    }
  }

  lemma {:induction false} HaltsWithoutStop(flag: StopFlag, end: nat, s: seq<Event>)
    requires Count(s, Polls) == 0
    ensures Halts(flag, end, s)
  {
    if s != [] {
      HaltsWithoutStop(flag, end, s[1..]);
    }
  }

  lemma {:induction false} HaltsAppend(flag: StopFlag, mid: nat, end: nat, a: seq<Event>, b: seq<Event>)
    requires mid <= end && Halts(flag, mid, a) && Halts(flag, end, b)
    requires flag.IsSet(mid) ==> Quiet(b)
    ensures Halts(flag, end, a + b)
  {
    if a == [] {
      assert a + b == b;
    } else {
      assert (a + b)[1..] == a[1..] + b;
      if a[0] == StopCheck(true) {
        QuietAppend(a[1..], b);
      } else {
        HaltsAppend(flag, mid, end, a[1..], b);
      }
    }
  }

  /** Stop discipline composes: `b` runs from where `a` ended. */
  lemma DisciplineAppend(flag: StopFlag, at: nat, a: seq<Event>, b: seq<Event>)
    requires StopDiscipline(flag, at, a) && StopDiscipline(flag, at + |a|, b)
    ensures StopDiscipline(flag, at, a + b)
  {
    FreshAppend(flag, at, a, b);
    HaltsAppend(flag, at + |a|, at + |a + b|, a, b);
    QuietAppend(a, b);
  }

  /** A poll that found the flag clear, then a stretch without polls. */
  lemma DisciplineChecked(flag: StopFlag, at: nat, s: seq<Event>)
    requires !Check(flag, at).stop && Count(s, Polls) == 0
    ensures StopDiscipline(flag, at, Check(flag, at).events + s)
  {
    var chk := Check(flag, at).events;
    FreshUnpolled(flag, at + |chk|, s);
    HaltsWithoutStop(flag, at + |chk + s|, s);
    if flag.Flag? {
      assert (chk + s)[1..] == s;
    } else {
      assert chk + s == s;
    }
  }

  /** Log lines only. */
  lemma DisciplineLogs(flag: StopFlag, at: nat, logs: seq<Event>)
    requires Quiet(logs) && Count(logs, Polls) == 0
    ensures StopDiscipline(flag, at, logs)
  {
    FreshUnpolled(flag, at, logs);
    HaltsWithoutStop(flag, at + |logs|, logs);
  }

  /** A poll that saw the flag set, followed by one log line. */
  lemma DisciplineStopped(flag: StopFlag, at: nat, m: Msg)
    requires flag.Flag? && flag.IsSet(at)
    ensures StopDiscipline(flag, at, [StopCheck(true), Log(m)])
  {
    assert [StopCheck(true), Log(m)][1..] == [Log(m)];
    assert [Log(m)][1..] == [];
  }

  /** A poll that found the flag clear, followed by a stretch that honours the flag. */
  lemma DisciplineAfterCheck(flag: StopFlag, at: nat, chk: Probe, s: seq<Event>)
    requires chk == Check(flag, at) && !chk.stop
    requires StopDiscipline(flag, at + |chk.events|, s)
    ensures StopDiscipline(flag, at, chk.events + s)
  {
    if flag.Flag? {
      assert (chk.events + s)[1..] == s;
    } else {
      assert chk.events + s == s;
    }
  }

  /** Guards compose. */
  lemma GuardedAppend(a: seq<Event>, b: seq<Event>, k: Kind)
    requires Guarded(a, k) && Guarded(b, k)
    ensures Guarded(a + b, k)
  {
    forall i | 0 <= i < |a + b| && Is((a + b)[i], k)
      ensures 0 < i && (a + b)[i - 1] == StopCheck(false)
    {
      if i >= |a| {
        assert (a + b)[i] == b[i - |a|];
        assert (a + b)[i - 1] == b[i - 1 - |a|];
      }
    }
  }

  /** A stretch without events of kind `k` guards them trivially. */
  lemma {:induction false} GuardedNone(s: seq<Event>, k: Kind)
    requires Count(s, k) == 0
    ensures Guarded(s, k)
  {
    if s != [] {
      GuardedNone(s[1..], k);
      assert forall i :: 0 < i < |s| ==> s[i] == s[1..][i - 1];
    }
  }

  /** A poll that found the flag clear, then a stretch that opens with the one event of kind `k` it holds. */
  lemma GuardedOpen(s: seq<Event>, k: Kind)
    requires Opens(s, k) && !Is(StopCheck(false), k)
    ensures Guarded([StopCheck(false)] + s, k)
  {
    GuardedNone(s[1..], k);
    var g := [StopCheck(false)] + s;
    assert g == [StopCheck(false), s[0]] + s[1..];
    forall i | 0 <= i < |g| && Is(g[i], k)
      ensures 0 < i && g[i - 1] == StopCheck(false)
    {
      if i > 1 {
        assert g[i] == s[1..][i - 2];
        assert g[i - 1] == s[1..][i - 3];
      }
    }
  }

  /**
   * What the guards mean with fresh polls: an event of kind `k` at index `i` comes
   * after a poll that found the flag clear at position `at + i - 1`; as a set flag
   * stays set, no event of kind `k` follows a moment the flag was set.
   */
  lemma GuardedClear(flag: StopFlag, at: nat, s: seq<Event>, k: Kind)
    requires Fresh(flag, at, s) && Guarded(s, k)
    ensures forall i :: 0 <= i < |s| && Is(s[i], k) ==> 0 < i && !flag.IsSet(at + i - 1)
  {
    FreshMeans(flag, at, s);
    forall i | 0 <= i < |s| && Is(s[i], k)
      ensures 0 < i && !flag.IsSet(at + i - 1)
    {
      assert s[i - 1].StopCheck?;
    }
  }

  /** The kinds of events the properties of the core count. */
  datatype Kind =
    | Captures | Taps | Sleeps
    | Polls                 // every test of the stop flag
    | StopsSeen             // a test that found the flag set
    | Loads | ReturnHomes | Macros | RetryRuns
    | StartLogs             // the start line of some task
    | ConfigLogs            // the line naming the configuration about to be constructed
    | AttemptLogs           // the line announcing some switch attempt
    | RolesDone             // the line closing some role's daily pipeline
    | Logged(msg: Msg)      // one particular log line

  predicate Is(e: Event, k: Kind) {
    match k
    case Captures => e == Screenshot
    case Taps => e.Tap?
    case Sleeps => e == Sleep
    case Polls => e.StopCheck?
    case StopsSeen => e == StopCheck(true)
    case Loads => e.Load?
    case ReturnHomes => e == ReturnHome
    case Macros => e.RunMacro?
    case RetryRuns => e.RunTasksWithRetry?
    case StartLogs => e.Log? && e.msg.TaskStart?
    case ConfigLogs => e.Log? && e.msg.UsingConfig?
    case AttemptLogs => e.Log? && e.msg.SwitchAttempt?
    case RolesDone => e.Log? && e.msg.RolePipelineDone?
    case Logged(m) => e == Log(m)
  }

  /** Number of events of kind `k`. */
  function Count(s: seq<Event>, k: Kind): nat {
    if s == [] then 0 else (if Is(s[0], k) then 1 else 0) + Count(s[1..], k)
  }

  lemma {:induction false} CountAppend(a: seq<Event>, b: seq<Event>, k: Kind)
    ensures Count(a + b, k) == Count(a, k) + Count(b, k)
  {
    if a == [] {
      assert a + b == b;
    } else {
      assert (a + b)[1..] == a[1..] + b;
      CountAppend(a[1..], b, k);
    }
  }

  lemma CountOne(e: Event, k: Kind)
    ensures Count([e], k) == if Is(e, k) then 1 else 0
  {
    assert [e][1..] == [];
  }

  lemma CountTwo(e: Event, f: Event, k: Kind)
    ensures Count([e, f], k) == (if Is(e, k) then 1 else 0) + (if Is(f, k) then 1 else 0)
  {
    assert [e, f][1..] == [f];
    CountOne(f, k);
  }

  lemma {:induction false} CountNone(s: seq<Event>, k: Kind)
    requires forall e :: e in s ==> !Is(e, k)
    ensures Count(s, k) == 0
  {
    if s != [] {
      assert s[0] in s;
      CountNone(s[1..], k);
    }
  }
}
