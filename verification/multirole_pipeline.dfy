/**
 * `run_multi_role_pipeline` of run_multirole_pipeline.py: construct the
 * role-switch automation from its own configuration (failure: log and return),
 * then take the roles in order. Before each role the stop flag is polled (set:
 * log and leave the loop). The first role is the one already logged in: its
 * daily pipeline runs straight away. Every later role gets up to
 * `SWITCH_MAX_RETRY` attempts, each preceded by a poll of the flag (set: log and
 * return from the whole function), each running the role's switch macro and,
 * when the macro fails, returning to the home screen. A role whose switch
 * succeeded runs its daily pipeline; one whose attempts all failed is skipped.
 *
 * The switch macro and the return home are collaborators whose code is not part
 * of this model: each call is one event, and what each macro call returns is an
 * oracle (`RolePlan.switches`).
 */
module MultiRolePipeline {
  import opened Trace
  import opened DailyPipeline

  /** One entry of `ROLES`. */
  datatype Role = Role(name: string, switchMacro: string)

  /** The configuration of the automation that runs the switch macros. */
  const RoleConfig := "configs/config_roles.json"

  /** `ROLES`: five entries, of which two pairs share a display name. */
  const Roles: seq<Role> := [
    Role("角色1", "switch_role_1"),
    Role("角色2", "switch_role_2"),
    Role("角色1", "switch_role_3"),
    Role("角色2", "switch_role_4"),
    Role("角色2", "switch_role_5")
  ]

  /** `SWITCH_MAX_RETRY`. */
  const SwitchMaxRetry: nat := 2

  /**
   * What the collaborators do for one role: `switches[a]` is what the switch
   * macro returns on attempt `a + 1`, `outcomes` how the role's daily pipeline
   * fares configuration by configuration.
   */
  datatype RolePlan = RolePlan(switches: seq<bool>, outcomes: seq<Outcome>)

  predicate PlanFits(plan: RolePlan) {
    |plan.switches| == SwitchMaxRetry && |plan.outcomes| == |ConfigFlow|
  }

  predicate PlansFit(roles: seq<Role>, plans: seq<RolePlan>) {
    |plans| == |roles| && forall k :: 0 <= k < |plans| ==> PlanFits(plans[k])
  }

  // ---------------------------------------------------------------------------
  // Switching to one role

  /** How the attempts at one role end: `switched = True`, all attempts failed, or the flag was seen. */
  datatype Switch = Switched | NotSwitched | Interrupted

  datatype SwitchRun = SwitchRun(events: seq<Event>, end: Switch)

  /** Events in front of a run of attempts. */
  function Behind(pre: seq<Event>, r: SwitchRun): SwitchRun {
    SwitchRun(pre + r.events, r.end)
  }

  /**
   * The attempt loop for `role` from attempt `a + 1` on, at trace position `at`:
   * poll the flag (set: log and stop), log the attempt, run the macro; success
   * logs and ends the loop, failure logs and returns home.
   */
  function Attempts(role: Role, switches: seq<bool>, flag: StopFlag, at: nat, a: nat): SwitchRun
    requires a <= |switches|
    decreases |switches| - a
  {
    if a == |switches| then SwitchRun([], NotSwitched)
    else
      var chk := Check(flag, at);
      if chk.stop then SwitchRun([StopCheck(true), Log(SwitchInterrupted)], Interrupted)
      else
        var body := chk.events + AttemptBody(role, a, switches[a]);
        if switches[a] then SwitchRun(body, Switched)
        else Behind(body, Attempts(role, switches, flag, at + |body|, a + 1))
  }

  /** The events of attempt `a + 1` after its stop check: log, macro, then success log or failure log and return home. */
  function AttemptBody(role: Role, a: nat, ok: bool): seq<Event> {
    [Log(SwitchAttempt(role.name, a + 1, SwitchMaxRetry)), RunMacro(role.switchMacro)]
      + (if ok then [Log(SwitchOk(role.name))] else [Log(SwitchFailed(role.name, a + 1)), ReturnHome])
  }

  lemma BehindBehind(a: seq<Event>, b: seq<Event>, r: SwitchRun)
    ensures Behind(a, Behind(b, r)) == Behind(a + b, r)
  {
    Regroup(a, b, r.events);
  }

  /** The first attempt from `a` on whose macro succeeds, or `|switches|` when none does. */
  function FirstOk(switches: seq<bool>, a: nat): (f: nat)
    decreases |switches| - a
    ensures f == |switches| || (a <= f < |switches| && switches[f])
    ensures forall b :: a <= b < f && b < |switches| ==> !switches[b]
  {
    if a >= |switches| then |switches|
    else if switches[a] then a
    else FirstOk(switches, a + 1)
  }

  /**
   * One pass of the attempt loop, attempt `a + 1`: the stop check, the macro, and
   * on failure the return home. `goOn` says the loop goes on to the next attempt.
   */
  method TryOnce(role: Role, switches: seq<bool>, flag: StopFlag, pos: nat, a: nat)
    returns (events: seq<Event>, goOn: bool, end: Switch)
    requires a < |switches|
    ensures !goOn ==> Attempts(role, switches, flag, pos, a) == SwitchRun(events, end) && end != NotSwitched
    ensures goOn ==> Attempts(role, switches, flag, pos, a) == Behind(events, Attempts(role, switches, flag, pos + |events|, a + 1))
  {
    var chk: seq<Event> := [];
    if flag.Flag? {
      var stop := flag.IsSet(pos);
      if stop {
        return [StopCheck(true), Log(SwitchInterrupted)], false, Interrupted;
      }
      chk := [StopCheck(false)];
    }
    var try := chk + [Log(SwitchAttempt(role.name, a + 1, SwitchMaxRetry)), RunMacro(role.switchMacro)];
    var ok := switches[a];
    if ok {
      events := try + [Log(SwitchOk(role.name))];
      assert events == chk + AttemptBody(role, a, true);
      return events, false, Switched;
    }
    events := try + [Log(SwitchFailed(role.name, a + 1)), ReturnHome];
    assert events == chk + AttemptBody(role, a, false);
    AttemptsUnfold(role, switches, flag, pos, a, events);
    goOn, end := true, NotSwitched;
  }

  /** The inner `for attempt in range(1, SWITCH_MAX_RETRY + 1)` loop for `role`, from trace position `at`. */
  method SwitchRole(role: Role, switches: seq<bool>, flag: StopFlag, at: nat)
    returns (events: seq<Event>, end: Switch)
    requires |switches| == SwitchMaxRetry
    ensures SwitchRun(events, end) == Attempts(role, switches, flag, at, 0)
  {
    events := [];
    var switched := false;
    var attempt, pos := 1, at;
    while attempt <= SwitchMaxRetry
      invariant 1 <= attempt <= SwitchMaxRetry + 1 && pos == at + |events|
      invariant Attempts(role, switches, flag, at, 0) == Behind(events, Attempts(role, switches, flag, pos, attempt - 1))
    {
      var ev, goOn, e := TryOnce(role, switches, flag, pos, attempt - 1);
      if !goOn {
        events := events + ev;
        if e == Interrupted {
          return events, Interrupted;
        }
        switched := true;
        break;
      }
      BehindBehind(events, ev, Attempts(role, switches, flag, pos + |ev|, attempt));
      events, pos, attempt := events + ev, pos + |ev|, attempt + 1;
    }
    end := if switched then Switched else NotSwitched;
    if !switched {
      assert events + [] == events;
    }
  }

  lemma AttemptsUnfold(role: Role, switches: seq<bool>, flag: StopFlag, pos: nat, a: nat, body: seq<Event>)
    requires a < |switches| && !Check(flag, pos).stop && !switches[a]
    requires body == Check(flag, pos).events + AttemptBody(role, a, false)
    ensures Attempts(role, switches, flag, pos, a) == Behind(body, Attempts(role, switches, flag, pos + |body|, a + 1))
  {
  }

  // ---------------------------------------------------------------------------
  // What the attempts at one role do

  /** Bookkeeping: one attempt runs one macro, and returns home exactly when the macro failed. */
  lemma AttemptBodyCount(role: Role, a: nat, ok: bool, k: Kind)
    requires k == Macros || k == ReturnHomes || k == Polls || k == StopsSeen || k == RolesDone
    ensures Count(AttemptBody(role, a, ok), k) == if k == Macros || (k == ReturnHomes && !ok) then 1 else 0
  {
    var head := [Log(SwitchAttempt(role.name, a + 1, SwitchMaxRetry)), RunMacro(role.switchMacro)];
    var tail := if ok then [Log(SwitchOk(role.name))] else [Log(SwitchFailed(role.name, a + 1)), ReturnHome];
    CountAppend(head, tail, k);
    CountTwo(head[0], head[1], k);
    if ok {
      CountOne(tail[0], k);
    } else {
      CountTwo(tail[0], tail[1], k);
    }
  }

  /** Bookkeeping: the stop check in front of an attempt adds none of these events. */
  lemma CheckedBodyCount(role: Role, flag: StopFlag, pos: nat, a: nat, ok: bool, k: Kind)
    requires !Check(flag, pos).stop
    requires k == Macros || k == ReturnHomes || k == StopsSeen || k == RolesDone
    ensures Count(Check(flag, pos).events + AttemptBody(role, a, ok), k) == Count(AttemptBody(role, a, ok), k)
  {
    CountAppend(Check(flag, pos).events, AttemptBody(role, a, ok), k);
    if flag.Flag? {
      CountOne(StopCheck(false), k);
    }
  }

  lemma CheckedBodyCounts(role: Role, flag: StopFlag, pos: nat, a: nat, ok: bool)
    requires !Check(flag, pos).stop
    ensures var body := Check(flag, pos).events + AttemptBody(role, a, ok);
      && Count(body, Macros) == 1 && Count(body, ReturnHomes) == (if ok then 0 else 1) && Count(body, RolesDone) == 0
  {
    CheckedBodyCount(role, flag, pos, a, ok, Macros);
    CheckedBodyCount(role, flag, pos, a, ok, ReturnHomes);
    CheckedBodyCount(role, flag, pos, a, ok, RolesDone);
    AttemptBodyCount(role, a, ok, Macros);
    AttemptBodyCount(role, a, ok, ReturnHomes);
    AttemptBodyCount(role, a, ok, RolesDone);
  }

  /**
   * What the counts of a run of attempts from attempt `a + 1` on say: with `m`
   * macro runs, there were `m` attempts and no more than `|switches|` in all;
   * every failed attempt, and only those, returned home; a success is the first
   * attempt whose macro succeeded; all attempts failing means every macro
   * failed; and an interruption comes before any success. No role's pipeline
   * completes in between.
   */
  ghost predicate Counted(r: SwitchRun, switches: seq<bool>, a: nat)
    requires a <= |switches|
  {
    var m := Count(r.events, Macros);
    && a + m <= |switches|
    && Count(r.events, ReturnHomes) + (if r.end == Switched then 1 else 0) == m
    && (r.end == Switched ==> a + m == FirstOk(switches, a) + 1)
    && (r.end == NotSwitched ==> a + m == |switches| == FirstOk(switches, a))
    && (r.end == Interrupted ==> a + m <= FirstOk(switches, a))
    && Count(r.events, RolesDone) == 0
  }

  /** Bookkeeping: a failed attempt in front of the remaining attempts. */
  lemma CountedStep(body: seq<Event>, rest: SwitchRun, switches: seq<bool>, a: nat)
    requires a < |switches| && !switches[a] && Counted(rest, switches, a + 1)
    requires Count(body, Macros) == 1 && Count(body, ReturnHomes) == 1 && Count(body, RolesDone) == 0
    ensures Counted(Behind(body, rest), switches, a)
  {
    CountAppend(body, rest.events, Macros);
    CountAppend(body, rest.events, ReturnHomes);
    CountAppend(body, rest.events, RolesDone);
  }

  /**
   * The attempt loop runs the macro at most `SWITCH_MAX_RETRY` times, stops at
   * the first success, and returns home once after each failed attempt, the
   * last one included (see Counted).
   */
  lemma {:induction false} AttemptsCounts(role: Role, switches: seq<bool>, flag: StopFlag, at: nat, a: nat)
    requires a <= |switches|
    decreases |switches| - a
    ensures Counted(Attempts(role, switches, flag, at, a), switches, a)
  {
    if a == |switches| {
    } else if Check(flag, at).stop {
      CountedStop(switches, a);
    } else if switches[a] {
      CheckedBodyCounts(role, flag, at, a, true);
      assert Attempts(role, switches, flag, at, a).events == Check(flag, at).events + AttemptBody(role, a, true);
    } else {
      var body := Check(flag, at).events + AttemptBody(role, a, false);
      AttemptsCounts(role, switches, flag, at + |body|, a + 1);
      CountedRound(role, switches, flag, at, a, body);
    }
  }

  lemma CountedStop(switches: seq<bool>, a: nat)
    requires a < |switches|
    ensures Counted(SwitchRun([StopCheck(true), Log(SwitchInterrupted)], Interrupted), switches, a)
  {
    CountTwo(StopCheck(true), Log(SwitchInterrupted), Macros);
    CountTwo(StopCheck(true), Log(SwitchInterrupted), ReturnHomes);
    CountTwo(StopCheck(true), Log(SwitchInterrupted), RolesDone);
  }

  /** A failed attempt of AttemptsCounts, given the counts of the attempts after it. */
  lemma CountedRound(role: Role, switches: seq<bool>, flag: StopFlag, at: nat, a: nat, body: seq<Event>)
    requires a < |switches| && !Check(flag, at).stop && !switches[a]
    requires body == Check(flag, at).events + AttemptBody(role, a, false)
    requires Counted(Attempts(role, switches, flag, at + |body|, a + 1), switches, a + 1)
    ensures Counted(Attempts(role, switches, flag, at, a), switches, a)
  {
    CheckedBodyCounts(role, flag, at, a, false);
    AttemptsUnfold(role, switches, flag, at, a, body);
    CountedStep(body, Attempts(role, switches, flag, at + |body|, a + 1), switches, a);
  }

  /**
   * Returns home exactly after failures: each return home comes right after a
   * line reporting a failed switch, and each such line comes right after the
   * macro run it reports on and is followed at once by a return home.
   */
  predicate HomeAfterFailure(s: seq<Event>) {
    forall i :: 0 <= i < |s| ==> HomeAfterFailureAt(s, i)
  }

  /** HomeAfterFailure at index `i` of `s`. */
  predicate HomeAfterFailureAt(s: seq<Event>, i: nat)
    requires i < |s|
  {
    && (s[i] == ReturnHome ==> 0 < i && s[i - 1].Log? && s[i - 1].msg.SwitchFailed?)
    && (s[i].Log? && s[i].msg.SwitchFailed? ==> 0 < i && s[i - 1].RunMacro? && i + 1 < |s| && s[i + 1] == ReturnHome)
  }

  lemma HomeAfterFailureAppend(a: seq<Event>, b: seq<Event>)
    requires HomeAfterFailure(a) && HomeAfterFailure(b)
    ensures HomeAfterFailure(a + b)
  {
    var s := a + b;
    forall i | 0 <= i < |s|
      ensures HomeAfterFailureAt(s, i)
    {
      if i < |a| {
        assert HomeAfterFailureAt(a, i);
        if i + 1 < |a| {
          assert s[i + 1] == a[i + 1];
        }
      } else {
        var j := i - |a|;
        assert HomeAfterFailureAt(b, j);
        assert s[i] == b[j];
        if 0 < j {
          assert s[i - 1] == b[j - 1];
        }
        if j + 1 < |b| {
          assert s[i + 1] == b[j + 1];
        }
      }
    }
  }

  /** One attempt, after a poll that found the flag clear, returns home exactly after its failure. */
  lemma CheckedBodyHome(role: Role, flag: StopFlag, pos: nat, a: nat, ok: bool)
    requires !Check(flag, pos).stop
    ensures HomeAfterFailure(Check(flag, pos).events + AttemptBody(role, a, ok))
  {
    var body := AttemptBody(role, a, ok);
    forall i | 0 <= i < |body|
      ensures HomeAfterFailureAt(body, i)
    {
    }
    if flag.Flag? {
      assert Check(flag, pos).events == [StopCheck(false)];
      assert HomeAfterFailureAt(Check(flag, pos).events, 0);
    }
    HomeAfterFailureAppend(Check(flag, pos).events, body);
  }

  /**
   * Every failed attempt, and only a failed one, returns home, right after
   * logging its failure and before anything else: in particular before the
   * next attempt's poll.
   */
  lemma {:induction false} AttemptsHomeAfterFailure(role: Role, switches: seq<bool>, flag: StopFlag, at: nat, a: nat)
    requires a <= |switches|
    decreases |switches| - a
    ensures HomeAfterFailure(Attempts(role, switches, flag, at, a).events)
  {
    if a == |switches| {
    } else if Check(flag, at).stop {
      var stop := [StopCheck(true), Log(SwitchInterrupted)];
      assert HomeAfterFailureAt(stop, 0) && HomeAfterFailureAt(stop, 1);
    } else {
      if switches[a] {
        CheckedBodyHome(role, flag, at, a, true);
        assert Attempts(role, switches, flag, at, a).events == Check(flag, at).events + AttemptBody(role, a, true);
      } else {
        var body := Check(flag, at).events + AttemptBody(role, a, false);
        AttemptsHomeAfterFailure(role, switches, flag, at + |body|, a + 1);
        HomeFailed(role, switches, flag, at, a, body);
      }
    }
  }

  /** A failed attempt of AttemptsHomeAfterFailure, given the attempts after it. */
  lemma HomeFailed(role: Role, switches: seq<bool>, flag: StopFlag, at: nat, a: nat, body: seq<Event>)
    requires a < |switches| && !Check(flag, at).stop && !switches[a]
    requires body == Check(flag, at).events + AttemptBody(role, a, false)
    requires HomeAfterFailure(Attempts(role, switches, flag, at + |body|, a + 1).events)
    ensures HomeAfterFailure(Attempts(role, switches, flag, at, a).events)
  {
    var rest := Attempts(role, switches, flag, at + |body|, a + 1);
    CheckedBodyHome(role, flag, at, a, false);
    AttemptsUnfold(role, switches, flag, at, a, body);
    HomeAfterFailureAppend(body, rest.events);
  }

  /** One attempt opens with the line announcing it, and announces no other. */
  lemma AttemptBodyOpens(role: Role, a: nat, ok: bool)
    ensures Opens(AttemptBody(role, a, ok), AttemptLogs)
  {
    var body := AttemptBody(role, a, ok);
    var tail := if ok then [Log(SwitchOk(role.name))] else [Log(SwitchFailed(role.name, a + 1)), ReturnHome];
    assert body[1..] == [RunMacro(role.switchMacro)] + tail;
    CountAppend([RunMacro(role.switchMacro)], tail, AttemptLogs);
    CountOne(RunMacro(role.switchMacro), AttemptLogs);
    if ok {
      CountOne(tail[0], AttemptLogs);
    } else {
      CountTwo(tail[0], tail[1], AttemptLogs);
    }
  }

  /**
   * The attempt loop honours the stop flag (see Trace.StopDiscipline). It polls
   * before each attempt: from any attempt on, its first event is a poll, and when
   * that poll sees the flag set the loop only logs the interruption; every
   * attempt's announcing line comes straight after a poll that found the flag clear.
   */
  lemma AttemptsDiscipline(role: Role, switches: seq<bool>, flag: StopFlag, at: nat, a: nat)
    requires a <= |switches|
    ensures var r := Attempts(role, switches, flag, at, a).events;
      && StopDiscipline(flag, at, r)
      && (a < |switches| && flag.Flag? ==> r != [] && r[0] == StopCheck(flag.IsSet(at)))
      && (a < |switches| && flag.IsSet(at) ==> r == [StopCheck(true), Log(SwitchInterrupted)])
      && (flag.Flag? ==> Guarded(r, AttemptLogs))
  {
    AttemptsHonour(role, switches, flag, at, a);
    if flag.Flag? {
      AttemptsGuard(role, switches, flag, at, a);
    }
  }

  /** The stop discipline of AttemptsDiscipline. */
  lemma {:induction false} AttemptsHonour(role: Role, switches: seq<bool>, flag: StopFlag, at: nat, a: nat)
    requires a <= |switches|
    decreases |switches| - a
    ensures StopDiscipline(flag, at, Attempts(role, switches, flag, at, a).events)
  {
    if a == |switches| {
    } else if Check(flag, at).stop {
      DisciplineStopped(flag, at, SwitchInterrupted);
    } else if switches[a] {
      AttemptBodyCount(role, a, true, Polls);
      DisciplineChecked(flag, at, AttemptBody(role, a, true));
      assert Attempts(role, switches, flag, at, a).events == Check(flag, at).events + AttemptBody(role, a, true);
    } else {
      var body := Check(flag, at).events + AttemptBody(role, a, false);
      AttemptsHonour(role, switches, flag, at + |body|, a + 1);
      AttemptDisciplineRound(role, switches, flag, at, a, body);
    }
  }

  /** The guard clause of AttemptsDiscipline. */
  lemma {:induction false} AttemptsGuard(role: Role, switches: seq<bool>, flag: StopFlag, at: nat, a: nat)
    requires a <= |switches| && flag.Flag?
    decreases |switches| - a
    ensures Guarded(Attempts(role, switches, flag, at, a).events, AttemptLogs)
  {
    if a == |switches| {
    } else if flag.IsSet(at) {
      CountTwo(StopCheck(true), Log(SwitchInterrupted), AttemptLogs);
      GuardedNone([StopCheck(true), Log(SwitchInterrupted)], AttemptLogs);
    } else if switches[a] {
      assert Check(flag, at).events == [StopCheck(false)];
      AttemptBodyOpens(role, a, true);
      GuardedOpen(AttemptBody(role, a, true), AttemptLogs);
      assert Attempts(role, switches, flag, at, a).events == [StopCheck(false)] + AttemptBody(role, a, true);
    } else {
      var body := [StopCheck(false)] + AttemptBody(role, a, false);
      AttemptsGuard(role, switches, flag, at + |body|, a + 1);
      AttemptGuardRound(role, switches, flag, at, a, body);
    }
  }

  /** A failed attempt of AttemptsDiscipline, given the discipline of the attempts after it. */
  lemma AttemptDisciplineRound(role: Role, switches: seq<bool>, flag: StopFlag, at: nat, a: nat, body: seq<Event>)
    requires a < |switches| && !Check(flag, at).stop && !switches[a]
    requires body == Check(flag, at).events + AttemptBody(role, a, false)
    requires StopDiscipline(flag, at + |body|, Attempts(role, switches, flag, at + |body|, a + 1).events)
    ensures StopDiscipline(flag, at, Attempts(role, switches, flag, at, a).events)
  {
    var rest := Attempts(role, switches, flag, at + |body|, a + 1);
    AttemptBodyCount(role, a, false, Polls);
    DisciplineChecked(flag, at, AttemptBody(role, a, false));
    AttemptsUnfold(role, switches, flag, at, a, body);
    DisciplineAppend(flag, at, body, rest.events);
  }

  /** A failed attempt of the guard clause of AttemptsDiscipline. */
  lemma AttemptGuardRound(role: Role, switches: seq<bool>, flag: StopFlag, at: nat, a: nat, body: seq<Event>)
    requires a < |switches| && flag.Flag? && !flag.IsSet(at) && !switches[a]
    requires body == [StopCheck(false)] + AttemptBody(role, a, false)
    requires Guarded(Attempts(role, switches, flag, at + |body|, a + 1).events, AttemptLogs)
    ensures Guarded(Attempts(role, switches, flag, at, a).events, AttemptLogs)
  {
    var rest := Attempts(role, switches, flag, at + |body|, a + 1);
    assert Check(flag, at).events == [StopCheck(false)];
    AttemptBodyOpens(role, a, false);
    GuardedOpen(AttemptBody(role, a, false), AttemptLogs);
    AttemptsUnfold(role, switches, flag, at, a, body);
    GuardedAppend(body, rest.events, AttemptLogs);
  }

  /** The attempts run at most `SWITCH_MAX_RETRY` macros and close no role. */
  lemma AttemptsBounded(role: Role, switches: seq<bool>, flag: StopFlag, at: nat)
    ensures var s := Attempts(role, switches, flag, at, 0).events;
      Count(s, Macros) <= |switches| && Count(s, RolesDone) == 0
  {
    AttemptsCounts(role, switches, flag, at, 0);
  }

  /** A flag that is never set never interrupts the attempts. */
  lemma {:induction false} AttemptsUninterrupted(role: Role, switches: seq<bool>, flag: StopFlag, at: nat, a: nat)
    requires a <= |switches| && flag.NeverSet()
    decreases |switches| - a
    ensures Attempts(role, switches, flag, at, a).end != Interrupted
  {
    if a < |switches| && !switches[a] {
      var body := Check(flag, at).events + AttemptBody(role, a, false);
      AttemptsUninterrupted(role, switches, flag, at + |body|, a + 1);
    }
  }

  /**
   * With a flag that is never set, the switch succeeds exactly when some
   * attempt's macro does, after as many macro runs as it took to reach the
   * first success, or after all `SWITCH_MAX_RETRY` of them.
   */
  lemma SwitchSucceedsIffSomeMacroDoes(role: Role, switches: seq<bool>, flag: StopFlag, at: nat)
    requires flag.NeverSet()
    ensures var r := Attempts(role, switches, flag, at, 0);
      var f := FirstOk(switches, 0);
      && (r.end == Switched <==> exists a :: 0 <= a < |switches| && switches[a])
      && r.end == (if f < |switches| then Switched else NotSwitched)
      && Count(r.events, Macros) == (if f < |switches| then f + 1 else |switches|)
  {
    AttemptsCounts(role, switches, flag, at, 0);
    AttemptsUninterrupted(role, switches, flag, at, 0);
  }

  // ---------------------------------------------------------------------------
  // One role

  /** How one role's turn ends: its events, whether it returned from the whole function, whether its pipeline ran. */
  datatype TurnRun = TurnRun(events: seq<Event>, stopped: bool, ran: bool)

  /** A role's daily pipeline between its opening line and its closing line, from trace position `at`. */
  function RolePipeline(role: Role, outcomes: seq<Outcome>, flag: StopFlag, at: nat, opening: Msg): seq<Event>
    requires |outcomes| == |ConfigFlow|
  {
    [Log(opening)] + Daily(outcomes, flag, at + 1) + [Log(RolePipelineDone(role.name))]
  }

  /** What follows the attempts: nothing when interrupted, the skip line, or the role's pipeline. */
  function AfterSwitch(role: Role, plan: RolePlan, flag: StopFlag, at: nat, end: Switch): seq<Event>
    requires PlanFits(plan)
  {
    match end
    case Interrupted => []
    case NotSwitched => [Log(RoleSkipped(role.name))]
    case Switched => RolePipeline(role, plan.outcomes, flag, at, RolePipelineStart(role.name))
  }

  /**
   * The turn of the role at index `k` of the list, after the stop check: the
   * first role runs its pipeline straight away; a later one runs its attempts,
   * then its pipeline if the switch succeeded, is skipped if every attempt
   * failed, and ends the whole function if the flag interrupted the attempts.
   */
  function RoleTurn(k: nat, role: Role, plan: RolePlan, flag: StopFlag, at: nat): TurnRun
    requires PlanFits(plan)
  {
    if k == 0 then TurnRun(RolePipeline(role, plan.outcomes, flag, at, FirstRole(role.name)), false, true)
    else
      var sw := Attempts(role, plan.switches, flag, at, 0);
      TurnRun(sw.events + AfterSwitch(role, plan, flag, at + |sw.events|, sw.end), sw.end == Interrupted, sw.end == Switched)
  }

  /** The body of the loop over the roles for the role at index `k`, after its stop check. */
  method RunRoleTurn(k: nat, role: Role, plan: RolePlan, flag: StopFlag, pos: nat)
    returns (events: seq<Event>, stopped: bool, ran: bool)
    requires PlanFits(plan)
    ensures TurnRun(events, stopped, ran) == RoleTurn(k, role, plan, flag, pos)
  {
    if k == 0 {
      var daily := RunDailyPipeline(ConfigFlow, plan.outcomes, flag, pos + 1);
      events := [Log(FirstRole(role.name))] + daily + [Log(RolePipelineDone(role.name))];
      return events, false, true;
    }
    var sw, end := SwitchRole(role, plan.switches, flag, pos);
    if end == Interrupted {
      assert sw + [] == sw;
      return sw, true, false;
    }
    if end == NotSwitched {
      return sw + [Log(RoleSkipped(role.name))], false, false;
    }
    var daily := RunDailyPipeline(ConfigFlow, plan.outcomes, flag, pos + |sw| + 1);
    events := sw + ([Log(RolePipelineStart(role.name))] + daily + [Log(RolePipelineDone(role.name))]);
    stopped, ran := false, true;
  }

  /** A role's pipeline runs no macro, announces no switch attempt and closes its role once. */
  lemma RolePipelineCount(role: Role, outcomes: seq<Outcome>, flag: StopFlag, at: nat, opening: Msg, k: Kind)
    requires |outcomes| == |ConfigFlow| && !opening.RolePipelineDone? && !opening.SwitchAttempt?
    requires k == Macros || k == AttemptLogs || k == RolesDone
    ensures Count(RolePipeline(role, outcomes, flag, at, opening), k) == if k == RolesDone then 1 else 0
  {
    var open, daily, close := [Log(opening)], Daily(outcomes, flag, at + 1), [Log(RolePipelineDone(role.name))];
    DailyRunsNoMacro(ConfigFlow, outcomes, flag, at + 1);
    CountAppend(open + daily, close, k);
    CountAppend(open, daily, k);
    CountOne(Log(opening), k);
    CountOne(Log(RolePipelineDone(role.name)), k);
  }

  /**
   * A role's pipeline honours the stop flag, and (unless its opening line is
   * itself one naming a configuration) the line naming each configuration
   * comes straight after a poll that found the flag clear.
   */
  lemma RolePipelineDiscipline(role: Role, outcomes: seq<Outcome>, flag: StopFlag, at: nat, opening: Msg)
    requires |outcomes| == |ConfigFlow|
    ensures var s := RolePipeline(role, outcomes, flag, at, opening);
      && StopDiscipline(flag, at, s)
      && (flag.Flag? && !opening.UsingConfig? ==> Guarded(s, ConfigLogs))
  {
    var open, daily, close := [Log(opening)], Daily(outcomes, flag, at + 1), [Log(RolePipelineDone(role.name))];
    DailyDiscipline(ConfigFlow, outcomes, flag, at + 1);
    CountOne(Log(opening), Polls);
    CountOne(Log(RolePipelineDone(role.name)), Polls);
    assert open[1..] == [] && close[1..] == [];
    DisciplineLogs(flag, at, open);
    DisciplineAppend(flag, at, open, daily);
    DisciplineLogs(flag, at + |open + daily|, close);
    DisciplineAppend(flag, at, open + daily, close);
    if flag.Flag? && !opening.UsingConfig? {
      CountOne(Log(opening), ConfigLogs);
      CountOne(Log(RolePipelineDone(role.name)), ConfigLogs);
      GuardedNone(open, ConfigLogs);
      GuardedNone(close, ConfigLogs);
      GuardedAppend(open, daily, ConfigLogs);
      GuardedAppend(open + daily, close, ConfigLogs);
    }
  }

  /** The first role runs no switch macro: its pipeline runs, once, straight away. */
  lemma FirstRoleSkipsSwitch(role: Role, plan: RolePlan, flag: StopFlag, at: nat)
    requires PlanFits(plan)
    ensures var t := RoleTurn(0, role, plan, flag, at);
      t.ran && !t.stopped && Count(t.events, Macros) == 0 && Count(t.events, RolesDone) == 1
  {
    RolePipelineCount(role, plan.outcomes, flag, at, FirstRole(role.name), Macros);
    RolePipelineCount(role, plan.outcomes, flag, at, FirstRole(role.name), RolesDone);
  }

  /** What follows the attempts runs no macro, and closes the role exactly when the switch succeeded. */
  lemma AfterSwitchCount(role: Role, plan: RolePlan, flag: StopFlag, at: nat, end: Switch, k: Kind)
    requires PlanFits(plan) && (k == Macros || k == AttemptLogs || k == RolesDone)
    ensures Count(AfterSwitch(role, plan, flag, at, end), k) == if k == RolesDone && end == Switched then 1 else 0
  {
    match end
    case Interrupted =>
    case NotSwitched =>
      CountOne(Log(RoleSkipped(role.name)), k);
    case Switched =>
      RolePipelineCount(role, plan.outcomes, flag, at, RolePipelineStart(role.name), k);
  }

  lemma AfterSwitchDiscipline(role: Role, plan: RolePlan, flag: StopFlag, at: nat, end: Switch)
    requires PlanFits(plan)
    ensures var s := AfterSwitch(role, plan, flag, at, end);
      StopDiscipline(flag, at, s) && Guarded(s, AttemptLogs)
  {
    AfterSwitchCount(role, plan, flag, at, end, AttemptLogs);
    GuardedNone(AfterSwitch(role, plan, flag, at, end), AttemptLogs);
    match end
    case Interrupted =>
    case NotSwitched =>
      var skip := [Log(RoleSkipped(role.name))];
      CountOne(skip[0], Polls);
      assert skip[1..] == [];
      DisciplineLogs(flag, at, skip);
    case Switched =>
      RolePipelineDiscipline(role, plan.outcomes, flag, at, RolePipelineStart(role.name));
  }

  /**
   * A later role's pipeline runs, once, exactly when a switch attempt succeeded;
   * the turn ends the whole function exactly when the flag interrupted the
   * attempts; and the only macros the turn runs are the attempts' switch macros.
   */
  lemma LaterRoleRunsIffSwitched(k: nat, role: Role, plan: RolePlan, flag: StopFlag, at: nat)
    requires k > 0 && PlanFits(plan)
    ensures var sw := Attempts(role, plan.switches, flag, at, 0);
      var t := RoleTurn(k, role, plan, flag, at);
      && t.ran == (sw.end == Switched) && t.stopped == (sw.end == Interrupted)
      && Count(t.events, Macros) == Count(sw.events, Macros) <= SwitchMaxRetry
      && Count(t.events, RolesDone) == (if t.ran then 1 else 0)
  {
    var sw := Attempts(role, plan.switches, flag, at, 0);
    assert RoleTurn(k, role, plan, flag, at).events == SwitchThen(role, plan, flag, at, sw);
    AttemptsBounded(role, plan.switches, flag, at);
    SwitchThenCount(role, plan, flag, at, sw, Macros);
    SwitchThenCount(role, plan, flag, at, sw, RolesDone);
  }

  /** A later role's turn: the attempts `sw`, then what follows them. */
  function SwitchThen(role: Role, plan: RolePlan, flag: StopFlag, at: nat, sw: SwitchRun): seq<Event>
    requires PlanFits(plan)
  {
    sw.events + AfterSwitch(role, plan, flag, at + |sw.events|, sw.end)
  }

  /** Bookkeeping: what follows the attempts adds no macro, and closes the role once when the switch succeeded. */
  lemma SwitchThenCount(role: Role, plan: RolePlan, flag: StopFlag, at: nat, sw: SwitchRun, k: Kind)
    requires PlanFits(plan) && (k == Macros || k == RolesDone)
    ensures Count(SwitchThen(role, plan, flag, at, sw), k)
         == Count(sw.events, k) + (if k == RolesDone && sw.end == Switched then 1 else 0)
  {
    var after := AfterSwitch(role, plan, flag, at + |sw.events|, sw.end);
    assert SwitchThen(role, plan, flag, at, sw) == sw.events + after;
    CountAppend(sw.events, after, k);
    AfterSwitchCount(role, plan, flag, at + |sw.events|, sw.end, k);
  }

  /** Bookkeeping: attempts that honour the stop flag and guard their announcements, then what follows them. */
  lemma SwitchThenDiscipline(role: Role, plan: RolePlan, flag: StopFlag, at: nat, sw: SwitchRun)
    requires PlanFits(plan) && StopDiscipline(flag, at, sw.events)
    requires flag.Flag? ==> Guarded(sw.events, AttemptLogs)
    ensures var t := SwitchThen(role, plan, flag, at, sw);
      StopDiscipline(flag, at, t) && (flag.Flag? ==> Guarded(t, AttemptLogs))
  {
    var after := AfterSwitch(role, plan, flag, at + |sw.events|, sw.end);
    assert SwitchThen(role, plan, flag, at, sw) == sw.events + after;
    AfterSwitchDiscipline(role, plan, flag, at + |sw.events|, sw.end);
    DisciplineAppend(flag, at, sw.events, after);
    if flag.Flag? {
      GuardedAppend(sw.events, after, AttemptLogs);
    }
  }

  /**
   * Every role's turn honours the stop flag, and each switch attempt it
   * announces comes straight after a poll that found the flag clear.
   */
  lemma TurnDiscipline(k: nat, role: Role, plan: RolePlan, flag: StopFlag, at: nat)
    requires PlanFits(plan)
    ensures var t := RoleTurn(k, role, plan, flag, at).events;
      StopDiscipline(flag, at, t) && (flag.Flag? ==> Guarded(t, AttemptLogs))
  {
    if k == 0 {
      var opening := FirstRole(role.name);
      RolePipelineDiscipline(role, plan.outcomes, flag, at, opening);
      RolePipelineCount(role, plan.outcomes, flag, at, opening, AttemptLogs);
      GuardedNone(RolePipeline(role, plan.outcomes, flag, at, opening), AttemptLogs);
    } else {
      var sw := Attempts(role, plan.switches, flag, at, 0);
      assert RoleTurn(k, role, plan, flag, at).events == SwitchThen(role, plan, flag, at, sw);
      AttemptsDiscipline(role, plan.switches, flag, at, 0);
      SwitchThenDiscipline(role, plan, flag, at, sw);
    }
  }

  // ---------------------------------------------------------------------------
  // The loop over the roles, for any turns

  /** The events of the loop over the roles, and the indices of the roles whose pipeline ran, in order. */
  datatype RolesRun = RolesRun(events: seq<Event>, ran: seq<nat>)

  /** Events and pipeline runs in front of the rest of the loop. */
  function Ahead(pre: seq<Event>, mine: seq<nat>, r: RolesRun): RolesRun {
    RolesRun(pre + r.events, mine + r.ran)
  }

  /** `[k]` when the pipeline of role `k` ran. */
  function Mine(k: nat, ran: bool): seq<nat> {
    if ran then [k] else []
  }

  /**
   * The loop over `n` roles from role `k` on, at trace position `at`, where
   * `turn(k, pos)` is what role `k`'s turn does from position `pos`: poll the flag
   * (set: log and leave the loop), then take the turn; a turn that stopped ends
   * the loop (its `return`).
   */
  function RolesFrom(turn: (nat, nat) -> TurnRun, n: nat, flag: StopFlag, at: nat, k: nat): RolesRun
    requires k <= n
    decreases n - k
  {
    if k == n then RolesRun([], [])
    else
      var chk := Check(flag, at);
      if chk.stop then RolesRun([StopCheck(true), Log(MultiRoleStopped)], [])
      else
        var t := turn(k, at + |chk.events|);
        var pre := chk.events + t.events;
        if t.stopped then RolesRun(pre, Mine(k, t.ran))
        else Ahead(pre, Mine(k, t.ran), RolesFrom(turn, n, flag, at + |pre|, k + 1))
  }

  /** The whole function: construct the role-switch automation (`init`: it did not raise), then the loop. */
  function MultiRoleWith(turn: (nat, nat) -> TurnRun, n: nat, init: bool, flag: StopFlag, at: nat): RolesRun {
    if !init then RolesRun([Load(RoleConfig), Log(RoleInitFailed)], [])
    else Ahead([Load(RoleConfig)], [], RolesFrom(turn, n, flag, at + 1, 0))
  }

  lemma AheadAhead(a: seq<Event>, x: seq<nat>, b: seq<Event>, y: seq<nat>, r: RolesRun)
    ensures Ahead(a, x, Ahead(b, y, r)) == Ahead(a + b, x + y, r)
  {
    Regroup(a, b, r.events);
    assert x + (y + r.ran) == (x + y) + r.ran;
  }

  lemma RolesUnfold(turn: (nat, nat) -> TurnRun, n: nat, flag: StopFlag, at: nat, k: nat, pre: seq<Event>)
    requires k < n && !Check(flag, at).stop
    requires var t := turn(k, at + |Check(flag, at).events|);
      !t.stopped && pre == Check(flag, at).events + t.events
    ensures RolesFrom(turn, n, flag, at, k)
         == Ahead(pre, Mine(k, turn(k, at + |Check(flag, at).events|).ran), RolesFrom(turn, n, flag, at + |pre|, k + 1))
  {
  }

  /** Ascending indices of roles from `k` to `n`, each at most once. */
  predicate Ascending(ran: seq<nat>, k: nat, n: nat) {
    && (forall i :: 0 <= i < |ran| ==> k <= ran[i] < n)
    && (forall i, j :: 0 <= i < j < |ran| ==> ran[i] < ran[j])
  }

  lemma AscendingCons(k: nat, n: nat, mine: seq<nat>, rest: seq<nat>)
    requires k < n && (mine == [] || mine == [k]) && Ascending(rest, k + 1, n) && |rest| <= n - (k + 1)
    ensures Ascending(mine + rest, k, n) && |mine + rest| <= n - k
  {
    if mine == [k] {
      assert forall i :: 0 < i < |mine + rest| ==> (mine + rest)[i] == rest[i - 1];
    } else {
      assert mine + rest == rest;
    }
  }

  /**
   * The loop takes the roles in list order: the pipelines that ran are those of
   * distinct roles, in ascending index order, and there are at most as many as
   * roles.
   */
  lemma {:induction false} RolesInOrder(turn: (nat, nat) -> TurnRun, n: nat, flag: StopFlag, at: nat, k: nat)
    requires k <= n
    decreases n - k
    ensures var r := RolesFrom(turn, n, flag, at, k);
      Ascending(r.ran, k, n) && |r.ran| <= n - k
  {
    if k < n && !Check(flag, at).stop {
      var t := turn(k, at + |Check(flag, at).events|);
      if !t.stopped {
        RolesInOrder(turn, n, flag, at + |Check(flag, at).events + t.events|, k + 1);
      }
      OrderRound(turn, n, flag, at, k);
    }
  }

  /** One role of RolesInOrder, given the order of the roles after it. */
  lemma OrderRound(turn: (nat, nat) -> TurnRun, n: nat, flag: StopFlag, at: nat, k: nat)
    requires k < n && !Check(flag, at).stop
    requires var t := turn(k, at + |Check(flag, at).events|);
      var r := RolesFrom(turn, n, flag, at + |Check(flag, at).events + t.events|, k + 1);
      !t.stopped ==> Ascending(r.ran, k + 1, n) && |r.ran| <= n - (k + 1)
    ensures var r := RolesFrom(turn, n, flag, at, k);
      Ascending(r.ran, k, n) && |r.ran| <= n - k
  {
    var t := turn(k, at + |Check(flag, at).events|);
    var pre := Check(flag, at).events + t.events;
    if t.stopped {
      assert RolesFrom(turn, n, flag, at, k).ran == Mine(k, t.ran) + [];
      AscendingCons(k, n, Mine(k, t.ran), []);
    } else {
      RolesUnfold(turn, n, flag, at, k, pre);
      AscendingCons(k, n, Mine(k, t.ran), RolesFrom(turn, n, flag, at + |pre|, k + 1).ran);
    }
  }

  /** The indices from `k` on whose entry in `runs` is set. */
  function Selected(runs: seq<bool>, k: nat): seq<nat>
    requires k <= |runs|
    decreases |runs| - k
  {
    if k == |runs| then [] else Mine(k, runs[k]) + Selected(runs, k + 1)
  }

  /** Every turn runs through without stopping, and runs its pipeline exactly when `runs` says so. */
  ghost predicate Settled(turn: (nat, nat) -> TurnRun, runs: seq<bool>) {
    forall k: nat, pos: nat :: k < |runs| ==> !turn(k, pos).stopped && turn(k, pos).ran == runs[k]
  }

  /** With a flag that is never set and turns that never stop, the pipelines that run are exactly the selected ones. */
  lemma {:induction false} RolesRunSelected(turn: (nat, nat) -> TurnRun, runs: seq<bool>, flag: StopFlag, at: nat, k: nat)
    requires k <= |runs| && Settled(turn, runs) && flag.NeverSet()
    decreases |runs| - k
    ensures RolesFrom(turn, |runs|, flag, at, k).ran == Selected(runs, k)
  {
    if k < |runs| {
      var t := turn(k, at + |Check(flag, at).events|);
      RolesRunSelected(turn, runs, flag, at + |Check(flag, at).events + t.events|, k + 1);
      assert !t.stopped && t.ran == runs[k];
      SelectedRound(turn, runs, flag, at, k);
    }
  }

  /** One role of RolesRunSelected, given the pipelines run by the roles after it. */
  lemma SelectedRound(turn: (nat, nat) -> TurnRun, runs: seq<bool>, flag: StopFlag, at: nat, k: nat)
    requires k < |runs| && flag.NeverSet()
    requires var t := turn(k, at + |Check(flag, at).events|);
      && !t.stopped && t.ran == runs[k]
      && RolesFrom(turn, |runs|, flag, at + |Check(flag, at).events + t.events|, k + 1).ran == Selected(runs, k + 1)
    ensures RolesFrom(turn, |runs|, flag, at, k).ran == Selected(runs, k)
  {
    var t := turn(k, at + |Check(flag, at).events|);
    var pre := Check(flag, at).events + t.events;
    RolesUnfold(turn, |runs|, flag, at, k, pre);
    assert Selected(runs, k) == Mine(k, runs[k]) + Selected(runs, k + 1);
  }

  /** Every turn closes its role once when its pipeline ran, and never otherwise. */
  ghost predicate Closing(turn: (nat, nat) -> TurnRun, n: nat) {
    forall k: nat, pos: nat :: k < n ==> Count(turn(k, pos).events, RolesDone) == if turn(k, pos).ran then 1 else 0
  }

  /** The trace closes a role exactly once for each pipeline the loop reports as run. */
  lemma {:induction false} RolesCloseEach(turn: (nat, nat) -> TurnRun, n: nat, flag: StopFlag, at: nat, k: nat)
    requires k <= n && Closing(turn, n)
    decreases n - k
    ensures var r := RolesFrom(turn, n, flag, at, k);
      Count(r.events, RolesDone) == |r.ran|
  {
    if k == n {
      assert RolesFrom(turn, n, flag, at, k) == RolesRun([], []);
    } else if Check(flag, at).stop {
      assert RolesFrom(turn, n, flag, at, k) == RolesRun([StopCheck(true), Log(MultiRoleStopped)], []);
      CountTwo(StopCheck(true), Log(MultiRoleStopped), RolesDone);
    } else {
      var t := turn(k, at + |Check(flag, at).events|);
      var pre := Check(flag, at).events + t.events;
      if !t.stopped {
        RolesCloseEach(turn, n, flag, at + |pre|, k + 1);
      }
      assert Count(t.events, RolesDone) == if t.ran then 1 else 0;
      CloseRound(turn, n, flag, at, k, t, pre);
    }
  }

  /** One role of RolesCloseEach, given the count for the roles after it. */
  lemma CloseRound(turn: (nat, nat) -> TurnRun, n: nat, flag: StopFlag, at: nat, k: nat, t: TurnRun, pre: seq<Event>)
    requires k < n && !Check(flag, at).stop
    requires t == turn(k, at + |Check(flag, at).events|) && pre == Check(flag, at).events + t.events
    requires Count(t.events, RolesDone) == (if t.ran then 1 else 0)
    requires !t.stopped ==>
      Count(RolesFrom(turn, n, flag, at + |pre|, k + 1).events, RolesDone) == |RolesFrom(turn, n, flag, at + |pre|, k + 1).ran|
    ensures var r := RolesFrom(turn, n, flag, at, k);
      Count(r.events, RolesDone) == |r.ran|
  {
    PolledCount(flag, at, t.events, RolesDone);
    CloseTurn(pre, t.ran, k, t.stopped, RolesFrom(turn, n, flag, at + |pre|, k + 1), RolesFrom(turn, n, flag, at, k));
  }

  /** CloseRound once role `k` has taken its turn, on the values involved. */
  lemma CloseTurn(pre: seq<Event>, ran: bool, k: nat, stopped: bool, rest: RolesRun, r: RolesRun)
    requires r == if stopped then RolesRun(pre, Mine(k, ran)) else Ahead(pre, Mine(k, ran), rest)
    requires Count(pre, RolesDone) == (if ran then 1 else 0)
    requires !stopped ==> Count(rest.events, RolesDone) == |rest.ran|
    ensures Count(r.events, RolesDone) == |r.ran|
  {
    if !stopped {
      AheadCount(pre, Mine(k, ran), rest, RolesDone);
    }
  }

  /** Bookkeeping: counts over events and pipeline runs in front of the rest of the loop. */
  lemma AheadCount(pre: seq<Event>, mine: seq<nat>, rest: RolesRun, kind: Kind)
    ensures Count(Ahead(pre, mine, rest).events, kind) == Count(pre, kind) + Count(rest.events, kind)
    ensures |Ahead(pre, mine, rest).ran| == |mine| + |rest.ran|
  {
    CountAppend(pre, rest.events, kind);
  }

  /** Bookkeeping: a poll that found the flag clear is none of these events. */
  lemma PolledCount(flag: StopFlag, at: nat, s: seq<Event>, k: Kind)
    requires !Check(flag, at).stop && (k == Macros || k == RolesDone)
    ensures Count(Check(flag, at).events + s, k) == Count(s, k)
  {
    CountAppend(Check(flag, at).events, s, k);
    if flag.Flag? {
      CountOne(StopCheck(false), k);
    }
  }

  /** The first turn runs no macro, every later one at most `SWITCH_MAX_RETRY`. */
  ghost predicate Bounded(turn: (nat, nat) -> TurnRun, n: nat) {
    forall k: nat, pos: nat :: k < n ==> Count(turn(k, pos).events, Macros) <= if k == 0 then 0 else SwitchMaxRetry
  }

  /** The loop runs at most `SWITCH_MAX_RETRY` macros per role after the first. */
  lemma {:induction false} RolesMacroBound(turn: (nat, nat) -> TurnRun, n: nat, flag: StopFlag, at: nat, k: nat)
    requires k <= n && Bounded(turn, n)
    decreases n - k
    ensures Count(RolesFrom(turn, n, flag, at, k).events, Macros) + (if k == 0 < n then SwitchMaxRetry else 0)
         <= SwitchMaxRetry * (n - k)
  {
    if k == n {
      assert RolesFrom(turn, n, flag, at, k) == RolesRun([], []);
    } else if Check(flag, at).stop {
      assert RolesFrom(turn, n, flag, at, k) == RolesRun([StopCheck(true), Log(MultiRoleStopped)], []);
      CountTwo(StopCheck(true), Log(MultiRoleStopped), Macros);
    } else {
      var t := turn(k, at + |Check(flag, at).events|);
      var pre := Check(flag, at).events + t.events;
      if !t.stopped {
        RolesMacroBound(turn, n, flag, at + |pre|, k + 1);
      }
      assert Count(t.events, Macros) <= if k == 0 then 0 else SwitchMaxRetry;
      MacroRound(turn, n, flag, at, k, t, pre);
    }
  }

  /** One role of RolesMacroBound, given the bound for the roles after it. */
  lemma MacroRound(turn: (nat, nat) -> TurnRun, n: nat, flag: StopFlag, at: nat, k: nat, t: TurnRun, pre: seq<Event>)
    requires k < n && !Check(flag, at).stop
    requires t == turn(k, at + |Check(flag, at).events|) && pre == Check(flag, at).events + t.events
    requires Count(t.events, Macros) <= (if k == 0 then 0 else SwitchMaxRetry)
    requires !t.stopped ==> Count(RolesFrom(turn, n, flag, at + |pre|, k + 1).events, Macros) <= SwitchMaxRetry * (n - (k + 1))
    ensures Count(RolesFrom(turn, n, flag, at, k).events, Macros) + (if k == 0 < n then SwitchMaxRetry else 0)
         <= SwitchMaxRetry * (n - k)
  {
    PolledCount(flag, at, t.events, Macros);
    MacroTurn(pre, t.ran, k, n, t.stopped, RolesFrom(turn, n, flag, at + |pre|, k + 1), RolesFrom(turn, n, flag, at, k));
  }

  /** MacroRound once role `k` has taken its turn, on the values involved. */
  lemma MacroTurn(pre: seq<Event>, ran: bool, k: nat, n: nat, stopped: bool, rest: RolesRun, r: RolesRun)
    requires k < n && r == if stopped then RolesRun(pre, Mine(k, ran)) else Ahead(pre, Mine(k, ran), rest)
    requires Count(pre, Macros) <= (if k == 0 then 0 else SwitchMaxRetry)
    requires !stopped ==> Count(rest.events, Macros) <= SwitchMaxRetry * (n - (k + 1))
    ensures Count(r.events, Macros) + (if k == 0 then SwitchMaxRetry else 0) <= SwitchMaxRetry * (n - k)
  {
    var budget := SwitchMaxRetry * (n - (k + 1));
    assert budget >= 0 && SwitchMaxRetry * (n - k) == budget + SwitchMaxRetry;
    if !stopped {
      AheadCount(pre, Mine(k, ran), rest, Macros);
    }
  }

  /** Every turn honours the stop flag, and announces each switch attempt straight after a poll that found it clear. */
  ghost predicate Disciplined(turn: (nat, nat) -> TurnRun, n: nat, flag: StopFlag) {
    forall k: nat, pos: nat :: k < n ==>
      StopDiscipline(flag, pos, turn(k, pos).events) && (flag.Flag? ==> Guarded(turn(k, pos).events, AttemptLogs))
  }

  /**
   * The loop honours the stop flag, at both levels. It polls before each role:
   * from any role on, its first event is a poll, and when that poll sees the
   * flag set the loop only logs that it stopped and runs no pipeline; every
   * switch attempt is announced straight after a poll that found the flag clear.
   */
  lemma RolesDiscipline(turn: (nat, nat) -> TurnRun, n: nat, flag: StopFlag, at: nat, k: nat)
    requires k <= n && Disciplined(turn, n, flag)
    ensures var r := RolesFrom(turn, n, flag, at, k);
      && StopDiscipline(flag, at, r.events)
      && (k < n && flag.Flag? ==> r.events != [] && r.events[0] == StopCheck(flag.IsSet(at)))
      && (flag.IsSet(at) ==> r.ran == [] && (k < n ==> r.events == [StopCheck(true), Log(MultiRoleStopped)]))
      && (flag.Flag? ==> Guarded(r.events, AttemptLogs))
  {
    RolesHonour(turn, n, flag, at, k);
    if flag.Flag? {
      RolesGuard(turn, n, flag, at, k);
    }
  }

  /** The stop discipline of RolesDiscipline. */
  lemma {:induction false} RolesHonour(turn: (nat, nat) -> TurnRun, n: nat, flag: StopFlag, at: nat, k: nat)
    requires k <= n && Disciplined(turn, n, flag)
    decreases n - k
    ensures StopDiscipline(flag, at, RolesFrom(turn, n, flag, at, k).events)
  {
    if k == n {
    } else if Check(flag, at).stop {
      DisciplineStopped(flag, at, MultiRoleStopped);
    } else {
      var t := turn(k, at + |Check(flag, at).events|);
      var pre := Check(flag, at).events + t.events;
      if !t.stopped {
        RolesHonour(turn, n, flag, at + |pre|, k + 1);
      }
      assert StopDiscipline(flag, at + |Check(flag, at).events|, t.events);
      TurnsDisciplineRound(turn, n, flag, at, k, t, pre);
    }
  }

  /** The guard clause of RolesDiscipline. */
  lemma {:induction false} RolesGuard(turn: (nat, nat) -> TurnRun, n: nat, flag: StopFlag, at: nat, k: nat)
    requires k <= n && Disciplined(turn, n, flag) && flag.Flag?
    decreases n - k
    ensures Guarded(RolesFrom(turn, n, flag, at, k).events, AttemptLogs)
  {
    if k == n {
    } else if flag.IsSet(at) {
      CountTwo(StopCheck(true), Log(MultiRoleStopped), AttemptLogs);
      GuardedNone([StopCheck(true), Log(MultiRoleStopped)], AttemptLogs);
    } else {
      var t := turn(k, at + 1);
      var pre := [StopCheck(false)] + t.events;
      if !t.stopped {
        RolesGuard(turn, n, flag, at + |pre|, k + 1);
      }
      assert Guarded(t.events, AttemptLogs);
      TurnsGuardRound(turn, n, flag, at, k, t, pre);
    }
  }

  /** One role of RolesDiscipline, given the discipline of the roles after it. */
  lemma TurnsDisciplineRound(turn: (nat, nat) -> TurnRun, n: nat, flag: StopFlag, at: nat, k: nat, t: TurnRun, pre: seq<Event>)
    requires k < n && !Check(flag, at).stop
    requires t == turn(k, at + |Check(flag, at).events|) && pre == Check(flag, at).events + t.events
    requires StopDiscipline(flag, at + |Check(flag, at).events|, t.events)
    requires !t.stopped ==> StopDiscipline(flag, at + |pre|, RolesFrom(turn, n, flag, at + |pre|, k + 1).events)
    ensures StopDiscipline(flag, at, RolesFrom(turn, n, flag, at, k).events)
  {
    DisciplineAfterCheck(flag, at, Check(flag, at), t.events);
    if t.stopped {
      assert RolesFrom(turn, n, flag, at, k).events == pre;
    } else {
      RolesUnfold(turn, n, flag, at, k, pre);
      DisciplineAppend(flag, at, pre, RolesFrom(turn, n, flag, at + |pre|, k + 1).events);
    }
  }

  /** One role of the guard clause of RolesDiscipline. */
  lemma TurnsGuardRound(turn: (nat, nat) -> TurnRun, n: nat, flag: StopFlag, at: nat, k: nat, t: TurnRun, pre: seq<Event>)
    requires k < n && flag.Flag? && !flag.IsSet(at)
    requires t == turn(k, at + 1) && pre == [StopCheck(false)] + t.events
    requires Guarded(t.events, AttemptLogs)
    requires !t.stopped ==> Guarded(RolesFrom(turn, n, flag, at + |pre|, k + 1).events, AttemptLogs)
    ensures Guarded(RolesFrom(turn, n, flag, at, k).events, AttemptLogs)
  {
    assert Check(flag, at).events == [StopCheck(false)];
    CountOne(StopCheck(false), AttemptLogs);
    GuardedNone([StopCheck(false)], AttemptLogs);
    GuardedAppend([StopCheck(false)], t.events, AttemptLogs);
    if t.stopped {
      assert RolesFrom(turn, n, flag, at, k).events == pre;
    } else {
      RolesUnfold(turn, n, flag, at, k, pre);
      GuardedAppend(pre, RolesFrom(turn, n, flag, at + |pre|, k + 1).events, AttemptLogs);
    }
  }

  // ---------------------------------------------------------------------------
  // The function over a list of roles

  /** The turns of the roles of `roles`, with what their collaborators do in `plans`. */
  function TurnOf(roles: seq<Role>, plans: seq<RolePlan>, flag: StopFlag): (nat, nat) -> TurnRun
    requires PlansFit(roles, plans)
  {
    (k: nat, pos: nat) => if k < |roles| then RoleTurn(k, roles[k], plans[k], flag, pos) else TurnRun([], false, false)
  }

  /** `run_multi_role_pipeline` over the role list `roles`, from trace position `at`. */
  function MultiRoleOver(roles: seq<Role>, init: bool, plans: seq<RolePlan>, flag: StopFlag, at: nat): RolesRun
    requires PlansFit(roles, plans)
  {
    MultiRoleWith(TurnOf(roles, plans, flag), |roles|, init, flag, at)
  }

  /** The function as the core runs it, over `ROLES`. */
  function MultiRole(init: bool, plans: seq<RolePlan>, flag: StopFlag, at: nat): RolesRun
    requires PlansFit(Roles, plans)
  {
    MultiRoleOver(Roles, init, plans, flag, at)
  }

  /**
   * `turn` gives what each role's turn does. The methods below are stated for
   * such a `turn`, so that their proofs do not look inside the turns; TurnOf is
   * one (TurnerOf).
   */
  ghost predicate IsTurner(turn: (nat, nat) -> TurnRun, roles: seq<Role>, plans: seq<RolePlan>, flag: StopFlag)
    requires PlansFit(roles, plans)
  {
    forall k: nat, pos: nat {:trigger RoleTurn(k, roles[k], plans[k], flag, pos)} ::
      k < |roles| ==> turn(k, pos) == RoleTurn(k, roles[k], plans[k], flag, pos)
  }

  lemma TurnerOf(roles: seq<Role>, plans: seq<RolePlan>, flag: StopFlag)
    requires PlansFit(roles, plans)
    ensures IsTurner(TurnOf(roles, plans, flag), roles, plans, flag)
  {
  }

  /** The turn of role `k`, as `turn` gives it. */
  method TakeTurn(roles: seq<Role>, plans: seq<RolePlan>, flag: StopFlag, pos: nat, k: nat, ghost turn: (nat, nat) -> TurnRun)
    returns (events: seq<Event>, stopped: bool, ran: bool)
    requires PlansFit(roles, plans) && IsTurner(turn, roles, plans, flag) && k < |roles|
    ensures TurnRun(events, stopped, ran) == turn(k, pos)
  {
    events, stopped, ran := RunRoleTurn(k, roles[k], plans[k], flag, pos);
  }

  /** One iteration of the loop over the roles: the stop check, then the role's turn. */
  method RoleStep(roles: seq<Role>, plans: seq<RolePlan>, flag: StopFlag, pos: nat, k: nat, ghost turn: (nat, nat) -> TurnRun)
    returns (events: seq<Event>, goOn: bool, ran: bool)
    requires PlansFit(roles, plans) && IsTurner(turn, roles, plans, flag) && k < |roles|
    ensures !goOn ==> RolesFrom(turn, |roles|, flag, pos, k) == RolesRun(events, Mine(k, ran))
    ensures goOn ==>
      RolesFrom(turn, |roles|, flag, pos, k) == Ahead(events, Mine(k, ran), RolesFrom(turn, |roles|, flag, pos + |events|, k + 1))
  {
    var chk: seq<Event> := [];
    if flag.Flag? {
      var stop := flag.IsSet(pos);
      if stop {
        return [StopCheck(true), Log(MultiRoleStopped)], false, false;
      }
      chk := [StopCheck(false)];
    }
    assert chk == Check(flag, pos).events;
    var ev, stopped, did := TakeTurn(roles, plans, flag, pos + |chk|, k, turn);
    events, ran := chk + ev, did;
    if stopped {
      return events, false, ran;
    }
    RolesUnfold(turn, |roles|, flag, pos, k, events);
    goOn := true;
  }

  /**
   * `run_multi_role_pipeline` over the role list `roles` (the source's is
   * `ROLES`), from trace position `at`; `init` says whether constructing the
   * role-switch automation succeeded. `ran` lists the indices of the roles whose
   * daily pipeline ran.
   */
  method RunMultiRolePipeline(roles: seq<Role>, init: bool, plans: seq<RolePlan>, flag: StopFlag, at: nat,
                              ghost turn: (nat, nat) -> TurnRun)
    returns (events: seq<Event>, ran: seq<nat>)
    requires PlansFit(roles, plans) && IsTurner(turn, roles, plans, flag)
    ensures RolesRun(events, ran) == MultiRoleWith(turn, |roles|, init, flag, at)
  {
    if !init {
      return [Load(RoleConfig), Log(RoleInitFailed)], [];
    }
    var loop, did := RunRoles(roles, plans, flag, at + 1, turn);
    events, ran := [Load(RoleConfig)] + loop, did;
  }

  /** The `for idx, role in enumerate(ROLES)` loop over `roles`, from trace position `at`. */
  method RunRoles(roles: seq<Role>, plans: seq<RolePlan>, flag: StopFlag, at: nat, ghost turn: (nat, nat) -> TurnRun)
    returns (events: seq<Event>, ran: seq<nat>)
    requires PlansFit(roles, plans) && IsTurner(turn, roles, plans, flag)
    ensures RolesRun(events, ran) == RolesFrom(turn, |roles|, flag, at, 0)
  {
    events, ran := [], [];
    var k, pos := 0, at;
    assert Ahead(events, ran, RolesFrom(turn, |roles|, flag, pos, k)) == RolesFrom(turn, |roles|, flag, at, 0);
    while k < |roles|
      invariant k <= |roles| && pos == at + |events|
      invariant RolesFrom(turn, |roles|, flag, at, 0) == Ahead(events, ran, RolesFrom(turn, |roles|, flag, pos, k))
    {
      var ev, goOn, did := RoleStep(roles, plans, flag, pos, k, turn);
      if !goOn {
        events, ran := events + ev, ran + Mine(k, did);
        return;
      }
      AheadAhead(events, ran, ev, Mine(k, did), RolesFrom(turn, |roles|, flag, pos + |ev|, k + 1));
      events, ran, pos, k := events + ev, ran + Mine(k, did), pos + |ev|, k + 1;
    }
    assert events + [] == events && ran + [] == ran;
  }

  /**
   * If constructing the role-switch automation raises, nothing else happens: no
   * macro, no return home, no retry run, no other configuration, no pipeline.
   */
  lemma InitFailureRunsNothing(roles: seq<Role>, plans: seq<RolePlan>, flag: StopFlag, at: nat)
    requires PlansFit(roles, plans)
    ensures var r := MultiRoleOver(roles, false, plans, flag, at);
      && r.ran == [] && Count(r.events, Loads) == 1
      && Count(r.events, Macros) == 0 && Count(r.events, ReturnHomes) == 0 && Count(r.events, RetryRuns) == 0
  {
    CountTwo(Load(RoleConfig), Log(RoleInitFailed), Loads);
    CountTwo(Load(RoleConfig), Log(RoleInitFailed), Macros);
    CountTwo(Load(RoleConfig), Log(RoleInitFailed), ReturnHomes);
    CountTwo(Load(RoleConfig), Log(RoleInitFailed), RetryRuns);
  }

  lemma TurnsClose(roles: seq<Role>, plans: seq<RolePlan>, flag: StopFlag)
    requires PlansFit(roles, plans)
    ensures Closing(TurnOf(roles, plans, flag), |roles|)
  {
    forall k: nat, pos: nat | k < |roles|
      ensures var t := RoleTurn(k, roles[k], plans[k], flag, pos);
        Count(t.events, RolesDone) == if t.ran then 1 else 0
    {
      if k == 0 {
        FirstRoleSkipsSwitch(roles[k], plans[k], flag, pos);
      } else {
        LaterRoleRunsIffSwitched(k, roles[k], plans[k], flag, pos);
      }
    }
  }

  lemma TurnsBounded(roles: seq<Role>, plans: seq<RolePlan>, flag: StopFlag)
    requires PlansFit(roles, plans)
    ensures Bounded(TurnOf(roles, plans, flag), |roles|)
  {
    forall k: nat, pos: nat | k < |roles|
      ensures Count(RoleTurn(k, roles[k], plans[k], flag, pos).events, Macros) <= if k == 0 then 0 else SwitchMaxRetry
    {
      if k == 0 {
        FirstRoleSkipsSwitch(roles[k], plans[k], flag, pos);
      } else {
        LaterRoleRunsIffSwitched(k, roles[k], plans[k], flag, pos);
      }
    }
  }

  lemma TurnsDisciplined(roles: seq<Role>, plans: seq<RolePlan>, flag: StopFlag)
    requires PlansFit(roles, plans)
    ensures Disciplined(TurnOf(roles, plans, flag), |roles|, flag)
  {
    forall k: nat, pos: nat | k < |roles|
      ensures var t := RoleTurn(k, roles[k], plans[k], flag, pos).events;
        StopDiscipline(flag, pos, t) && (flag.Flag? ==> Guarded(t, AttemptLogs))
    {
      TurnDiscipline(k, roles[k], plans[k], flag, pos);
    }
  }

  /** MultiRoleInOrder for the loop over the roles alone. */
  lemma RoleLoopInOrder(roles: seq<Role>, plans: seq<RolePlan>, flag: StopFlag, at: nat)
    requires PlansFit(roles, plans)
    ensures var r := RolesFrom(TurnOf(roles, plans, flag), |roles|, flag, at, 0);
      Ascending(r.ran, 0, |roles|) && |r.ran| <= |roles| && Count(r.events, RolesDone) == |r.ran|
  {
    var turn := TurnOf(roles, plans, flag);
    RolesInOrder(turn, |roles|, flag, at, 0);
    TurnsClose(roles, plans, flag);
    RolesCloseEach(turn, |roles|, flag, at, 0);
  }

  /**
   * Roles are taken in list order: the pipelines that ran belong to distinct
   * roles in ascending order, there are at most as many as roles, and the trace
   * closes one role's pipeline for each.
   */
  lemma MultiRoleInOrder(roles: seq<Role>, init: bool, plans: seq<RolePlan>, flag: StopFlag, at: nat)
    requires PlansFit(roles, plans)
    ensures var r := MultiRoleOver(roles, init, plans, flag, at);
      Ascending(r.ran, 0, |roles|) && |r.ran| <= |roles| && Count(r.events, RolesDone) == |r.ran|
  {
    if init {
      var r := RolesFrom(TurnOf(roles, plans, flag), |roles|, flag, at + 1, 0);
      RoleLoopInOrder(roles, plans, flag, at + 1);
      assert MultiRoleOver(roles, init, plans, flag, at) == Ahead([Load(RoleConfig)], [], r);
      CountAppend([Load(RoleConfig)], r.events, RolesDone);
      CountOne(Load(RoleConfig), RolesDone);
    } else {
      CountTwo(Load(RoleConfig), Log(RoleInitFailed), RolesDone);
    }
  }

  /** Whether each role's pipeline runs when nothing stops the function: the first always, a later one iff some macro succeeds. */
  function RoleRuns(plans: seq<RolePlan>): (runs: seq<bool>)
    ensures |runs| == |plans|
    ensures forall k :: 0 <= k < |plans| ==>
      runs[k] == (k == 0 || exists a :: 0 <= a < |plans[k].switches| && plans[k].switches[a])
  {
    seq(|plans|, k requires 0 <= k < |plans| => k == 0 || FirstOk(plans[k].switches, 0) < |plans[k].switches|)
  }

  lemma TurnsSettled(roles: seq<Role>, plans: seq<RolePlan>, flag: StopFlag)
    requires PlansFit(roles, plans) && flag.NeverSet()
    ensures Settled(TurnOf(roles, plans, flag), RoleRuns(plans))
  {
    forall k: nat, pos: nat | k < |roles|
      ensures var t := RoleTurn(k, roles[k], plans[k], flag, pos);
        !t.stopped && t.ran == RoleRuns(plans)[k]
    {
      if k == 0 {
        FirstRoleSkipsSwitch(roles[k], plans[k], flag, pos);
      } else {
        LaterRoleRunsIffSwitched(k, roles[k], plans[k], flag, pos);
        SwitchSucceedsIffSomeMacroDoes(roles[k], plans[k].switches, flag, pos);
      }
    }
  }

  /**
   * With a flag that is never set and the automation constructed, the first
   * role's pipeline runs, and a later role's runs exactly when one of its switch
   * macros succeeds; the others are skipped and the loop goes on.
   */
  lemma MultiRoleRunsSwitched(roles: seq<Role>, plans: seq<RolePlan>, flag: StopFlag, at: nat)
    requires PlansFit(roles, plans) && flag.NeverSet()
    ensures MultiRoleOver(roles, true, plans, flag, at).ran == Selected(RoleRuns(plans), 0)
  {
    TurnsSettled(roles, plans, flag);
    RolesRunSelected(TurnOf(roles, plans, flag), RoleRuns(plans), flag, at + 1, 0);
  }

  /** At most `SWITCH_MAX_RETRY` switch macros per role after the first, and none for the first. */
  lemma MultiRoleMacroBound(roles: seq<Role>, init: bool, plans: seq<RolePlan>, flag: StopFlag, at: nat)
    requires PlansFit(roles, plans) && |roles| > 0
    ensures Count(MultiRoleOver(roles, init, plans, flag, at).events, Macros) <= SwitchMaxRetry * (|roles| - 1)
  {
    var turn := TurnOf(roles, plans, flag);
    if init {
      TurnsBounded(roles, plans, flag);
      RolesMacroBound(turn, |roles|, flag, at + 1, 0);
      CountAppend([Load(RoleConfig)], RolesFrom(turn, |roles|, flag, at + 1, 0).events, Macros);
      CountOne(Load(RoleConfig), Macros);
    } else {
      CountTwo(Load(RoleConfig), Log(RoleInitFailed), Macros);
    }
  }

  /**
   * The function honours the stop flag: the only action before its first poll
   * is constructing the role-switch automation; every poll reports the flag as
   * it is then; once a poll at either level has seen the flag set, no macro,
   * return home or pipeline step follows; every switch attempt is announced
   * straight after a poll that found the flag clear, so none is announced once
   * the flag was set (MultiRoleStoppedAtStart: with the flag set when the loop
   * begins, the loop polls once, logs that it stopped and runs no pipeline).
   */
  lemma MultiRoleDiscipline(roles: seq<Role>, init: bool, plans: seq<RolePlan>, flag: StopFlag, at: nat)
    requires PlansFit(roles, plans)
    ensures var m := MultiRoleOver(roles, init, plans, flag, at);
      var r := m.events;
      && r[0] == Load(RoleConfig) && StopDiscipline(flag, at + 1, r[1..])
      && Halts(flag, at + |r|, r)
      && (flag.Flag? ==> Guarded(r, AttemptLogs))
      && (flag.Flag? ==> forall i :: 0 <= i < |r| && Is(r[i], AttemptLogs) ==> 0 < i && !flag.IsSet(at + i - 1))
  {
    TurnsDisciplined(roles, plans, flag);
    WithDiscipline(TurnOf(roles, plans, flag), |roles|, init, flag, at);
  }

  /** MultiRoleDiscipline, for any turns that honour the flag. */
  lemma WithDiscipline(turn: (nat, nat) -> TurnRun, n: nat, init: bool, flag: StopFlag, at: nat)
    requires Disciplined(turn, n, flag)
    ensures var r := MultiRoleWith(turn, n, init, flag, at).events;
      && r[0] == Load(RoleConfig) && StopDiscipline(flag, at + 1, r[1..])
      && Halts(flag, at + |r|, r)
      && (flag.Flag? ==> Guarded(r, AttemptLogs))
      && (flag.Flag? ==> forall i :: 0 <= i < |r| && Is(r[i], AttemptLogs) ==> 0 < i && !flag.IsSet(at + i - 1))
  {
    var m := MultiRoleWith(turn, n, init, flag, at);
    if init {
      var loop := RolesFrom(turn, n, flag, at + 1, 0);
      assert m.events == [Load(RoleConfig)] + loop.events;
      RolesDiscipline(turn, n, flag, at + 1, 0);
      LoadedDiscipline(flag, at, m.events, loop.events);
    } else {
      var loop := [Log(RoleInitFailed)];
      assert m.events == [Load(RoleConfig)] + loop;
      CountOne(Log(RoleInitFailed), Polls);
      CountOne(Log(RoleInitFailed), AttemptLogs);
      DisciplineLogs(flag, at + 1, loop);
      GuardedNone(loop, AttemptLogs);
      LoadedDiscipline(flag, at, m.events, loop);
    }
  }

  /** With the flag set when the loop over the roles begins, the loop polls once, logs that it stopped, and runs no pipeline. */
  lemma MultiRoleStoppedAtStart(roles: seq<Role>, init: bool, plans: seq<RolePlan>, flag: StopFlag, at: nat)
    requires PlansFit(roles, plans) && flag.IsSet(at + 1)
    ensures var m := MultiRoleOver(roles, init, plans, flag, at);
      && m.ran == []
      && (init && |roles| > 0 ==> m.events == [Load(RoleConfig), StopCheck(true), Log(MultiRoleStopped)])
  {
    if init {
      var loop := RolesFrom(TurnOf(roles, plans, flag), |roles|, flag, at + 1, 0);
      assert MultiRoleOver(roles, init, plans, flag, at) == Ahead([Load(RoleConfig)], [], loop);
      TurnsDisciplined(roles, plans, flag);
      RolesDiscipline(TurnOf(roles, plans, flag), |roles|, flag, at + 1, 0);
    }
  }

  /** Bookkeeping for MultiRoleDiscipline: constructing the automation, then a stretch that honours the flag. */
  lemma LoadedDiscipline(flag: StopFlag, at: nat, r: seq<Event>, loop: seq<Event>)
    requires r == [Load(RoleConfig)] + loop
    requires StopDiscipline(flag, at + 1, loop) && (flag.Flag? ==> Guarded(loop, AttemptLogs))
    ensures && r[0] == Load(RoleConfig) && StopDiscipline(flag, at + 1, r[1..])
      && Halts(flag, at + |r|, r)
      && (flag.Flag? ==> Guarded(r, AttemptLogs))
      && (flag.Flag? ==> forall i :: 0 <= i < |r| && Is(r[i], AttemptLogs) ==> 0 < i && !flag.IsSet(at + i - 1))
  {
    assert r[1..] == loop;
    CountOne(Load(RoleConfig), AttemptLogs);
    GuardedNone([Load(RoleConfig)], AttemptLogs);
    if flag.Flag? {
      GuardedAppend([Load(RoleConfig)], loop, AttemptLogs);
      GuardedClear(flag, at, r, AttemptLogs);
    }
  }
}
