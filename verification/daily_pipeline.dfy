/**
 * `run_daily_pipeline` of run_daily_pipeline.py: for each configuration file of
 * the flow, in order, poll the stop flag (set: log and leave the loop), log the
 * configuration, construct a `DungeonAutomation` from it, try to return to the
 * home screen and run the configuration's tasks with retry, one round at most. An
 * exception from any of the three calls is logged and the loop goes on with the
 * next configuration.
 *
 * The three calls are collaborators whose code is not part of this model: each is
 * one event of the trace, and how far a configuration got before raising is an
 * oracle (`Outcome`).
 */
module DailyPipeline {
  import opened Trace

  /**
   * `CONFIG_FLOW` as written. The comma after the mail configuration is missing,
   * so Python joins it with the next literal: three files, the third of which
   * names neither the mail nor the role-switch configuration.
   */
  const ConfigFlowAsWritten: seq<string> := [
    "configs/config_Persondaily.json",
    "configs/config_Teamdaily.json",
    "configs/config_Mail.json" + "configs/config_roles.json"
  ]

  /** `CONFIG_FLOW` with the comma restored: the four configurations its comments number. */
  const ConfigFlow: seq<string> := [
    "configs/config_Persondaily.json",
    "configs/config_Teamdaily.json",
    "configs/config_Mail.json",
    "configs/config_roles.json"
  ]

  const MailConfig := "configs/config_Mail.json"

  /** The `max_rounds` passed to `run_all_tasks_with_retry`. */
  const MaxRounds: nat := 1

  /** How one configuration's `try` block ends: which call raised, or none. */
  datatype Outcome = LoadFails | HomeRaises | RetryRaises | Finishes

  /** The calls made for a configuration: construction, return home, retry run, up to the one that raised. */
  function Calls(cfg: string, o: Outcome): seq<Event> {
    match o
    case LoadFails => [Load(cfg)]
    case HomeRaises => [Load(cfg), ReturnHome]
    case _ => [Load(cfg), ReturnHome, RunTasksWithRetry(MaxRounds)]
  }

  /** The `except` clause's log line, when one of the calls raised. */
  function Failure(cfg: string, o: Outcome): seq<Event> {
    if o == Finishes then [] else [Log(ConfigError(cfg))]
  }

  /** The body of the loop for configuration `cfg`, after the stop check. */
  function ConfigRound(cfg: string, o: Outcome): seq<Event> {
    [Log(UsingConfig(cfg))] + Calls(cfg, o) + Failure(cfg, o)
  }

  /**
   * The loop of `run_daily_pipeline` from configuration `c` on, at trace position
   * `at`, where `rounds[c]` is what configuration `c`'s `try` block does: poll the
   * flag (set: log and leave the loop), then run the block.
   */
  function Rounds(rounds: seq<seq<Event>>, flag: StopFlag, at: nat, c: nat): seq<Event>
    requires c <= |rounds|
    decreases |rounds| - c
  {
    if c == |rounds| then []
    else
      var chk := Check(flag, at);
      if chk.stop then [StopCheck(true), Log(PipelineStopped)]
      else
        var pre := chk.events + rounds[c];
        pre + Rounds(rounds, flag, at + |pre|, c + 1)
  }

  /** The `try` blocks of the configurations of `flow`. */
  function ConfigRounds(flow: seq<string>, outcomes: seq<Outcome>): (rounds: seq<seq<Event>>)
    requires |outcomes| == |flow|
    ensures |rounds| == |flow| && forall c :: 0 <= c < |flow| ==> rounds[c] == ConfigRound(flow[c], outcomes[c])
  {
    seq(|flow|, c requires 0 <= c < |flow| => ConfigRound(flow[c], outcomes[c]))
  }

  /** The events of `run_daily_pipeline` over the configuration list `flow`, at trace position `at`. */
  function DailyFrom(flow: seq<string>, outcomes: seq<Outcome>, flag: StopFlag, at: nat): seq<Event>
    requires |outcomes| == |flow|
  {
    Rounds(ConfigRounds(flow, outcomes), flag, at, 0)
  }

  /** The pipeline as the core runs it, over the (corrected) `CONFIG_FLOW`. */
  function Daily(outcomes: seq<Outcome>, flag: StopFlag, at: nat): seq<Event>
    requires |outcomes| == |ConfigFlow|
  {
    DailyFrom(ConfigFlow, outcomes, flag, at)
  }

  /** The `try`/`except` block for one configuration. */
  method RunConfig(cfg: string, o: Outcome) returns (events: seq<Event>)
    ensures events == ConfigRound(cfg, o)
  {
    events := [Log(UsingConfig(cfg)), Load(cfg)];
    if o == LoadFails {
      events := events + [Log(ConfigError(cfg))];
      return;
    }
    events := events + [ReturnHome];
    if o == HomeRaises {
      events := events + [Log(ConfigError(cfg))];
      return;
    }
    events := events + [RunTasksWithRetry(MaxRounds)];
    if o == RetryRaises {
      events := events + [Log(ConfigError(cfg))];
    }
  }

  /**
   * `run_daily_pipeline` over the configuration list `flow` (the source's is
   * `CONFIG_FLOW`), started at trace position `at`.
   */
  method RunDailyPipeline(flow: seq<string>, outcomes: seq<Outcome>, flag: StopFlag, at: nat)
    returns (events: seq<Event>)
    requires |outcomes| == |flow|
    ensures events == DailyFrom(flow, outcomes, flag, at)
  {
    ghost var rounds := ConfigRounds(flow, outcomes);
    ghost var whole := Rounds(rounds, flag, at, 0);
    assert |rounds| == |flow|;
    events := [];
    var c, pos := 0, at;
    assert whole == events + Rounds(rounds, flag, pos, c);
    while c < |flow|
      invariant c <= |flow| && pos == at + |events|
      invariant whole == events + Rounds(rounds, flag, pos, c)
    {
      var ev, goOn := ConfigStep(flow, outcomes, flag, pos, c, rounds);
      if !goOn {
        events := events + ev;
        return;
      }
      ghost var rest := Rounds(rounds, flag, pos + |ev|, c + 1);
      Regroup(events, ev, rest);
      events, pos, c := events + ev, pos + |ev|, c + 1;
    }
    assert events + [] == events;
  }

  /** One pass of the loop: the stop check, then configuration `c`'s `try` block. */
  method ConfigStep(flow: seq<string>, outcomes: seq<Outcome>, flag: StopFlag, pos: nat, c: nat,
                    ghost rounds: seq<seq<Event>>)
    returns (events: seq<Event>, goOn: bool)
    requires |outcomes| == |flow| && c < |flow| && rounds == ConfigRounds(flow, outcomes)
    ensures !goOn ==> Rounds(rounds, flag, pos, c) == events
    ensures goOn ==> Rounds(rounds, flag, pos, c) == events + Rounds(rounds, flag, pos + |events|, c + 1)
  {
    var chk: seq<Event> := [];
    if flag.Flag? {
      var stop := flag.IsSet(pos);
      if stop {
        return [StopCheck(true), Log(PipelineStopped)], false;
      }
      chk := [StopCheck(false)];
    }
    var round := RunConfig(flow[c], outcomes[c]);
    events, goOn := chk + round, true;
    RoundsUnfold(rounds, flag, pos, c, events);
  }

  lemma RoundsUnfold(rounds: seq<seq<Event>>, flag: StopFlag, pos: nat, c: nat, pre: seq<Event>)
    requires c < |rounds| && !Check(flag, pos).stop && pre == Check(flag, pos).events + rounds[c]
    ensures Rounds(rounds, flag, pos, c) == pre + Rounds(rounds, flag, pos + |pre|, c + 1)
  {
  }

  lemma Regroup(a: seq<Event>, b: seq<Event>, c: seq<Event>)
    ensures a + (b + c) == (a + b) + c
  {
  }

  // ---------------------------------------------------------------------------
  // Which configurations were loaded, and which failed

  /** The configurations constructed, in trace order. */
  function Loads(s: seq<Event>): seq<string> {
    if s == [] then []
    else (if s[0].Load? then [s[0].config] else []) + Loads(s[1..])
  }

  /** The configurations whose error was logged, in trace order. */
  function Errors(s: seq<Event>): seq<string> {
    if s == [] then []
    else (if s[0].Log? && s[0].msg.ConfigError? then [s[0].msg.config] else []) + Errors(s[1..])
  }

  lemma {:induction false} LoadsAppend(a: seq<Event>, b: seq<Event>)
    ensures Loads(a + b) == Loads(a) + Loads(b)
  {
    if a == [] {
      assert a + b == b;
    } else {
      assert (a + b)[1..] == a[1..] + b;
      LoadsAppend(a[1..], b);
    }
  }

  lemma {:induction false} ErrorsAppend(a: seq<Event>, b: seq<Event>)
    ensures Errors(a + b) == Errors(a) + Errors(b)
  {
    if a == [] {
      assert a + b == b;
    } else {
      assert (a + b)[1..] == a[1..] + b;
      ErrorsAppend(a[1..], b);
    }
  }

  /** The names, from `c` on, whose flag in `raised` is set. */
  function Failing(names: seq<string>, raised: seq<bool>, c: nat): seq<string>
    requires |raised| == |names| && c <= |names|
    decreases |names| - c
  {
    if c == |names| then []
    else (if raised[c] then [names[c]] else []) + Failing(names, raised, c + 1)
  }

  /** Which `try` blocks raised. */
  function Raising(outcomes: seq<Outcome>): (raised: seq<bool>)
    ensures |raised| == |outcomes| && forall c :: 0 <= c < |outcomes| ==> raised[c] == (outcomes[c] != Finishes)
  {
    seq(|outcomes|, c requires 0 <= c < |outcomes| => outcomes[c] != Finishes)
  }

  /** Every `run_all_tasks_with_retry` asks for `MaxRounds` rounds and comes right after a return home. */
  predicate HomeBeforeRetry(s: seq<Event>) {
    forall i :: 0 <= i < |s| && s[i].RunTasksWithRetry? ==> s[i].maxRounds == MaxRounds && 0 < i && s[i - 1] == ReturnHome
  }

  lemma HomeBeforeRetryAppend(a: seq<Event>, b: seq<Event>)
    requires HomeBeforeRetry(a) && HomeBeforeRetry(b) && (b != [] ==> !b[0].RunTasksWithRetry?)
    ensures HomeBeforeRetry(a + b)
  {
    forall i | 0 <= i < |a + b| && (a + b)[i].RunTasksWithRetry?
      ensures (a + b)[i].maxRounds == MaxRounds && 0 < i && (a + b)[i - 1] == ReturnHome
    {
      if i >= |a| {
        assert (a + b)[i] == b[i - |a|];
        assert (a + b)[i - 1] == b[i - |a| - 1];
      }
    }
  }

  /** Every construction of a configuration comes right after the line naming that configuration. */
  predicate Announced(s: seq<Event>) {
    forall i :: 0 <= i < |s| ==> AnnouncedAt(s, i)
  }

  /** Announced at index `i` of `s`. */
  predicate AnnouncedAt(s: seq<Event>, i: nat)
    requires i < |s|
  {
    s[i].Load? ==> 0 < i && s[i - 1] == Log(UsingConfig(s[i].config))
  }

  lemma AnnouncedAppend(a: seq<Event>, b: seq<Event>)
    requires Announced(a) && Announced(b)
    ensures Announced(a + b)
  {
    forall i | 0 <= i < |a + b|
      ensures AnnouncedAt(a + b, i)
    {
      if i < |a| {
        assert AnnouncedAt(a, i);
      } else {
        assert AnnouncedAt(b, i - |a|);
        assert (a + b)[i] == b[i - |a|];
        if 0 < i - |a| {
          assert (a + b)[i - 1] == b[i - |a| - 1];
        }
      }
    }
  }

  lemma CallsFacts(cfg: string, o: Outcome)
    ensures var s := Calls(cfg, o);
      Loads(s) == [cfg] && Errors(s) == [] && HomeBeforeRetry(s) && !s[0].RunTasksWithRetry?
  {
    var s := Calls(cfg, o);
    assert s[0] == Load(cfg);
    forall e | e in s[1..]
      ensures e == ReturnHome || e == RunTasksWithRetry(MaxRounds)
    {
    }
    Unlisted(s[1..]);
    assert s == [s[0]] + s[1..];
    forall i | 0 <= i < |s| && s[i].RunTasksWithRetry?
      ensures s[i].maxRounds == MaxRounds && 0 < i && s[i - 1] == ReturnHome
    {
    }
  }

  /** A trace that constructs nothing and logs no error lists neither. */
  lemma {:induction false} Unlisted(s: seq<Event>)
    requires forall e :: e in s ==> e == ReturnHome || e == RunTasksWithRetry(MaxRounds)
    ensures Loads(s) == [] && Errors(s) == []
  {
    if s != [] {
      assert s[0] in s;
      assert forall e :: e in s[1..] ==> e in s;
      Unlisted(s[1..]);
    }
  }

  lemma FailureFacts(cfg: string, o: Outcome)
    ensures var s := Failure(cfg, o);
      Loads(s) == [] && Errors(s) == (if o == Finishes then [] else [cfg]) && HomeBeforeRetry(s)
  {
    if o != Finishes {
      assert Failure(cfg, o)[1..] == [];
    }
  }

  /** Which configuration one `try` block constructs, and which it reports as failed. */
  lemma ConfigRoundLists(cfg: string, o: Outcome)
    ensures var s := ConfigRound(cfg, o);
      Loads(s) == [cfg] && Errors(s) == (if o == Finishes then [] else [cfg])
  {
    var u := [Log(UsingConfig(cfg))];
    assert u[1..] == [];
    CallsFacts(cfg, o);
    FailureFacts(cfg, o);
    LoadsAppend(u + Calls(cfg, o), Failure(cfg, o));
    LoadsAppend(u, Calls(cfg, o));
    ErrorsAppend(u + Calls(cfg, o), Failure(cfg, o));
    ErrorsAppend(u, Calls(cfg, o));
  }

  /** One `try` block polls no flag, runs no macro, announces no switch attempt and closes no role. */
  lemma ConfigRoundNone(cfg: string, o: Outcome, k: Kind)
    requires k == StopsSeen || k == Polls || k == Macros || k == AttemptLogs || k == RolesDone
    ensures Count(ConfigRound(cfg, o), k) == 0
  {
    CountNone(ConfigRound(cfg, o), k);
  }

  /** One `try` block opens with its log line and returns home before its retry run. */
  lemma ConfigRoundShape(cfg: string, o: Outcome)
    ensures var s := ConfigRound(cfg, o);
      HomeBeforeRetry(s) && s[0] == Log(UsingConfig(cfg))
  {
    var u := [Log(UsingConfig(cfg))];
    CallsFacts(cfg, o);
    FailureFacts(cfg, o);
    HomeBeforeRetryAppend(u, Calls(cfg, o));
    HomeBeforeRetryAppend(u + Calls(cfg, o), Failure(cfg, o));
  }

  /**
   * One `try` block logs the line naming its configuration first, and no other
   * such line, and constructs the configuration right after it.
   */
  lemma ConfigRoundAnnounced(cfg: string, o: Outcome)
    ensures var s := ConfigRound(cfg, o);
      Opens(s, ConfigLogs) && Announced(s)
  {
    var s := ConfigRound(cfg, o);
    var rest := s[1..];
    assert rest == Calls(cfg, o) + Failure(cfg, o);
    assert rest[0] == Load(cfg);
    forall e | e in rest
      ensures !Is(e, ConfigLogs)
    {
    }
    CountNone(rest, ConfigLogs);
    forall i | 0 <= i < |s|
      ensures AnnouncedAt(s, i)
    {
      if i >= 2 {
        assert s[i] == rest[i - 1] && rest[i - 1] in rest[1..];
      }
    }
  }

  // ---------------------------------------------------------------------------
  // The loop, for any `try` blocks

  /** Each block constructs its own configuration, and nothing else. */
  ghost predicate LoadsEach(rounds: seq<seq<Event>>, names: seq<string>) {
    |names| == |rounds| && forall c :: 0 <= c < |rounds| ==> Loads(rounds[c]) == [names[c]]
  }

  /** Each block reports its own configuration when `raised` says so, and nothing else. */
  ghost predicate ReportsEach(rounds: seq<seq<Event>>, names: seq<string>, raised: seq<bool>) {
    && |names| == |rounds| && |raised| == |rounds|
    && forall c :: 0 <= c < |rounds| ==> Errors(rounds[c]) == (if raised[c] then [names[c]] else [])
  }

  /** No block has an event of kind `k`. */
  ghost predicate NoneOf(rounds: seq<seq<Event>>, k: Kind) {
    forall c :: 0 <= c < |rounds| ==> Count(rounds[c], k) == 0
  }

  /**
   * Each block begins with the line naming its configuration, the only such
   * line it logs, constructs configurations only right after their line, and
   * keeps its retry runs after a return home.
   */
  ghost predicate Shaped(rounds: seq<seq<Event>>) {
    forall c :: 0 <= c < |rounds| ==>
      && rounds[c] != [] && rounds[c][0].Log? && HomeBeforeRetry(rounds[c])
      && Opens(rounds[c], ConfigLogs) && Announced(rounds[c])
  }

  /** Bookkeeping: a poll that found the flag clear loads and reports nothing. */
  lemma Polled(flag: StopFlag, at: nat, s: seq<Event>)
    requires !Check(flag, at).stop
    ensures Loads(Check(flag, at).events + s) == Loads(s) && Errors(Check(flag, at).events + s) == Errors(s)
  {
    if flag.Flag? {
      assert (Check(flag, at).events + s)[1..] == s;
    } else {
      assert Check(flag, at).events + s == s;
    }
  }

  lemma StoppedQuiet()
    ensures var s := [StopCheck(true), Log(PipelineStopped)];
      Loads(s) == [] && Errors(s) == [] && HomeBeforeRetry(s)
  {
    var s := [StopCheck(true), Log(PipelineStopped)];
    assert s[1..] == [Log(PipelineStopped)] && s[1..][1..] == [];
  }

  /** Bookkeeping: a block that loads `names[c]`, then the rest of the loop. */
  lemma PrefixStep(names: seq<string>, c: nat, pre: seq<Event>, rest: seq<Event>)
    requires c < |names| && Loads(pre) == [names[c]] && Loads(rest) <= names[c + 1..]
    ensures Loads(pre + rest) <= names[c..]
  {
    LoadsAppend(pre, rest);
    assert names[c..] == [names[c]] + names[c + 1..];
    assert names[c..][..|[names[c]] + Loads(rest)|] == [names[c]] + Loads(rest);
  }

  /**
   * The loop constructs configurations in list order, each at most once: those
   * constructed from `c` on are a prefix of those listed from `c` on.
   */
  lemma {:induction false} RoundsLoadInOrder(rounds: seq<seq<Event>>, names: seq<string>, flag: StopFlag, at: nat, c: nat)
    requires c <= |rounds| && LoadsEach(rounds, names)
    decreases |rounds| - c
    ensures Loads(Rounds(rounds, flag, at, c)) <= names[c..]
  {
    if c == |rounds| {
    } else if Check(flag, at).stop {
      StoppedQuiet();
    } else {
      var pre := Check(flag, at).events + rounds[c];
      RoundsLoadInOrder(rounds, names, flag, at + |pre|, c + 1);
      RoundsUnfold(rounds, flag, at, c, pre);
      Polled(flag, at, rounds[c]);
      PrefixStep(names, c, pre, Rounds(rounds, flag, at + |pre|, c + 1));
    }
  }

  /** With a flag that is never set, every configuration from `c` on is constructed, in order. */
  lemma {:induction false} RoundsLoadEvery(rounds: seq<seq<Event>>, names: seq<string>, flag: StopFlag, at: nat, c: nat)
    requires c <= |rounds| && LoadsEach(rounds, names) && flag.NeverSet()
    decreases |rounds| - c
    ensures Loads(Rounds(rounds, flag, at, c)) == names[c..]
  {
    if c < |rounds| {
      var pre := Check(flag, at).events + rounds[c];
      RoundsLoadEvery(rounds, names, flag, at + |pre|, c + 1);
      RoundsUnfold(rounds, flag, at, c, pre);
      Polled(flag, at, rounds[c]);
      LoadsAppend(pre, Rounds(rounds, flag, at + |pre|, c + 1));
      assert names[c..] == [names[c]] + names[c + 1..];
    }
  }

  /** With a flag that is never set, exactly the blocks that raised are reported, in order. */
  lemma {:induction false} RoundsReportFailing(
    rounds: seq<seq<Event>>, names: seq<string>, raised: seq<bool>, flag: StopFlag, at: nat, c: nat)
    requires c <= |rounds| && ReportsEach(rounds, names, raised) && flag.NeverSet()
    decreases |rounds| - c
    ensures Errors(Rounds(rounds, flag, at, c)) == Failing(names, raised, c)
  {
    if c < |rounds| {
      var pre := Check(flag, at).events + rounds[c];
      RoundsReportFailing(rounds, names, raised, flag, at + |pre|, c + 1);
      RoundsUnfold(rounds, flag, at, c, pre);
      Polled(flag, at, rounds[c]);
      ErrorsAppend(pre, Rounds(rounds, flag, at + |pre|, c + 1));
    }
  }

  /** With a flag that is never set, the flag is polled once before every block. */
  lemma {:induction false} RoundsPollEach(rounds: seq<seq<Event>>, flag: StopFlag, at: nat, c: nat)
    requires c <= |rounds| && NoneOf(rounds, Polls) && flag.NeverSet()
    decreases |rounds| - c
    ensures Count(Rounds(rounds, flag, at, c), Polls) == if flag.Flag? then |rounds| - c else 0
  {
    if c < |rounds| {
      var pre := Check(flag, at).events + rounds[c];
      RoundsPollEach(rounds, flag, at + |pre|, c + 1);
      RoundsUnfold(rounds, flag, at, c, pre);
      CountAppend(pre, Rounds(rounds, flag, at + |pre|, c + 1), Polls);
      CountAppend(Check(flag, at).events, rounds[c], Polls);
      if flag.Flag? {
        CountOne(StopCheck(false), Polls);
      }
    }
  }

  /** Bookkeeping: one round keeps every retry run right after a return home. */
  lemma ShapedStep(flag: StopFlag, at: nat, round: seq<Event>, rest: seq<Event>)
    requires !Check(flag, at).stop && round != [] && round[0].Log? && HomeBeforeRetry(round)
    requires HomeBeforeRetry(rest) && (rest != [] ==> !rest[0].RunTasksWithRetry?)
    ensures var pre := Check(flag, at).events + round;
      HomeBeforeRetry(pre + rest) && !(pre + rest)[0].RunTasksWithRetry?
  {
    var chk := Check(flag, at).events;
    HomeBeforeRetryAppend(chk, round);
    HomeBeforeRetryAppend(chk + round, rest);
  }

  /** Every `run_all_tasks_with_retry` of the loop comes right after a return home and asks for one round. */
  lemma {:induction false} RoundsHomeBeforeRetry(rounds: seq<seq<Event>>, flag: StopFlag, at: nat, c: nat)
    requires c <= |rounds| && Shaped(rounds)
    decreases |rounds| - c
    ensures var s := Rounds(rounds, flag, at, c);
      HomeBeforeRetry(s) && (s != [] ==> !s[0].RunTasksWithRetry?)
  {
    if c == |rounds| {
    } else if Check(flag, at).stop {
      StoppedQuiet();
    } else {
      var pre := Check(flag, at).events + rounds[c];
      RoundsHomeBeforeRetry(rounds, flag, at + |pre|, c + 1);
      RoundsUnfold(rounds, flag, at, c, pre);
      ShapedStep(flag, at, rounds[c], Rounds(rounds, flag, at + |pre|, c + 1));
    }
  }

  /**
   * The loop honours the stop flag (see Trace.StopDiscipline). It polls before
   * each block: while a block is left, its first event is a poll, and when that
   * poll sees the flag set the loop only logs that it stopped; with blocks that
   * open with the line naming their configuration, every such line comes
   * straight after a poll that found the flag clear.
   */
  lemma RoundsDiscipline(rounds: seq<seq<Event>>, flag: StopFlag, at: nat, c: nat)
    requires c <= |rounds| && NoneOf(rounds, Polls)
    ensures var r := Rounds(rounds, flag, at, c);
      && StopDiscipline(flag, at, r)
      && (c < |rounds| && flag.Flag? ==> r != [] && r[0] == StopCheck(flag.IsSet(at)))
      && (c < |rounds| && flag.IsSet(at) ==> r == [StopCheck(true), Log(PipelineStopped)])
      && (flag.Flag? && Shaped(rounds) ==> Guarded(r, ConfigLogs))
  {
    RoundsHonour(rounds, flag, at, c);
    if flag.Flag? && Shaped(rounds) {
      RoundsGuards(rounds, flag, at, c);
    }
  }

  /** The guard clause of RoundsDiscipline. */
  lemma {:induction false} RoundsGuards(rounds: seq<seq<Event>>, flag: StopFlag, at: nat, c: nat)
    requires c <= |rounds| && flag.Flag? && Shaped(rounds)
    decreases |rounds| - c
    ensures Guarded(Rounds(rounds, flag, at, c), ConfigLogs)
  {
    if c == |rounds| {
    } else if flag.IsSet(at) {
      CountTwo(StopCheck(true), Log(PipelineStopped), ConfigLogs);
      GuardedNone([StopCheck(true), Log(PipelineStopped)], ConfigLogs);
    } else {
      var pre := [StopCheck(false)] + rounds[c];
      assert Check(flag, at).events == [StopCheck(false)];
      RoundsGuards(rounds, flag, at + |pre|, c + 1);
      RoundsUnfold(rounds, flag, at, c, pre);
      GuardedOpen(rounds[c], ConfigLogs);
      GuardedAppend(pre, Rounds(rounds, flag, at + |pre|, c + 1), ConfigLogs);
    }
  }

  /** Every construction in the loop comes right after the line naming its configuration. */
  lemma {:induction false} RoundsAnnounced(rounds: seq<seq<Event>>, flag: StopFlag, at: nat, c: nat)
    requires c <= |rounds| && Shaped(rounds)
    decreases |rounds| - c
    ensures Announced(Rounds(rounds, flag, at, c))
  {
    if c == |rounds| {
    } else if Check(flag, at).stop {
      var stop := [StopCheck(true), Log(PipelineStopped)];
      assert AnnouncedAt(stop, 0) && AnnouncedAt(stop, 1);
    } else {
      var pre := Check(flag, at).events + rounds[c];
      RoundsAnnounced(rounds, flag, at + |pre|, c + 1);
      RoundsUnfold(rounds, flag, at, c, pre);
      if flag.Flag? {
        assert AnnouncedAt(Check(flag, at).events, 0);
      }
      AnnouncedAppend(Check(flag, at).events, rounds[c]);
      AnnouncedAppend(pre, Rounds(rounds, flag, at + |pre|, c + 1));
    }
  }

  /** The stop discipline of RoundsDiscipline. */
  lemma {:induction false} RoundsHonour(rounds: seq<seq<Event>>, flag: StopFlag, at: nat, c: nat)
    requires c <= |rounds| && NoneOf(rounds, Polls)
    decreases |rounds| - c
    ensures StopDiscipline(flag, at, Rounds(rounds, flag, at, c))
  {
    if c == |rounds| {
    } else if Check(flag, at).stop {
      DisciplineStopped(flag, at, PipelineStopped);
    } else {
      var pre := Check(flag, at).events + rounds[c];
      RoundsHonour(rounds, flag, at + |pre|, c + 1);
      RoundsUnfold(rounds, flag, at, c, pre);
      DisciplineChecked(flag, at, rounds[c]);
      DisciplineAppend(flag, at, pre, Rounds(rounds, flag, at + |pre|, c + 1));
    }
  }

  /** A loop over blocks without macros runs no macro, and one over blocks that close no role closes none. */
  lemma {:induction false} RoundsRunNone(rounds: seq<seq<Event>>, k: Kind, flag: StopFlag, at: nat, c: nat)
    requires c <= |rounds| && NoneOf(rounds, k) && (k == Macros || k == AttemptLogs || k == RolesDone)
    decreases |rounds| - c
    ensures Count(Rounds(rounds, flag, at, c), k) == 0
  {
    if c == |rounds| {
    } else if Check(flag, at).stop {
      CountTwo(StopCheck(true), Log(PipelineStopped), k);
    } else {
      var pre := Check(flag, at).events + rounds[c];
      RoundsRunNone(rounds, k, flag, at + |pre|, c + 1);
      RoundsUnfold(rounds, flag, at, c, pre);
      CountAppend(pre, Rounds(rounds, flag, at + |pre|, c + 1), k);
      CountAppend(Check(flag, at).events, rounds[c], k);
      if flag.Flag? {
        CountOne(StopCheck(false), k);
      }
    }
  }

  // ---------------------------------------------------------------------------
  // The pipeline over a configuration list

  /** The `try` blocks of a configuration list meet every hypothesis of the loop lemmas. */
  lemma ConfigRoundsFit(flow: seq<string>, outcomes: seq<Outcome>)
    requires |outcomes| == |flow|
    ensures var rounds := ConfigRounds(flow, outcomes);
      && LoadsEach(rounds, flow) && ReportsEach(rounds, flow, Raising(outcomes))
      && NoneOf(rounds, StopsSeen) && NoneOf(rounds, Polls) && NoneOf(rounds, Macros) && NoneOf(rounds, RolesDone)
      && NoneOf(rounds, AttemptLogs) && Shaped(rounds)
  {
    var rounds := ConfigRounds(flow, outcomes);
    forall c | 0 <= c < |flow|
      ensures Loads(rounds[c]) == [flow[c]]
      ensures Errors(rounds[c]) == (if Raising(outcomes)[c] then [flow[c]] else [])
    {
      ConfigRoundLists(flow[c], outcomes[c]);
    }
    forall c | 0 <= c < |flow|
      ensures Count(rounds[c], StopsSeen) == 0 && Count(rounds[c], Polls) == 0 && Count(rounds[c], Macros) == 0
      ensures Count(rounds[c], RolesDone) == 0 && Count(rounds[c], AttemptLogs) == 0
      ensures rounds[c] != [] && rounds[c][0].Log? && HomeBeforeRetry(rounds[c])
      ensures Opens(rounds[c], ConfigLogs) && Announced(rounds[c])
    {
      ConfigRoundNone(flow[c], outcomes[c], StopsSeen);
      ConfigRoundNone(flow[c], outcomes[c], Polls);
      ConfigRoundNone(flow[c], outcomes[c], Macros);
      ConfigRoundNone(flow[c], outcomes[c], RolesDone);
      ConfigRoundNone(flow[c], outcomes[c], AttemptLogs);
      ConfigRoundShape(flow[c], outcomes[c]);
      ConfigRoundAnnounced(flow[c], outcomes[c]);
    }
  }

  /**
   * Configurations are constructed in the order of the list, each at most once,
   * and a stop leaves only a prefix of the list constructed.
   */
  lemma DailyLoadsInOrder(flow: seq<string>, outcomes: seq<Outcome>, flag: StopFlag, at: nat)
    requires |outcomes| == |flow|
    ensures Loads(DailyFrom(flow, outcomes, flag, at)) <= flow
  {
    ConfigRoundsFit(flow, outcomes);
    RoundsLoadInOrder(ConfigRounds(flow, outcomes), flow, flag, at, 0);
  }

  /**
   * With a flag that is never set, every configuration is constructed, in order,
   * whatever its predecessors raised, and exactly those whose block raised are
   * reported, in order; the flag is polled once per configuration.
   */
  lemma DailyRunsEvery(flow: seq<string>, outcomes: seq<Outcome>, flag: StopFlag, at: nat)
    requires |outcomes| == |flow| && flag.NeverSet()
    ensures var s := DailyFrom(flow, outcomes, flag, at);
      && Loads(s) == flow
      && Errors(s) == Failing(flow, Raising(outcomes), 0)
      && Count(s, Polls) == if flag.Flag? then |flow| else 0
  {
    var rounds := ConfigRounds(flow, outcomes);
    ConfigRoundsFit(flow, outcomes);
    RoundsLoadEvery(rounds, flow, flag, at, 0);
    RoundsReportFailing(rounds, flow, Raising(outcomes), flag, at, 0);
    RoundsPollEach(rounds, flag, at, 0);
  }

  /** Every `run_all_tasks_with_retry` asks for one round and comes right after `try_return_home`. */
  lemma DailyHomeBeforeRetry(flow: seq<string>, outcomes: seq<Outcome>, flag: StopFlag, at: nat)
    requires |outcomes| == |flow|
    ensures HomeBeforeRetry(DailyFrom(flow, outcomes, flag, at))
  {
    ConfigRoundsFit(flow, outcomes);
    RoundsHomeBeforeRetry(ConfigRounds(flow, outcomes), flag, at, 0);
  }

  /**
   * The pipeline honours the stop flag (see Trace.StopDiscipline). The line
   * naming each configuration comes straight after a poll that found the flag
   * clear, and the configuration is constructed right after that line: no
   * configuration is constructed once the flag is set.
   */
  lemma DailyDiscipline(flow: seq<string>, outcomes: seq<Outcome>, flag: StopFlag, at: nat)
    requires |outcomes| == |flow|
    ensures var s := DailyFrom(flow, outcomes, flag, at);
      && StopDiscipline(flag, at, s)
      && (flag.Flag? ==> Guarded(s, ConfigLogs))
      && (flag.Flag? ==> forall i :: 0 <= i < |s| && s[i].Load? ==>
            && 1 < i && s[i - 1] == Log(UsingConfig(s[i].config))
            && s[i - 2] == StopCheck(false) && !flag.IsSet(at + i - 2))
  {
    ConfigRoundsFit(flow, outcomes);
    RoundsDiscipline(ConfigRounds(flow, outcomes), flag, at, 0);
    if flag.Flag? {
      RoundsAnnounced(ConfigRounds(flow, outcomes), flag, at, 0);
      LoadsCleared(flag, at, DailyFrom(flow, outcomes, flag, at));
    }
  }

  /** A trace whose configuration lines are guarded and announce each construction constructs nothing once the flag is set. */
  lemma LoadsCleared(flag: StopFlag, at: nat, s: seq<Event>)
    requires Fresh(flag, at, s) && Guarded(s, ConfigLogs) && Announced(s)
    ensures forall i :: 0 <= i < |s| && s[i].Load? ==>
      && 1 < i && s[i - 1] == Log(UsingConfig(s[i].config))
      && s[i - 2] == StopCheck(false) && !flag.IsSet(at + i - 2)
  {
    GuardedClear(flag, at, s, ConfigLogs);
    forall i | 0 <= i < |s| && s[i].Load?
      ensures 1 < i && s[i - 1] == Log(UsingConfig(s[i].config))
      ensures s[i - 2] == StopCheck(false) && !flag.IsSet(at + i - 2)
    {
      assert AnnouncedAt(s, i);
      assert Is(s[i - 1], ConfigLogs);
    }
  }

  /** The pipeline runs no switch macro, announces no switch attempt and logs no role's completion. */
  lemma DailyRunsNoMacro(flow: seq<string>, outcomes: seq<Outcome>, flag: StopFlag, at: nat)
    requires |outcomes| == |flow|
    ensures Count(DailyFrom(flow, outcomes, flag, at), Macros) == 0
    ensures Count(DailyFrom(flow, outcomes, flag, at), AttemptLogs) == 0
    ensures Count(DailyFrom(flow, outcomes, flag, at), RolesDone) == 0
  {
    ConfigRoundsFit(flow, outcomes);
    RoundsRunNone(ConfigRounds(flow, outcomes), Macros, flag, at, 0);
    RoundsRunNone(ConfigRounds(flow, outcomes), AttemptLogs, flag, at, 0);
    RoundsRunNone(ConfigRounds(flow, outcomes), RolesDone, flag, at, 0);
  }

  /**
   * `CONFIG_FLOW` as written lists three files, and the pipeline never constructs
   * the mail configuration, whatever happens.
   */
  lemma AsWrittenSkipsMail(outcomes: seq<Outcome>, flag: StopFlag, at: nat)
    requires |outcomes| == |ConfigFlowAsWritten|
    ensures |ConfigFlowAsWritten| == 3
    ensures MailConfig !in Loads(DailyFrom(ConfigFlowAsWritten, outcomes, flag, at))
  {
    var loads := Loads(DailyFrom(ConfigFlowAsWritten, outcomes, flag, at));
    DailyLoadsInOrder(ConfigFlowAsWritten, outcomes, flag, at);
    assert |ConfigFlowAsWritten[2]| != |MailConfig|;
    assert forall i :: 0 <= i < |loads| ==> loads[i] == ConfigFlowAsWritten[i];
  }

  /** The four configurations differ from one another (in the first letter after `config_`). */
  lemma ConfigFlowDistinct()
    ensures forall i, j :: 0 <= i < j < |ConfigFlow| ==> ConfigFlow[i] != ConfigFlow[j]
  {
    assert ConfigFlow[0][15] != ConfigFlow[1][15] && ConfigFlow[0][15] != ConfigFlow[2][15] && ConfigFlow[0][15] != ConfigFlow[3][15];
    assert ConfigFlow[1][15] != ConfigFlow[2][15] && ConfigFlow[1][15] != ConfigFlow[3][15];
    assert ConfigFlow[2][15] != ConfigFlow[3][15];
  }

  /**
   * With the comma restored the pipeline visits four configurations, each at most
   * once; with a flag that is never set it visits all four in order, the mail
   * configuration third.
   */
  lemma DailyVisitsEachOnce(outcomes: seq<Outcome>, flag: StopFlag, at: nat)
    requires |outcomes| == |ConfigFlow|
    ensures |ConfigFlow| == 4
    ensures var loads := Loads(Daily(outcomes, flag, at));
      forall i, j :: 0 <= i < j < |loads| ==> loads[i] != loads[j]
    ensures flag.NeverSet() ==> Loads(Daily(outcomes, flag, at)) == ConfigFlow && ConfigFlow[2] == MailConfig
  {
    var loads := Loads(Daily(outcomes, flag, at));
    DailyLoadsInOrder(ConfigFlow, outcomes, flag, at);
    assert forall i :: 0 <= i < |loads| ==> loads[i] == ConfigFlow[i];
    ConfigFlowDistinct();
    if flag.NeverSet() {
      DailyRunsEvery(ConfigFlow, outcomes, flag, at);
    }
  }
}
