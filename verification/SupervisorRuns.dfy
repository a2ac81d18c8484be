/** What the supervisor guarantees over whole runs: one web surface at a time, an
    amortised bound on its restarts, and when a failing surface turns fatal. */
module SupervisorRuns {
  import opened Options
  import opened RestartPolicy
  import opened Supervisor

  // ---- exactly one web surface ----

  /** The web surface is either live or waiting for its restart, never both. */
  predicate OneWeb(s: Sup) {
    && s.tasks[Web] + (if s.pending.Some? then 1 else 0) == 1
    && s.web.Some?
    && s.web.value.retries <= s.cfg.maxRetries
    && s.web.value.lastStart <= s.clock
    && (Countable(s.cfg) && s.pending.Some? ==> s.web.value.retries >= 1)
  }

  /** The budget can be counted at all: `retries` does not wrap around. */
  predicate Countable(cfg: RestartConfig) {
    cfg.maxRetries < U32_MAX
  }

  predicate IsMissingState(p: Phase) {
    p.Exited? && p.outcome.Fatal? && p.outcome.reason == MissingWebState
  }

  predicate Kept(s: Sup, s': Sup) {
    && s'.cfg == s.cfg && s'.watched == s.watched
    && s'.hasGatewayStop == s.hasGatewayStop && s'.gatewayStops == s.gatewayStops
    && (s'.phase == Running ==> OneWeb(s'))
    && !IsMissingState(s'.phase)
  }

  lemma CrashKeepsOneWeb(s: Sup, e: Event)
    requires Enabled(s, e) && OneWeb(s) && e.TaskDone? && e.tag == Web
    ensures Kept(s, Step(s, e))
  {}

  lemma RestartKeepsOneWeb(s: Sup, e: Event)
    requires Enabled(s, e) && OneWeb(s) && e.RestartDue?
    ensures Kept(s, Step(s, e))
  {}

  lemma StepKeepsOneWeb(s: Sup, e: Event)
    requires Enabled(s, e) && OneWeb(s)
    ensures Kept(s, Step(s, e))
  {
    if e.TaskDone? && e.tag == Web {
      CrashKeepsOneWeb(s, e);
    } else if e.RestartDue? {
      RestartKeepsOneWeb(s, e);
    }
  }

  /** In every reachable state that still runs there is exactly one web surface, its
      budget is not overdrawn, and no run ends in either "missing web state" arm. */
  lemma {:induction false} ExactlyOneWeb(ss: seq<Sup>, es: seq<Event>, n: nat)
    requires IsRun(ss, es) && Booted(ss[0]) && n <= |es|
    ensures ss[n].cfg == ss[0].cfg && ss[n].watched == ss[0].watched
    ensures ss[n].hasGatewayStop == ss[0].hasGatewayStop && ss[n].gatewayStops == ss[0].gatewayStops
    ensures ss[n].phase == Running ==> OneWeb(ss[n])
    ensures !IsMissingState(ss[n].phase)
  {
    if n > 0 {
      ExactlyOneWeb(ss, es, n - 1);
      assert IsTurn(ss, es, n - 1);
      StepKeepsOneWeb(ss[n - 1], es[n - 1]);
      assert Kept(ss[n - 1], ss[n]);
    }
  }

  lemma RunsUntilTheEnd(ss: seq<Sup>, es: seq<Event>)
    requires IsRun(ss, es)
    ensures forall i :: 0 <= i < |es| ==> ss[i].phase == Running
  {
    forall i | 0 <= i < |es|
      ensures ss[i].phase == Running
    {
      assert IsTurn(ss, es, i);
    }
  }

  /** Any critical completion ends the run there, fatally, under that task's name. */
  lemma CriticalDeathIsFatal(ss: seq<Sup>, es: seq<Event>, k: nat)
    requires IsRun(ss, es) && k < |es|
    requires es[k].TaskDone? && es[k].tag.Critical?
    ensures k == |es| - 1
    ensures ss[k + 1].phase == Exited(Fatal(es[k].tag.name, TaskExited(es[k].exit)))
  {
    assert IsTurn(ss, es, k);
    RunsUntilTheEnd(ss, es);
  }

  /** However the run ends, draining cancels the root token and stops the gateway once. */
  lemma ExitDrainsOnce(ss: seq<Sup>, es: seq<Event>)
    requires IsRun(ss, es) && Booted(ss[0])
    requires ss[0].hasGatewayStop && ss[0].gatewayStops == 0
    ensures var drained := Drain(ss[|es|]);
            && drained.rootCancelled && drained.gatewayStops == 1
            && Drain(drained) == drained
            && drained.phase == ss[|es|].phase
  {
    ExactlyOneWeb(ss, es, |es|);
  }

  // ---- counting failures ----

  /** A crash of the live surface or a restart that failed to come up. */
  predicate IsFailure(e: Event) {
    (e.TaskDone? && e.tag == Web) || (e.RestartDue? && !e.started)
  }

  function Failures(es: seq<Event>, n: nat): nat
    requires n <= |es|
  {
    if n == 0 then 0 else Failures(es, n - 1) + if IsFailure(es[n - 1]) then 1 else 0
  }

  predicate Refills(s: Sup, e: Event) {
    e.TaskDone? && e.tag == Web && s.web.Some?
    && s.web.value.lastStart + s.cfg.resetAfter <= e.at
  }

  /** The moment up to which stable intervals may already be used up. */
  function UsedUpTo(s: Sup): Time
    requires s.web.Some?
  {
    if s.pending.Some? then s.clock else s.web.value.lastStart
  }

  // ---- the amortised bound ----

  /** Every refill has consumed its own stretch of `resetAfter`, and between two
      refills at most `maxRetries` failures were charged. */
  predicate Paid(s0: Sup, s: Sup, failures: nat, refills: nat) {
    && s0.web.Some? && s.web.Some?
    && failures <= s.cfg.maxRetries * refills + s.web.value.retries
    && s0.web.value.lastStart + refills * s.cfg.resetAfter <= UsedUpTo(s)
  }

  lemma StepPays(s0: Sup, s: Sup, e: Event, failures: nat, refills: nat)
    requires Enabled(s, e) && OneWeb(s) && Countable(s.cfg)
    requires Paid(s0, s, failures, refills)
    ensures var s' := Step(s, e);
            var failures' := failures + if IsFailure(e) then 1 else 0;
            var refills' := refills + if Refills(s, e) then 1 else 0;
            s'.phase == Running ==> Paid(s0, s', failures', refills')
  {
    StepKeepsOneWeb(s, e);
    if Refills(s, e) {
      assert s.cfg.maxRetries * (refills + 1) == s.cfg.maxRetries * refills + s.cfg.maxRetries;
      assert (refills + 1) * s.cfg.resetAfter == refills * s.cfg.resetAfter + s.cfg.resetAfter;
    } else {
      StepCharges(s, e);
    }
  }

  lemma {:induction false} RunPays(ss: seq<Sup>, es: seq<Event>, n: nat) returns (refills: nat)
    requires IsRun(ss, es) && Booted(ss[0]) && Countable(ss[0].cfg)
    requires n <= |es| && ss[n].phase == Running
    ensures ss[n].cfg == ss[0].cfg && OneWeb(ss[n])
    ensures Paid(ss[0], ss[n], Failures(es, n), refills)
  {
    ExactlyOneWeb(ss, es, n);
    if n == 0 {
      return 0;
    }
    assert IsTurn(ss, es, n - 1);
    refills := RunPays(ss, es, n - 1);
    StepPays(ss[0], ss[n - 1], es[n - 1], Failures(es, n - 1), refills);
    refills := refills + if Refills(ss[n - 1], es[n - 1]) then 1 else 0;
  }

  lemma MulCancel(d: nat, a: nat, b: nat)
    requires d * a < d * b
    ensures a < b
  {
    if a >= b {
      MulMonotone(d, b, a);
    }
  }

  lemma BudgetArithmetic(m: nat, r: nat, failures: nat, retries: nat, refills: nat, t: nat)
    requires r > 0 && retries <= m
    requires failures <= m * refills + retries && refills * r <= t
    ensures failures <= m * (1 + t / r)
  {
    assert r * (t / r + 1) == r * (t / r) + r;
    MulCancel(r, refills, t / r + 1);
    assert m * refills + m == m * (refills + 1);
    MulMonotone(m, refills + 1, 1 + t / r);
  }

  /** `maxRetries` failures for the first budget and for each whole `resetAfter` elapsed. */
  predicate WithinBudget(failures: nat, cfg: RestartConfig, elapsed: nat)
    requires cfg.resetAfter > 0
  {
    failures <= cfg.maxRetries * (1 + elapsed / cfg.resetAfter)
  }

  lemma PaidIsBounded(s0: Sup, s: Sup, failures: nat, refills: nat)
    requires Paid(s0, s, failures, refills) && OneWeb(s)
    requires s.cfg.resetAfter > 0
    ensures s0.web.value.lastStart <= s.clock
    ensures WithinBudget(failures, s.cfg, s.clock - s0.web.value.lastStart)
  {
    BudgetArithmetic(s.cfg.maxRetries, s.cfg.resetAfter, failures,
                     s.web.value.retries, refills, s.clock - s0.web.value.lastStart);
  }

  /** In every state that still runs, the web failures so far number at most
      `maxRetries * (1 + T / resetAfter)` for the time T since the surface was tracked. */
  lemma AmortisedRestartBound(ss: seq<Sup>, es: seq<Event>, n: nat)
    requires IsRun(ss, es) && Booted(ss[0]) && Countable(ss[0].cfg)
    requires n <= |es| && ss[n].phase == Running
    requires ss[0].cfg.resetAfter > 0
    ensures ss[0].web.value.lastStart <= ss[n].clock
    ensures WithinBudget(Failures(es, n), ss[0].cfg, ss[n].clock - ss[0].web.value.lastStart)
  {
    var refills := RunPays(ss, es, n);
    PaidIsBounded(ss[0], ss[n], Failures(es, n), refills);
    assert WithinBudget(Failures(es, n), ss[n].cfg, ss[n].clock - ss[0].web.value.lastStart);
  }

  lemma UncountableStep(s: Sup, e: Event)
    requires Enabled(s, e) && OneWeb(s) && !Countable(s.cfg)
    ensures !WebFatal(Step(s, e).phase)
  {}

  /** With `max_retries == u32::MAX` the counter wraps before the budget can be
      exceeded, so no run ever ends in a web failure and the bound above has no cap. */
  lemma UncountableNeverEscalates(ss: seq<Sup>, es: seq<Event>, n: nat)
    requires IsRun(ss, es) && Booted(ss[0]) && !Countable(ss[0].cfg) && n <= |es|
    ensures !WebFatal(ss[n].phase)
  {
    if n > 0 {
      assert IsTurn(ss, es, n - 1);
      ExactlyOneWeb(ss, es, n - 1);
      UncountableStep(ss[n - 1], es[n - 1]);
    }
  }

  // ---- escalation without a stable interval ----

  /** Failure `first` starts counting afresh: it is the first of the run, or a crash
      after an interval stable enough to refill the budget. */
  ghost predicate OpensWindow(ss: seq<Sup>, es: seq<Event>, first: nat)
    requires IsRun(ss, es) && first < |es|
  {
    IsFailure(es[first]) && (Failures(es, first) == 0 || Refills(ss[first], es[first]))
  }

  /** No crash strictly between turns `first` and `n` came after a stable interval. */
  ghost predicate NoStableInterval(ss: seq<Sup>, es: seq<Event>, first: nat, n: nat)
    requires IsRun(ss, es) && first < n <= |es|
  {
    forall i :: first < i < n ==> !Refills(ss[i], es[i])
  }

  predicate WebFatal(p: Phase) {
    p.Exited? && p.outcome.Fatal? && (p.outcome.reason.RetriesExhausted? || p.outcome.reason == RestartFailed)
  }

  function BackoffSum(cfg: RestartConfig, k: u32): nat {
    if k == 0 then 0 else BackoffSum(cfg, k - 1) + ComputeBackoff(cfg, k)
  }

  predicate Charged(s: Sup, s': Sup, failed: bool) {
    && s.web.Some? && s'.web.Some?
    && s'.web.value.retries == s.web.value.retries + (if failed then 1 else 0)
    && (WebFatal(s'.phase) <==> s'.web.value.retries > s.cfg.maxRetries)
  }

  lemma StepCharges(s: Sup, e: Event)
    requires Enabled(s, e) && OneWeb(s) && Countable(s.cfg) && !Refills(s, e)
    ensures Charged(s, Step(s, e), IsFailure(e))
  {
    if e.TaskDone? && e.tag == Web {
      CrashCharges(s, e);
    } else if e.RestartDue? {
      RestartCharges(s, e);
    }
  }

  lemma CrashCharges(s: Sup, e: Event)
    requires Enabled(s, e) && OneWeb(s) && Countable(s.cfg) && !Refills(s, e)
    requires e.TaskDone? && e.tag == Web
    ensures Charged(s, Step(s, e), true)
  {}

  lemma RestartCharges(s: Sup, e: Event)
    requires Enabled(s, e) && OneWeb(s) && Countable(s.cfg) && e.RestartDue?
    ensures Charged(s, Step(s, e), !e.started)
  {}

  /** Before its first failure a surface has all of its budget. */
  lemma {:induction false} NothingCharged(ss: seq<Sup>, es: seq<Event>, n: nat)
    requires IsRun(ss, es) && Booted(ss[0]) && n <= |es| && Failures(es, n) == 0
    ensures ss[n].web.Some? && ss[n].web.value.retries == 0
  {
    if n > 0 {
      assert IsTurn(ss, es, n - 1);
      NothingCharged(ss, es, n - 1);
    }
  }

  /** A failure that opens a window is charged as the first one: it can only be a crash,
      for a pending restart has been charged before. */
  lemma WindowOpens(s: Sup, e: Event)
    requires Enabled(s, e) && OneWeb(s) && Countable(s.cfg)
    requires IsFailure(e) && (s.web.value.retries == 0 || Refills(s, e))
    ensures var s' := Step(s, e);
            && s'.web.Some? && s'.web.value.retries == 1
            && (WebFatal(s'.phase) <==> 1 > s.cfg.maxRetries)
            && KeepsWaiting(s, s', e.at)
  {
    assert BackoffSum(s.cfg, 1) == BackoffSum(s.cfg, 0) + ComputeBackoff(s.cfg, 1);
  }

  /** In a window without a stable interval the counter equals its failures, and the run
      is fatal exactly when they exceed the budget. */
  lemma {:induction false} WindowFailuresAreCharged(ss: seq<Sup>, es: seq<Event>, first: nat, n: nat)
    requires IsRun(ss, es) && Booted(ss[0]) && Countable(ss[0].cfg)
    requires first < n <= |es| && OpensWindow(ss, es, first) && NoStableInterval(ss, es, first, n)
    ensures ss[n].web.Some? && ss[n].web.value.retries == Failures(es, n) - Failures(es, first)
    ensures WebFatal(ss[n].phase) <==> Failures(es, n) - Failures(es, first) > ss[0].cfg.maxRetries
  {
    assert IsTurn(ss, es, n - 1);
    ExactlyOneWeb(ss, es, n - 1);
    if first == n - 1 {
      if Failures(es, first) == 0 {
        NothingCharged(ss, es, first);
      }
      WindowOpens(ss[first], es[first]);
    } else {
      WindowFailuresAreCharged(ss, es, first, n - 1);
      StepCharges(ss[n - 1], es[n - 1]);
    }
  }

  /** The wait already served since the first failure, which happened at `t0`. */
  predicate Waited(s: Sup, t0: Time) {
    && s.web.Some?
    && t0 + BackoffSum(s.cfg, s.web.value.retries)
       <= if s.pending.Some? then s.pending.value else s.clock
  }

  predicate KeepsWaiting(s: Sup, s': Sup, t0: Time) {
    && (s'.phase == Running ==> Waited(s', t0))
    && (WebFatal(s'.phase) ==> t0 + BackoffSum(s.cfg, s.cfg.maxRetries) <= s'.clock)
  }

  lemma CrashWaits(s: Sup, e: Event, t0: Time)
    requires Enabled(s, e) && OneWeb(s) && Countable(s.cfg) && !Refills(s, e)
    requires e.TaskDone? && e.tag == Web && Waited(s, t0)
    ensures KeepsWaiting(s, Step(s, e), t0)
  {}

  lemma RestartWaits(s: Sup, e: Event, t0: Time)
    requires Enabled(s, e) && OneWeb(s) && Countable(s.cfg)
    requires e.RestartDue? && Waited(s, t0)
    ensures KeepsWaiting(s, Step(s, e), t0)
  {}

  lemma StepWaits(s: Sup, e: Event, t0: Time)
    requires Enabled(s, e) && OneWeb(s) && Countable(s.cfg) && !Refills(s, e)
    requires Waited(s, t0)
    ensures KeepsWaiting(s, Step(s, e), t0)
  {
    if e.TaskDone? && e.tag == Web {
      CrashWaits(s, e, t0);
    } else if e.RestartDue? {
      RestartWaits(s, e, t0);
    }
  }

  lemma {:induction false} WindowWaits(ss: seq<Sup>, es: seq<Event>, first: nat, n: nat)
    requires IsRun(ss, es) && Booted(ss[0]) && Countable(ss[0].cfg)
    requires first < n <= |es| && OpensWindow(ss, es, first) && NoStableInterval(ss, es, first, n)
    ensures ss[n - 1].cfg == ss[0].cfg
    ensures KeepsWaiting(ss[n - 1], ss[n], es[first].at)
  {
    assert IsTurn(ss, es, n - 1);
    ExactlyOneWeb(ss, es, n - 1);
    if first == n - 1 {
      if Failures(es, first) == 0 {
        NothingCharged(ss, es, first);
      }
      WindowOpens(ss[first], es[first]);
    } else {
      WindowWaits(ss, es, first, n - 1);
      StepWaits(ss[n - 1], es[n - 1], es[first].at);
    }
  }

  /** Wherever in a run a crash loop begins: with no stable interval in between, the web
      surface turns fatal on exactly the (maxRetries+1)-th consecutive failure, and not
      before every backoff has been waited out since the first. */
  lemma EscalatesExactlyWhenSpent(ss: seq<Sup>, es: seq<Event>, first: nat, n: nat)
    requires IsRun(ss, es) && Booted(ss[0]) && Countable(ss[0].cfg)
    requires first < n <= |es| && OpensWindow(ss, es, first) && NoStableInterval(ss, es, first, n)
    ensures Failures(es, n) - Failures(es, first) <= ss[0].cfg.maxRetries + 1
    ensures WebFatal(ss[n].phase) <==> Failures(es, n) - Failures(es, first) == ss[0].cfg.maxRetries + 1
    ensures WebFatal(ss[n].phase) ==> es[first].at + BackoffSum(ss[0].cfg, ss[0].cfg.maxRetries) <= ss[n].clock
  {
    assert IsTurn(ss, es, n - 1);
    if first < n - 1 {
      WindowFailuresAreCharged(ss, es, first, n - 1);
    }
    WindowFailuresAreCharged(ss, es, first, n);
    WindowWaits(ss, es, first, n);
  }

  /** Every failure lies in such a window: going back from it to the last refill, or to
      the first failure of the run, finds where its window opens. */
  lemma {:induction false} EveryFailureHasAWindow(ss: seq<Sup>, es: seq<Event>, k: nat) returns (first: nat)
    requires IsRun(ss, es) && k < |es| && IsFailure(es[k])
    ensures first <= k && OpensWindow(ss, es, first) && NoStableInterval(ss, es, first, k + 1)
  {
    if OpensWindow(ss, es, k) {
      first := k;
    } else {
      var earlier := LastFailure(es, k);
      first := EveryFailureHasAWindow(ss, es, earlier);
    }
  }

  lemma {:induction false} LastFailure(es: seq<Event>, k: nat) returns (last: nat)
    requires k <= |es| && Failures(es, k) > 0
    ensures last < k && IsFailure(es[last]) && forall i :: last < i < k ==> !IsFailure(es[i])
  {
    if IsFailure(es[k - 1]) {
      last := k - 1;
    } else {
      last := LastFailure(es, k - 1);
    }
  }

  // ---- how runs end ----

  /** Ctrl-C, or the root token cancelled by somebody else. */
  predicate IsShutdown(e: Event) {
    e.CtrlC? || e.RootCancelled?
  }

  /** The last turn is a web failure past the budget of the window it lies in. */
  ghost predicate SpendsBudget(ss: seq<Sup>, es: seq<Event>)
    requires IsRun(ss, es) && es != []
  {
    && Countable(ss[0].cfg) && IsFailure(es[|es| - 1])
    && exists first: nat :: first < |es| && OpensWindow(ss, es, first) && NoStableInterval(ss, es, first, |es|)
                            && Failures(es, |es|) - Failures(es, first) > ss[0].cfg.maxRetries
  }

  predicate FatalAs(p: Phase, name: string) {
    p.Exited? && p.outcome.Fatal? && p.outcome.name == name
  }

  /** Every run goes on, ends gracefully, ends fatally or is aborted by what its last turn
      was, and by nothing else: gracefully on a shutdown; fatally under a name when the
      critical task of that name completes or, as "web", when the web surface fails once
      more than its window allows; aborted when a check finds the heartbeat stale. */
  lemma RunsEndExactlyWhen(ss: seq<Sup>, es: seq<Event>, name: string)
    requires IsRun(ss, es) && Booted(ss[0]) && es != []
    ensures var e, phase := es[|es| - 1], ss[|es|].phase;
            && (phase == Exited(Graceful) <==> IsShutdown(e))
            && (FatalAs(phase, name) <==> (e.TaskDone? && e.tag == Critical(name))
                                          || (name == "web" && SpendsBudget(ss, es)))
            && (phase == Aborted <==> e.HeartbeatCheck? && IsStale(e.at, e.last))
            && (FatalAs(phase, name) ==> phase.outcome.reason == WhyFatal(e, ss[0].cfg))
            && (ss[|es|].rootCancelled <==> ss[0].rootCancelled || e.RootCancelled?)
  {
    var n := |es|;
    var e := es[n - 1];
    assert IsTurn(ss, es, n - 1);
    ExactlyOneWeb(ss, es, n - 1);
    TurnEnds(ss[n - 1], e);
    WebEnds(ss, es);
    NotCancelledWhileRunning(ss, es, n - 1);
  }

  lemma {:induction false} NotCancelledWhileRunning(ss: seq<Sup>, es: seq<Event>, n: nat)
    requires IsRun(ss, es) && n <= |es| && ss[n].phase == Running
    ensures ss[n].rootCancelled == ss[0].rootCancelled
  {
    if n > 0 {
      assert IsTurn(ss, es, n - 1);
      NotCancelledWhileRunning(ss, es, n - 1);
    }
  }

  /** The reason a fatal turn reports. */
  function WhyFatal(e: Event, cfg: RestartConfig): Reason {
    match e
    case TaskDone(Critical(_), exit, _) => TaskExited(exit)
    case TaskDone(Web, exit, _) => RetriesExhausted(exit, cfg.maxRetries + 1)
    case _ => RestartFailed
  }

  /** What one turn can end in. */
  ghost predicate EndsAs(phase: Phase, e: Event, cfg: RestartConfig) {
    && (phase == Exited(Graceful) <==> IsShutdown(e))
    && (phase == Aborted <==> e.HeartbeatCheck? && IsStale(e.at, e.last))
    && (forall name :: FatalAs(phase, name) <==>
          (e.TaskDone? && e.tag == Critical(name)) || (name == "web" && WebFatal(phase)))
    && (phase.Exited? && phase.outcome.Fatal? ==> phase.outcome.reason == WhyFatal(e, cfg))
    && (WebFatal(phase) ==> IsFailure(e))
  }

  lemma TurnEnds(s: Sup, e: Event)
    requires Enabled(s, e) && OneWeb(s)
    ensures EndsAs(Step(s, e).phase, e, s.cfg)
  {
    if e.TaskDone? && e.tag == Web {
      CrashEnds(s, e);
    } else if e.RestartDue? {
      RestartEnds(s, e);
    }
  }

  lemma CrashEnds(s: Sup, e: Event)
    requires Enabled(s, e) && OneWeb(s) && e.TaskDone? && e.tag == Web
    ensures EndsAs(Step(s, e).phase, e, s.cfg)
  {}

  lemma RestartEnds(s: Sup, e: Event)
    requires Enabled(s, e) && OneWeb(s) && e.RestartDue?
    ensures EndsAs(Step(s, e).phase, e, s.cfg)
  {}

  lemma WebEnds(ss: seq<Sup>, es: seq<Event>)
    requires IsRun(ss, es) && Booted(ss[0]) && es != []
    ensures WebFatal(ss[|es|].phase) <==> SpendsBudget(ss, es)
  {
    var n := |es|;
    assert IsTurn(ss, es, n - 1);
    ExactlyOneWeb(ss, es, n - 1);
    TurnEnds(ss[n - 1], es[n - 1]);
    if !Countable(ss[0].cfg) {
      UncountableNeverEscalates(ss, es, n);
    } else {
      forall first: nat | first < n && OpensWindow(ss, es, first) && NoStableInterval(ss, es, first, n)
        ensures WebFatal(ss[n].phase) <==> Failures(es, n) - Failures(es, first) > ss[0].cfg.maxRetries
      {
        WindowFailuresAreCharged(ss, es, first, n);
      }
      if IsFailure(es[n - 1]) {
        var first := EveryFailureHasAWindow(ss, es, n - 1);
      }
    }
  }
}
