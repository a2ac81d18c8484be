/** The guardian loop of src/kernel.rs: sleep, run one tick under a timeout, and store
    the heartbeat only when the tick came back in time. */
module Guardian {
  import opened Options
  import opened RestartPolicy
  import opened Supervisor

  const SLEEP: nat := 300 * SEC
  const TICK_TIMEOUT: nat := 180 * SEC

  /** One turn of the loop: how much later than 300 s the sleep returned, and how long
      the tick took, `None` when it was abandoned at the timeout. */
  datatype Cycle = Cycle(oversleep: nat, tick: Option<nat>)

  predicate ValidCycle(c: Cycle) {
    c.tick.Some? ==> c.tick.value <= TICK_TIMEOUT
  }

  function CycleLength(c: Cycle): nat {
    SLEEP + c.oversleep + (if c.tick.Some? then c.tick.value else TICK_TIMEOUT)
  }

  /** When the n-th cycle ends, for a loop started at `boot`. */
  function CycleEnd(boot: Time, cycles: seq<Cycle>, n: nat): Time
    requires n <= |cycles|
  {
    if n == 0 then boot else CycleEnd(boot, cycles, n - 1) + CycleLength(cycles[n - 1])
  }

  /** What the heartbeat holds once n cycles are over; `cmd_serve` seeds it at boot. */
  function Heartbeat(boot: Time, cycles: seq<Cycle>, n: nat): nat
    requires n <= |cycles|
  {
    if n == 0 then Secs(boot)
    else if cycles[n - 1].tick.Some? then Secs(CycleEnd(boot, cycles, n))
    else Heartbeat(boot, cycles, n - 1)
  }

  /** A check at time `at` loads `last` while this guardian runs. */
  ghost predicate Loads(boot: Time, cycles: seq<Cycle>, at: Time, last: nat) {
    exists n: nat :: n < |cycles|
      && CycleEnd(boot, cycles, n) <= at <= CycleEnd(boot, cycles, n + 1)
      && last == Heartbeat(boot, cycles, n)
  }

  class GuardianLoop {
    var clock: Time
    var heartbeat: nat

    constructor (boot: Time)
      ensures clock == boot && heartbeat == Secs(boot)
    {
      clock, heartbeat := boot, Secs(boot);
    }

    method Turn(c: Cycle)
      requires ValidCycle(c)
      modifies this
      ensures clock == old(clock) + CycleLength(c)
      ensures heartbeat == if c.tick.Some? then Secs(clock) else old(heartbeat)
    {
      clock := clock + SLEEP + c.oversleep;
      match c.tick
      case Some(took) =>
        clock := clock + took;
        heartbeat := Secs(clock);
      case None =>
        clock := clock + TICK_TIMEOUT;
    }

    method Loop(cycles: seq<Cycle>)
      requires forall c :: c in cycles ==> ValidCycle(c)
      requires heartbeat == Secs(clock)
      modifies this
      ensures clock == CycleEnd(old(clock), cycles, |cycles|)
      ensures heartbeat == Heartbeat(old(clock), cycles, |cycles|)
    {
      for n := 0 to |cycles|
        invariant clock == CycleEnd(old(clock), cycles, n)
        invariant heartbeat == Heartbeat(old(clock), cycles, n)
      {
        Turn(cycles[n]);
      }
    }
  }

  // ---- how old the heartbeat can get ----

  lemma SecsShift(t: Time, k: nat)
    ensures Secs(t + k * SEC) == Secs(t) + k
  {
    assert t + k * SEC == (t / SEC + k) * SEC + t % SEC;
  }

  /** `Secs` cuts a time down to whole seconds. */
  lemma SecsAreWhole(t: Time)
    ensures Secs(t) * SEC <= t < (Secs(t) + 1) * SEC
  {
    assert t == t / SEC * SEC + t % SEC;
  }

  lemma SecsMonotone(a: Time, b: Time)
    requires a <= b
    ensures Secs(a) <= Secs(b)
  {}

  predicate Punctual(c: Cycle, slack: nat) {
    ValidCycle(c) && c.tick.Some? && c.oversleep <= slack * SEC
  }

  /** When every tick beats its timeout, the heartbeat is never older than
      300 + 180 seconds plus however late the sleeps return. */
  lemma HeartbeatAge(boot: Time, cycles: seq<Cycle>, at: Time, last: nat, slack: nat)
    requires forall c :: c in cycles ==> Punctual(c, slack)
    requires Loads(boot, cycles, at, last)
    ensures last <= Secs(at) <= last + 480 + slack
  {
    var n: nat :| n < |cycles|
      && CycleEnd(boot, cycles, n) <= at <= CycleEnd(boot, cycles, n + 1)
      && last == Heartbeat(boot, cycles, n);
    var e := CycleEnd(boot, cycles, n);
    assert n > 0 ==> cycles[n - 1] in cycles;
    assert last == Secs(e);
    assert cycles[n] in cycles && Punctual(cycles[n], slack);
    assert at <= e + (480 + slack) * SEC;
    SecsMonotone(e, at);
    SecsMonotone(at, e + (480 + slack) * SEC);
    SecsShift(e, 480 + slack);
  }

  // ---- exactly when it is stale ----

  /** How late the sleeps of cycles `i..j` returned, all told. */
  function Lateness(cycles: seq<Cycle>, i: nat, j: nat): nat
    requires i <= j <= |cycles|
  {
    if i == j then 0 else Lateness(cycles, i, j - 1) + cycles[j - 1].oversleep
  }

  /** Exactly the last `k` ticks before cycle `n` were abandoned. */
  ghost predicate Missed(cycles: seq<Cycle>, n: nat, k: nat) {
    && k <= n <= |cycles|
    && (forall i :: n - k <= i < n ==> cycles[i].tick.None?)
    && (n - k > 0 ==> cycles[n - k - 1].tick.Some?)
  }

  lemma {:induction false} SomeNumberMissed(cycles: seq<Cycle>, n: nat) returns (k: nat)
    requires n <= |cycles|
    ensures Missed(cycles, n, k)
  {
    if n == 0 || cycles[n - 1].tick.Some? {
      k := 0;
    } else {
      k := SomeNumberMissed(cycles, n - 1);
      k := k + 1;
    }
  }

  /** An abandoned cycle takes 480 s and however late its sleep returned, and leaves the
      heartbeat where it was. */
  lemma {:induction false} MissesKeepHeartbeat(boot: Time, cycles: seq<Cycle>, n: nat, k: nat)
    requires Missed(cycles, n, k)
    ensures Heartbeat(boot, cycles, n) == Secs(CycleEnd(boot, cycles, n - k))
    ensures CycleEnd(boot, cycles, n) == CycleEnd(boot, cycles, n - k) + 480 * k * SEC + Lateness(cycles, n - k, n)
  {
    if k > 0 {
      MissesKeepHeartbeat(boot, cycles, n - 1, k - 1);
      assert 480 * k * SEC == 480 * (k - 1) * SEC + 480 * SEC;
    }
  }

  /** A moment of cycle `n`. */
  predicate Within(boot: Time, cycles: seq<Cycle>, n: nat, at: Time)
    requires n < |cycles|
  {
    CycleEnd(boot, cycles, n) <= at <= CycleEnd(boot, cycles, n + 1)
  }

  /** For every history of cycles: after `k` abandoned ticks the heartbeat is stale in
      cycle `n` from 900 - 480*k seconds after the cycle began, less the lateness of the
      abandoned cycles. */
  lemma StaleExactlyWhen(boot: Time, cycles: seq<Cycle>, n: nat, k: nat, at: Time)
    requires n < |cycles| && Missed(cycles, n, k)
    ensures Lateness(cycles, n - k, n) <= CycleEnd(boot, cycles, n)
    ensures IsStale(at, Heartbeat(boot, cycles, n))
            <==> Secs(at) + 480 * k > Secs(CycleEnd(boot, cycles, n) - Lateness(cycles, n - k, n)) + STALE_THRESHOLD_SECS
  {
    MissesKeepHeartbeat(boot, cycles, n, k);
    SecsShift(CycleEnd(boot, cycles, n - k), 480 * k);
  }

  /** With no tick abandoned, and a sleep at most 420 s late, no moment is stale. */
  lemma NoMissedTick(boot: Time, cycles: seq<Cycle>, n: nat, at: Time)
    requires n < |cycles| && Missed(cycles, n, 0) && Within(boot, cycles, n, at)
    requires ValidCycle(cycles[n]) && cycles[n].oversleep <= 420 * SEC
    ensures !IsStale(at, Heartbeat(boot, cycles, n))
  {
    var e := CycleEnd(boot, cycles, n);
    StaleExactlyWhen(boot, cycles, n, 0, at);
    SecsMonotone(at, e + 900 * SEC);
    SecsShift(e, 900);
  }

  /** With one tick abandoned and all sleeps punctual, the heartbeat is stale exactly past
      120 s in the next tick. The threshold is not "three missed cycles". */
  lemma OneMissedTick(boot: Time, cycles: seq<Cycle>, n: nat, at: Time)
    requires n < |cycles| && Missed(cycles, n, 1)
    requires cycles[n - 1].oversleep == 0 && cycles[n].oversleep == 0
    ensures IsStale(at, Heartbeat(boot, cycles, n)) <==> Secs(at) > Secs(CycleEnd(boot, cycles, n) + SLEEP) + 120
  {
    StaleExactlyWhen(boot, cycles, n, 1, at);
    assert Lateness(cycles, n - 1, n) == Lateness(cycles, n - 1, n - 1) + cycles[n - 1].oversleep;
    SecsShift(CycleEnd(boot, cycles, n), 300);
  }

  /** With two or more ticks abandoned every moment of the next cycle is stale. */
  lemma TwoMissedTicks(boot: Time, cycles: seq<Cycle>, n: nat, k: nat, at: Time)
    requires n < |cycles| && Missed(cycles, n, k) && k >= 2 && Within(boot, cycles, n, at)
    ensures IsStale(at, Heartbeat(boot, cycles, n))
  {
    StaleExactlyWhen(boot, cycles, n, k, at);
    SecsMonotone(CycleEnd(boot, cycles, n) - Lateness(cycles, n - k, n), at);
  }

  /** A cycle has a stale moment exactly when its last moment is one. */
  lemma LastMomentDecides(boot: Time, cycles: seq<Cycle>, n: nat)
    requires n < |cycles|
    ensures (exists at :: Within(boot, cycles, n, at) && IsStale(at, Heartbeat(boot, cycles, n)))
            <==> IsStale(CycleEnd(boot, cycles, n + 1), Heartbeat(boot, cycles, n))
  {
    var end := CycleEnd(boot, cycles, n + 1);
    assert Within(boot, cycles, n, end);
    forall at | Within(boot, cycles, n, at) && IsStale(at, Heartbeat(boot, cycles, n))
      ensures IsStale(end, Heartbeat(boot, cycles, n))
    {
      SecsMonotone(at, end);
    }
  }
}

/** The watchdog arm of the select loop: when it may abort and when it must. */
module Watchdog {
  import opened Options
  import opened RestartPolicy
  import opened Supervisor
  import opened SupervisorRuns
  import opened Guardian

  // ---- no false alarm ----

  /** Every check loads what this guardian last stored. */
  ghost predicate Watches(es: seq<Event>, boot: Time, cycles: seq<Cycle>) {
    forall i :: 0 <= i < |es| && es[i].HeartbeatCheck? ==> Loads(boot, cycles, es[i].at, es[i].last)
  }

  /** A guardian whose ticks all beat the timeout and whose sleeps return less than
      420 s late is never mistaken for a dead one. */
  lemma NoFalseAlarm(ss: seq<Sup>, es: seq<Event>, boot: Time, cycles: seq<Cycle>, slack: nat, n: nat)
    requires IsRun(ss, es) && n <= |es| && ss[0].phase == Running
    requires Watches(es, boot, cycles)
    requires forall c :: c in cycles ==> Punctual(c, slack)
    requires slack <= 420
    ensures ss[n].phase != Aborted
  {
    if n > 0 {
      var e := es[n - 1];
      assert IsTurn(ss, es, n - 1);
      if e.HeartbeatCheck? {
        HeartbeatAge(boot, cycles, e.at, e.last, slack);
      }
    }
  }

  /** Whatever the history of the guardian: a check in cycle `n`, after exactly `k`
      abandoned ticks, aborts the process if and only if it comes later than 900 - 480*k
      seconds after the cycle began, less the lateness of the abandoned cycles. */
  lemma CheckAbortsExactlyWhen(ss: seq<Sup>, es: seq<Event>, i: nat, boot: Time, cycles: seq<Cycle>, n: nat, k: nat)
    requires IsRun(ss, es) && i < |es| && es[i].HeartbeatCheck?
    requires n < |cycles| && Missed(cycles, n, k) && es[i].last == Heartbeat(boot, cycles, n)
    ensures Lateness(cycles, n - k, n) <= CycleEnd(boot, cycles, n)
    ensures ss[i + 1].phase == Aborted
            <==> Secs(es[i].at) + 480 * k
                 > Secs(CycleEnd(boot, cycles, n) - Lateness(cycles, n - k, n)) + STALE_THRESHOLD_SECS
  {
    assert IsTurn(ss, es, i);
    StaleExactlyWhen(boot, cycles, n, k, es[i].at);
  }

  // ---- no missed alarm ----

  /** From `tstar` on the heartbeat is stale and nobody stores a newer one. */
  ghost predicate StaleFrom(es: seq<Event>, tstar: Time, last: nat) {
    && Secs(tstar) > last + STALE_THRESHOLD_SECS
    && forall i :: 0 <= i < |es| && es[i].HeartbeatCheck? && es[i].at >= tstar ==> es[i].last <= last
  }

  /** Restarting the web surface blocks the loop for at most `d`. */
  ghost predicate StartsWithin(es: seq<Event>, d: nat) {
    forall i :: 0 <= i < |es| && es[i].RestartDue? ==> es[i].done <= es[i].at + d
  }

  /** A flapping web surface can end every turn before its 60 s heartbeat timer: either a
      stable minute refills the budget and the first backoff fits in a turn, or the
      counter wraps and even the longest backoff fits. */
  predicate Starvable(cfg: RestartConfig) {
    || (cfg.maxRetries >= 1 && cfg.resetAfter <= CHECK_INTERVAL && ComputeBackoff(cfg, 1) <= CHECK_INTERVAL)
    || (!Countable(cfg) && ComputeBackoff(cfg, U32_MAX) <= CHECK_INTERVAL)
  }

  /** Went live, if live, in the turn before: no stable interval can end this turn. */
  predicate JustStarted(s: Sup) {
    s.pending.None? && s.web.Some? && s.web.value.lastStart == s.clock
  }

  /** How many more turns can end in something other than the stale check. */
  function TurnsLeft(s: Sup): nat
    requires OneWeb(s)
  {
    if s.cfg.resetAfter <= CHECK_INTERVAL then TurnsUntilBackoff(s)
    else if Countable(s.cfg) then TurnsUntilSpent(s)
    else TurnsUntilWrapped(s)
  }

  predicate DueThisTurn(s: Sup)
    requires s.pending.Some?
  {
    s.pending.value <= s.clock + CHECK_INTERVAL
  }

  /** Every backoff is longer than a turn. */
  function TurnsUntilBackoff(s: Sup): nat
    requires OneWeb(s)
  {
    if s.pending.Some? then (if DueThisTurn(s) then 2 else 0)
    else if s.cfg.maxRetries == 0 then 0 else 1
  }

  /** No turn is long enough to refill the budget. */
  function TurnsUntilSpent(s: Sup): nat
    requires OneWeb(s)
  {
    var m, r := s.cfg.maxRetries, s.web.value.retries;
    if s.pending.Some? then 2 * (m - r) + 1
    else if JustStarted(s) then 2 * (m - r)
    else 2 * m
  }

  /** The same with a counter that wraps, where the longest backoff exceeds a turn. */
  function TurnsUntilWrapped(s: Sup): nat
    requires OneWeb(s)
  {
    var m, r := s.cfg.maxRetries, s.web.value.retries;
    if s.pending.Some? then
      if !DueThisTurn(s) then 0 else if r == m then 2 * m + 3 else 2 * (m - r) + 1
    else if JustStarted(s) && r < m then 2 * (m - r)
    else 2 * m + 2
  }

  function MostTurns(cfg: RestartConfig): nat {
    2 * cfg.maxRetries + if Countable(cfg) then 0 else 3
  }

  lemma TurnsLeftBounded(s: Sup)
    requires OneWeb(s)
    ensures TurnsLeft(s) <= MostTurns(s.cfg)
  {}

  predicate Watched(s: Sup) {
    s.watched && OneWeb(s) && !Starvable(s.cfg)
  }

  predicate UsesUpATurn(s: Sup, s': Sup)
    requires OneWeb(s)
  {
    s'.phase == Running ==> OneWeb(s') && TurnsLeft(s') < TurnsLeft(s)
  }

  /** The backoff after any failure is at least the first one, and after `u32::MAX`
      failures the longest. */
  lemma BackoffBounds(cfg: RestartConfig, r: u32)
    ensures ComputeBackoff(cfg, 1) <= ComputeBackoff(cfg, r) <= ComputeBackoff(cfg, U32_MAX)
  {
    BackoffMonotone(cfg, 0, r);
    BackoffMonotone(cfg, r, U32_MAX);
    assert ComputeBackoff(cfg, 0) == ComputeBackoff(cfg, 1);
  }

  /** What a failure at `now` leaves of a surface that goes on running. */
  lemma FailureBacksOff(s: Sup, e: Event)
    requires Enabled(s, e) && OneWeb(s) && IsFailure(e) && Step(s, e).phase == Running
    ensures var s' := Step(s, e);
            && OneWeb(s') && s'.cfg == s.cfg && s'.pending.Some? && s'.clock >= s.clock
            && s'.pending.value == s'.clock + ComputeBackoff(s.cfg, s'.web.value.retries)
            && (if Refills(s, e) then s'.web.value.retries == WrappingIncr(0)
                else s'.web.value.retries == WrappingIncr(s.web.value.retries))
  {
    StepKeepsOneWeb(s, e);
  }

  lemma CrashUsesUpATurn(s: Sup, e: Event)
    requires Enabled(s, e) && Watched(s) && IsFailure(e)
    ensures UsesUpATurn(s, Step(s, e))
  {
    if Step(s, e).phase == Running {
      FailureBacksOff(s, e);
      BackoffBounds(s.cfg, Step(s, e).web.value.retries);
    }
  }

  lemma RestartUsesUpATurn(s: Sup, e: Event)
    requires Enabled(s, e) && Watched(s) && e.RestartDue? && e.started
    ensures UsesUpATurn(s, Step(s, e))
  {
    StepKeepsOneWeb(s, e);
  }

  lemma StepUsesUpATurn(s: Sup, e: Event)
    requires Enabled(s, e) && Watched(s)
    requires e.HeartbeatCheck? ==> IsStale(e.at, e.last)
    ensures UsesUpATurn(s, Step(s, e))
  {
    if IsFailure(e) {
      CrashUsesUpATurn(s, e);
    } else if e.RestartDue? {
      RestartUsesUpATurn(s, e);
    }
  }

  /** From turn `a` on, every turn ends after `tstar`. */
  ghost predicate LateFrom(es: seq<Event>, a: nat, n: nat, tstar: Time) {
    a <= n <= |es| && forall i :: a <= i < n ==> es[i].at >= tstar
  }

  /** No check among turns `a..n` finds the heartbeat fresh. */
  ghost predicate NoFreshCheck(es: seq<Event>, a: nat, n: nat) {
    a <= n <= |es| && forall i :: a <= i < n && es[i].HeartbeatCheck? ==> IsStale(es[i].at, es[i].last)
  }

  /** One turn that is no fresh check, as the bound on turns counts it. */
  lemma OneTurn(s: Sup, e: Event, d: nat)
    requires Enabled(s, e) && Watched(s) && Step(s, e).phase == Running
    requires e.HeartbeatCheck? ==> IsStale(e.at, e.last)
    requires e.RestartDue? ==> e.done <= e.at + d
    ensures Watched(Step(s, e)) && Step(s, e).cfg == s.cfg
    ensures TurnsLeft(Step(s, e)) + 1 <= TurnsLeft(s)
    ensures Step(s, e).clock <= s.clock + CHECK_INTERVAL + d
  {
    StepKeepsOneWeb(s, e);
    StepUsesUpATurn(s, e);
    TurnTakesAMinute(s, e, d);
  }

  lemma {:induction false} TurnsAreBounded(ss: seq<Sup>, es: seq<Event>, a: nat, n: nat, d: nat)
    requires IsRun(ss, es) && NoFreshCheck(es, a, n) && StartsWithin(es, d)
    requires Watched(ss[a]) && ss[n].phase == Running
    ensures Watched(ss[n]) && ss[n].cfg == ss[a].cfg
    ensures n - a + TurnsLeft(ss[n]) <= TurnsLeft(ss[a])
    ensures ss[n].clock <= ss[a].clock + (n - a) * (CHECK_INTERVAL + d)
    decreases n
  {
    if a < n {
      var s, e := ss[n - 1], es[n - 1];
      assert IsTurn(ss, es, n - 1);
      TurnsAreBounded(ss, es, a, n - 1, d);
      OneTurn(s, e, d);
      OneMoreTurn(n - 1 - a, CHECK_INTERVAL + d);
    }
  }

  lemma LateChecksAreStale(es: seq<Event>, a: nat, n: nat, tstar: Time, last: nat)
    requires LateFrom(es, a, n, tstar) && StaleFrom(es, tstar, last)
    ensures NoFreshCheck(es, a, n)
  {
    forall i | a <= i < n && es[i].HeartbeatCheck?
      ensures IsStale(es[i].at, es[i].last)
    {
      SecsMonotone(tstar, es[i].at);
    }
  }

  function AlarmDeadline(cfg: RestartConfig, tstar: Time, d: nat): Time {
    tstar + d + MostTurns(cfg) * (CHECK_INTERVAL + d)
  }

  lemma DeadlineArithmetic(cfg: RestartConfig, tstar: Time, d: nat, start: Time, turns: nat, now: Time)
    requires start <= tstar + d && turns <= MostTurns(cfg)
    requires now <= start + turns * (CHECK_INTERVAL + d)
    ensures now <= AlarmDeadline(cfg, tstar, d)
  {
    MulMonotone(CHECK_INTERVAL + d, turns, MostTurns(cfg));
  }

  /** The first turn `a` that ends after `tstar` also began no later than `tstar + d`. */
  lemma FirstLateTurn(ss: seq<Sup>, es: seq<Event>, n: nat, tstar: Time, d: nat) returns (a: nat)
    requires IsRun(ss, es) && n <= |es| && ss[0].clock <= tstar && StartsWithin(es, d)
    requires ss[n].phase == Running
    ensures LateFrom(es, a, n, tstar) && (a > 0 ==> es[a - 1].at < tstar)
    ensures ss[a].clock <= tstar + d
    ensures ss[a].phase == Running
  {
    a := n;
    while a > 0 && es[a - 1].at >= tstar
      invariant LateFrom(es, a, n, tstar)
    {
      a := a - 1;
    }
    RunsUntilTheEnd(ss, es);
    if a > 0 {
      assert IsTurn(ss, es, a - 1);
      TurnEndsWithin(ss[a - 1], es[a - 1], d);
    }
  }

  lemma TurnEndsWithin(s: Sup, e: Event, d: nat)
    requires Enabled(s, e) && (e.RestartDue? ==> e.done <= e.at + d)
    ensures Step(s, e).clock <= e.at + d
  {}

  lemma RunsWithinDeadline(ss: seq<Sup>, es: seq<Event>, n: nat, tstar: Time, last: nat, d: nat)
    requires IsRun(ss, es) && Booted(ss[0]) && ss[0].watched && n <= |es|
    requires !Starvable(ss[0].cfg)
    requires ss[0].clock <= tstar && StaleFrom(es, tstar, last) && StartsWithin(es, d)
    requires ss[n].phase == Running
    ensures ss[n].clock <= AlarmDeadline(ss[0].cfg, tstar, d)
  {
    var a := FirstLateTurn(ss, es, n, tstar, d);
    ExactlyOneWeb(ss, es, a);
    LateChecksAreStale(es, a, n, tstar, last);
    TurnsAreBounded(ss, es, a, n, d);
    TurnsLeftBounded(ss[a]);
    DeadlineArithmetic(ss[0].cfg, tstar, d, ss[a].clock, n - a, ss[n].clock);
  }

  /** Once the heartbeat has stopped and gone stale at `tstar`, the process is gone
      within `MostTurns + 1` further turns, whatever the web surface does:
      no state still runs past the deadline, and no turn ends later than 60 s after it. */
  lemma StaleHeartbeatEndsTheProcess(ss: seq<Sup>, es: seq<Event>, n: nat, tstar: Time, last: nat, d: nat)
    requires IsRun(ss, es) && Booted(ss[0]) && ss[0].watched && n <= |es|
    requires !Starvable(ss[0].cfg)
    requires ss[0].clock <= tstar && StaleFrom(es, tstar, last) && StartsWithin(es, d)
    ensures ss[n].phase == Running ==> ss[n].clock <= AlarmDeadline(ss[0].cfg, tstar, d)
    ensures n < |es| ==> es[n].at <= AlarmDeadline(ss[0].cfg, tstar, d) + CHECK_INTERVAL
  {
    if n < |es| {
      assert IsTurn(ss, es, n);
      ExactlyOneWeb(ss, es, n);
    }
    if ss[n].phase == Running {
      RunsWithinDeadline(ss, es, n, tstar, last, d);
    }
  }

  /** One turn of a watched supervisor that goes on running takes a minute and a restart
      delay at most, and did not end in a stale check. */
  lemma TurnTakesAMinute(s: Sup, e: Event, d: nat)
    requires Enabled(s, e) && s.watched && (e.RestartDue? ==> e.done <= e.at + d)
    ensures Step(s, e).watched
    ensures Step(s, e).clock <= s.clock + CHECK_INTERVAL + d
    ensures e.HeartbeatCheck? && IsStale(e.at, e.last) ==> Step(s, e).phase == Aborted
  {
    match e
    case TaskDone(tag, exit, at) =>
      assert at <= s.clock + CHECK_INTERVAL;
    case RestartDue(_, at, done) =>
      assert at <= s.clock + CHECK_INTERVAL;
    case _ =>
  }

  lemma OneMoreTurn(k: nat, x: nat)
    ensures (k + 1) * x == k * x + x
  {}

  /** Each turn rebuilds the 60 s timer, so turns ended by other branches postpone the
      check by at most a minute (and the time a restart blocks the loop) each. */
  lemma {:induction false} MinutePerTurn(ss: seq<Sup>, es: seq<Event>, a: nat, n: nat, tstar: Time, last: nat, d: nat)
    requires IsRun(ss, es) && LateFrom(es, a, n, tstar) && n < |es|
    requires StaleFrom(es, tstar, last) && StartsWithin(es, d)
    requires ss[a].watched
    ensures ss[n].watched
    ensures ss[n].clock <= ss[a].clock + (n - a) * (CHECK_INTERVAL + d)
    ensures forall i :: a <= i < n ==> !es[i].HeartbeatCheck?
    decreases n
  {
    if a < n {
      assert IsTurn(ss, es, n - 1);
      RunsUntilTheEnd(ss, es);
      MinutePerTurn(ss, es, a, n - 1, tstar, last, d);
      SecsMonotone(tstar, es[n - 1].at);
      TurnTakesAMinute(ss[n - 1], es[n - 1], d);
      OneMoreTurn(n - 1 - a, CHECK_INTERVAL + d);
    }
  }

  lemma {:induction false} StaysWatched(ss: seq<Sup>, es: seq<Event>, n: nat)
    requires IsRun(ss, es) && ss[0].watched && n <= |es|
    ensures ss[n].watched
  {
    if n > 0 {
      StaysWatched(ss, es, n - 1);
      assert IsTurn(ss, es, n - 1);
    }
  }

  /** If turn `n` ends after the heartbeat went stale for good at `tstar`, every turn from
      the first such turn `a` on was ended by another branch, and turn `n` ends at most
      `60*(k+1)` s later, k being the number of those turns, with `k+1` restart delays on
      top; if it is a check, it aborts. For any restart policy. */
  lemma AbortIsAMinutePerTurn(ss: seq<Sup>, es: seq<Event>, n: nat, tstar: Time, last: nat, d: nat) returns (a: nat)
    requires IsRun(ss, es) && ss[0].watched && n < |es| && ss[0].clock <= tstar
    requires StaleFrom(es, tstar, last) && StartsWithin(es, d) && es[n].at >= tstar
    ensures LateFrom(es, a, n, tstar) && (a > 0 ==> es[a - 1].at < tstar)
    ensures forall i :: a <= i < n ==> !es[i].HeartbeatCheck?
    ensures es[n].at <= tstar + (n - a + 1) * (60 * SEC + d)
    ensures es[n].HeartbeatCheck? ==> ss[n + 1].phase == Aborted
  {
    assert IsTurn(ss, es, n);
    a := FirstLateTurn(ss, es, n, tstar, d);
    StaysWatched(ss, es, a);
    MinutePerTurn(ss, es, a, n, tstar, last, d);
    OneMoreTurn(n - a, CHECK_INTERVAL + d);
    SecsMonotone(tstar, es[n].at);
  }

  // ---- the excluded case is real ----

  lemma RunExtends(ss: seq<Sup>, es: seq<Event>, e: Event)
    requires IsRun(ss, es) && Enabled(ss[|es|], e)
    ensures IsRun(ss + [Step(ss[|es|], e)], es + [e])
  {
    var ss', es' := ss + [Step(ss[|es|], e)], es + [e];
    forall i: nat | i < |es'|
      ensures IsTurn(ss', es', i)
    {
      assert i < |es| ==> IsTurn(ss, es, i);
    }
  }

  /** A watched web surface that just crashes every 60 s. */
  predicate Flapping(s: Sup) {
    && s.phase == Running && s.watched && OneWeb(s) && s.pending.None?
    && Starvable(s.cfg)
  }

  lemma OneFlap(s: Sup) returns (crash: Event, restart: Event)
    requires Flapping(s)
    ensures Enabled(s, crash) && !crash.HeartbeatCheck? && !crash.RestartDue?
    ensures Enabled(Step(s, crash), restart) && !restart.HeartbeatCheck?
    ensures restart.RestartDue? && restart.done == restart.at
    ensures var s' := Step(Step(s, crash), restart);
            Flapping(s') && s'.cfg == s.cfg && s'.clock >= s.clock + CHECK_INTERVAL
  {
    crash := TaskDone(Web, Failed, s.clock + CHECK_INTERVAL);
    assert s.tasks[Web] == 1;
    FlapGoesOn(s, crash);
    var s1 := Step(s, crash);
    restart := RestartDue(true, s1.pending.value, s1.pending.value);
    StepKeepsOneWeb(s1, restart);
  }

  /** A crash a minute into the turn is not fatal and its backoff fits in the next. */
  lemma FlapGoesOn(s: Sup, crash: Event)
    requires Flapping(s) && Enabled(s, crash)
    requires crash.TaskDone? && crash.tag == Web && crash.at == s.clock + CHECK_INTERVAL
    ensures var s' := Step(s, crash);
            && s'.phase == Running && OneWeb(s') && s'.cfg == s.cfg && s'.watched
            && s'.clock == s.clock + CHECK_INTERVAL
            && s'.pending.Some? && s'.clock <= s'.pending.value && DueThisTurn(s')
  {
    StepKeepsOneWeb(s, crash);
    FailureBacksOff(s, crash);
    BackoffBounds(s.cfg, Step(s, crash).web.value.retries);
  }

  /** A run that never reaches a heartbeat check, restarts taking at most `d`. */
  ghost predicate CheckFree(ss: seq<Sup>, es: seq<Event>, d: nat) {
    IsRun(ss, es) && StartsWithin(es, d) && forall i :: 0 <= i < |es| ==> !es[i].HeartbeatCheck?
  }

  /** For a starvable policy no bound holds: for every k there is a run of k minutes
      without a single check, in which restarts take no time at all. */
  lemma {:induction false} StarvableNeverChecks(s: Sup, k: nat) returns (ss: seq<Sup>, es: seq<Event>)
    requires Flapping(s)
    ensures CheckFree(ss, es, 0) && ss[0] == s && Flapping(ss[|es|])
    ensures ss[|es|].clock >= s.clock + k * (60 * SEC)
  {
    if k == 0 {
      return [s], [];
    }
    ss, es := StarvableNeverChecks(s, k - 1);
    var now := ss[|es|];
    var crash, restart := OneFlap(now);
    RunExtends(ss, es, crash);
    ss, es := ss + [Step(now, crash)], es + [crash];
    var down := ss[|es|];
    RunExtends(ss, es, restart);
    ss, es := ss + [Step(down, restart)], es + [restart];
  }

  /** A run from `s` that goes `k` minutes without a check, restarts taking at most `d`. */
  ghost predicate Starves(s: Sup, k: nat, d: nat, ss: seq<Sup>, es: seq<Event>) {
    CheckFree(ss, es, d) && ss[0] == s && ss[|es|].phase == Running
    && ss[|es|].clock >= s.clock + k * CHECK_INTERVAL
  }

  ghost predicate CanStarve(s: Sup, k: nat, d: nat) {
    exists ss, es :: Starves(s, k, d, ss, es)
  }

  /** Without a starvable policy a bound on the restarts bounds the time to a check. */
  lemma StarvesAtMost(s: Sup, k: nat, d: nat, ss: seq<Sup>, es: seq<Event>)
    requires Booted(s) && s.watched && !Starvable(s.cfg) && Starves(s, k, d, ss, es)
    ensures k * CHECK_INTERVAL <= MostTurns(s.cfg) * (CHECK_INTERVAL + d)
  {
    TurnsAreBounded(ss, es, 0, |es|, d);
    TurnsLeftBounded(s);
    MulMonotone(CHECK_INTERVAL + d, |es|, MostTurns(s.cfg));
  }

  /** For every policy and every bound on the time a restart takes: the watchdog of a
      booted supervisor can be kept from checking arbitrarily long if and only if the
      policy is starvable. */
  lemma StarvedIffStarvable(s: Sup, d: nat)
    requires Booted(s) && s.watched
    ensures (forall k: nat :: CanStarve(s, k, d)) <==> Starvable(s.cfg)
  {
    if Starvable(s.cfg) {
      forall k: nat
        ensures CanStarve(s, k, d)
      {
        var ss, es := StarvableNeverChecks(s, k);
        assert Starves(s, k, d, ss, es);
      }
    } else {
      var k := MostTurns(s.cfg) * (CHECK_INTERVAL + d) + 1;
      assert k * CHECK_INTERVAL >= k;
      if CanStarve(s, k, d) {
        var ss, es :| Starves(s, k, d, ss, es);
        StarvesAtMost(s, k, d, ss, es);
      }
    }
  }

  /** A first failure is followed by a restart before the next heartbeat check is due. */
  predicate RestartsInTurn(cfg: RestartConfig) {
    cfg.maxRetries >= 1 && ComputeBackoff(cfg, 1) <= CHECK_INTERVAL
  }

  /** One crash, and a restart that takes `k` minutes. */
  lemma SlowRestart(s: Sup, k: nat) returns (ss: seq<Sup>, es: seq<Event>)
    requires Booted(s) && s.watched && RestartsInTurn(s.cfg)
    ensures Starves(s, k, k * CHECK_INTERVAL, ss, es)
  {
    var crash := TaskDone(Web, Failed, s.clock);
    var down := Step(s, crash);
    assert down.phase == Running && down.pending == Some(s.clock + ComputeBackoff(s.cfg, 1)) && down.clock == s.clock;
    var at := down.pending.value;
    var restart := RestartDue(true, at, at + k * CHECK_INTERVAL);
    var up := Step(down, restart);
    RunExtends([s], [], crash);
    RunExtends([s, down], [crash], restart);
    ss, es := [s, down, up], [crash, restart];
    assert [s] + [down] == [s, down] && [] + [crash] == [crash];
    assert [s, down] + [up] == ss && [crash] + [restart] == es;
  }

  /** With no restart in reach, a crash is the last thing before the check. */
  lemma NoRestartNoDelay(s: Sup, ss: seq<Sup>, es: seq<Event>, d: nat)
    requires Booted(s) && s.watched && !RestartsInTurn(s.cfg)
    requires CheckFree(ss, es, d) && ss[0] == s && ss[|es|].phase == Running
    ensures ss[|es|].clock <= s.clock + CHECK_INTERVAL
  {
    if |es| > 0 {
      assert IsTurn(ss, es, 0);
      RunsUntilTheEnd(ss, es);
      CrashThenLongBackoff(s, es[0]);
    }
    if |es| > 1 {
      assert IsTurn(ss, es, 1);
      NothingButTheCheck(ss[1], es[1]);
    }
  }

  lemma CrashThenLongBackoff(s: Sup, e: Event)
    requires Booted(s) && s.watched && !RestartsInTurn(s.cfg)
    requires Enabled(s, e) && !e.HeartbeatCheck? && Step(s, e).phase == Running
    ensures var s' := Step(s, e);
            && s'.watched && s'.pending.Some? && !DueThisTurn(s') && s'.tasks[Web] == 0
            && s'.clock <= s.clock + CHECK_INTERVAL
  {}

  lemma NothingButTheCheck(s: Sup, e: Event)
    requires s.watched && s.pending.Some? && !DueThisTurn(s) && s.tasks[Web] == 0
    requires Enabled(s, e) && !e.HeartbeatCheck?
    ensures Step(s, e).phase != Running
  {}

  /** The same with no bound on how long a restart takes. */
  ghost predicate CanStarveSlowly(s: Sup, k: nat) {
    exists d: nat :: CanStarve(s, k, d)
  }

  /** The source awaits a restart inside the turn, so with no bound on how long one takes
      a single crash will do: the watchdog can be kept from checking arbitrarily long if
      and only if a first failure is restarted at all, and within a turn. */
  lemma StarvedBySlowRestartsIff(s: Sup)
    requires Booted(s) && s.watched
    ensures (forall k: nat :: CanStarveSlowly(s, k)) <==> RestartsInTurn(s.cfg)
  {
    if RestartsInTurn(s.cfg) {
      forall k: nat
        ensures CanStarveSlowly(s, k)
      {
        var ss, es := SlowRestart(s, k);
        assert CanStarve(s, k, k * CHECK_INTERVAL);
      }
    } else if CanStarveSlowly(s, 2) {
      var d: nat :| CanStarve(s, 2, d);
      var ss, es :| Starves(s, 2, d, ss, es);
      NoRestartNoDelay(s, ss, es, d);
    }
  }

  /** The policy the daemon boots with meets every condition above: its budget is
      counted, its backoff is the documented one, and it does not starve the watchdog if
      restarts take bounded time. An unbounded one does. */
  lemma DefaultPolicyIsSound()
    ensures Countable(DEFAULT_CONFIG) && SaturationHarmless(DEFAULT_CONFIG) && !Starvable(DEFAULT_CONFIG)
    ensures RestartsInTurn(DEFAULT_CONFIG)
  {}
}
