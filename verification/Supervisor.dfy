/** The runtime task supervisor of src/supervisor.rs: its state, the effect of every
    arm of its select loop, and the class whose methods update that state in place.
    Times are nanoseconds on one monotone clock. */
module Supervisor {
  import opened Options
  import opened RestartPolicy

  const CHECK_INTERVAL: nat := 60 * SEC
  const STALE_THRESHOLD_SECS: nat := 900

  type Time = nat

  datatype Tag = Critical(name: string) | Web

  /** How a JoinHandle can complete. */
  datatype Exit = Completed | Cancelled | Panicked | Failed

  datatype Reason =
    | TaskExited(exit: Exit)
    | MissingWebState
    | RetriesExhausted(exit: Exit, retries: nat)
    | RestartFailed

  datatype Outcome = Graceful | Fatal(name: string, reason: Reason)

  /** `Aborted` is `process::abort()`: the process is gone and nothing drains. */
  datatype Phase = Running | Exited(outcome: Outcome) | Aborted

  datatype WebState = WebState(retries: u32, lastStart: Time)

  /** `clock` is the moment the current turn of the select loop began. */
  datatype Sup = Sup(
    cfg: RestartConfig,
    rootCancelled: bool,
    tasks: multiset<Tag>,
    web: Option<WebState>,
    pending: Option<Time>,
    hasGatewayStop: bool,
    gatewayStops: nat,
    watched: bool,
    clock: Time,
    phase: Phase)

  /** What ends one turn of the loop. A fired restart also carries the moment
      `start` returned, and a heartbeat check the value it loaded. */
  datatype Event =
    | CtrlC(at: Time)
    | RootCancelled(at: Time)
    | TaskDone(tag: Tag, exit: Exit, at: Time)
    | RestartDue(started: bool, at: Time, done: Time)
    | HeartbeatCheck(last: nat, at: Time)

  /** The select loop can end its current turn this way. The loop builds its 60 s
      heartbeat timer afresh each turn, so no turn of a watched supervisor is longer. */
  predicate Enabled(s: Sup, e: Event) {
    && s.phase == Running
    && s.clock <= e.at
    && (s.watched ==> e.at <= s.clock + CHECK_INTERVAL)
    && match e
       case CtrlC(_) => true
       case RootCancelled(_) => true
       case TaskDone(tag, _, _) => tag in s.tasks
       case RestartDue(_, at, done) => s.pending.Some? && s.pending.value <= at <= done
       case HeartbeatCheck(_, at) => s.watched && at == s.clock + CHECK_INTERVAL
  }

  function EndOf(e: Event): Time {
    match e
    case RestartDue(_, _, done) => done
    case _ => e.at
  }

  function Secs(t: Time): nat { t / SEC }

  predicate IsStale(at: Time, last: nat) {
    Secs(at) > last && Secs(at) - last > STALE_THRESHOLD_SECS
  }

  /** `Instant::elapsed`, which saturates at zero. */
  function Elapsed(since: Time, now: Time): nat {
    if now >= since then now - since else 0
  }

  // ---- the arms, as functions on the state ----

  /** One more web failure at time `now`: charge the budget, then escalate or back off. */
  function ChargeRetry(s: Sup, ws: WebState, now: Time, why: Reason): (Sup, Option<Outcome>) {
    var charged := WrappingIncr(ws.retries);
    var s' := s.(web := Some(ws.(retries := charged)));
    if charged > s.cfg.maxRetries then
      (s', Some(Fatal("web", why)))
    else
      (s'.(pending := Some(now + ComputeBackoff(s.cfg, charged))), None)
  }

  function OnCompletion(s: Sup, tag: Tag, exit: Exit, now: Time): (Sup, Option<Outcome>) {
    match tag
    case Critical(name) => (s, Some(Fatal(name, TaskExited(exit))))
    case Web =>
      match s.web
      case None => (s, Some(Fatal("web", MissingWebState)))
      case Some(ws) =>
        var refilled := if Elapsed(ws.lastStart, now) >= s.cfg.resetAfter then ws.(retries := 0) else ws;
        ChargeRetry(s, refilled, now, RetriesExhausted(exit, WrappingIncr(refilled.retries)))
  }

  function FireWebRestart(s: Sup, started: bool, done: Time): (Sup, Option<Outcome>) {
    if s.pending.None? then (s, None)
    else
      var s' := s.(pending := None);
      match s.web
      case None => (s', Some(Fatal("web", MissingWebState)))
      case Some(ws) =>
        if started then
          (s'.(web := Some(ws.(lastStart := done)), tasks := s.tasks + multiset{Web}), None)
        else
          ChargeRetry(s', ws, done, RestartFailed)
  }

  function Settle(r: (Sup, Option<Outcome>)): Sup {
    match r.1
    case None => r.0
    case Some(o) => r.0.(phase := Exited(o))
  }

  function Step(s: Sup, e: Event): Sup
    requires Enabled(s, e)
  {
    var s1 := s.(clock := EndOf(e));
    match e
    case CtrlC(_) => s1.(phase := Exited(Graceful))
    case RootCancelled(_) => s1.(rootCancelled := true, phase := Exited(Graceful))
    case TaskDone(tag, exit, at) =>
      Settle(OnCompletion(s1.(tasks := s.tasks - multiset{tag}), tag, exit, at))
    case RestartDue(started, at, done) => Settle(FireWebRestart(s1, started, done))
    case HeartbeatCheck(last, at) =>
      if IsStale(at, last) then s1.(phase := Aborted) else s1
  }

  /** Shutdown drain: cancel the root token and call the gateway stop if it is still there. */
  function Drain(s: Sup): Sup {
    s.(rootCancelled := true,
       gatewayStops := s.gatewayStops + if s.hasGatewayStop then 1 else 0,
       hasGatewayStop := false)
  }

  ghost predicate IsTurn(ss: seq<Sup>, es: seq<Event>, i: nat)
    requires i < |es| < |ss|
  {
    Enabled(ss[i], es[i]) && ss[i + 1] == Step(ss[i], es[i])
  }

  /** `ss` is the state before, between and after the turns `es`. */
  ghost predicate IsRun(ss: seq<Sup>, es: seq<Event>) {
    |ss| == |es| + 1 && forall i: nat :: i < |es| ==> IsTurn(ss, es, i)
  }

  /** A freshly wired supervisor: `track_web` was called exactly once. */
  predicate Booted(s: Sup) {
    && s.phase == Running
    && s.tasks[Web] == 1
    && s.pending == None
    && s.web.Some? && s.web.value.retries == 0 && s.web.value.lastStart <= s.clock
  }

  // ---- the object ----

  class TaskSupervisor {
    const restart: RestartConfig
    var rootCancelled: bool
    var tasks: multiset<Tag>
    var web: Option<WebState>
    var pending: Option<Time>
    var hasGatewayStop: bool
    var gatewayStops: nat
    var watched: bool
    var clock: Time
    var phase: Phase

    ghost function View(): Sup
      reads this
    {
      Sup(restart, rootCancelled, tasks, web, pending, hasGatewayStop, gatewayStops, watched, clock, phase)
    }

    constructor (restart: RestartConfig, now: Time)
      ensures View() == Sup(restart, false, multiset{}, None, None, false, 0, false, now, Running)
    {
      this.restart := restart;
      rootCancelled, tasks, web, pending := false, multiset{}, None, None;
      hasGatewayStop, gatewayStops, watched, clock, phase := false, 0, false, now, Running;
    }

    method TrackCritical(name: string)
      modifies this`tasks
      ensures View() == old(View()).(tasks := old(tasks) + multiset{Critical(name)})
    {
      tasks := tasks + multiset{Critical(name)};
    }

    method TrackWeb(now: Time)
      modifies this`web, this`tasks
      ensures View() == old(View()).(web := Some(WebState(0, now)), tasks := old(tasks) + multiset{Web})
    {
      web := Some(WebState(0, now));
      tasks := tasks + multiset{Web};
    }

    method WithGatewayStop()
      modifies this`hasGatewayStop
      ensures View() == old(View()).(hasGatewayStop := true)
    {
      hasGatewayStop := true;
    }

    method WatchGuardian()
      modifies this`watched
      ensures View() == old(View()).(watched := true)
    {
      watched := true;
    }

    method CompleteTask(tag: Tag, exit: Exit, now: Time) returns (outcome: Option<Outcome>)
      modifies this`web, this`pending
      ensures (View(), outcome) == OnCompletion(old(View()), tag, exit, now)
    {
      match tag
      case Critical(name) =>
        return Some(Fatal(name, TaskExited(exit)));
      case Web =>
        if web.None? {
          return Some(Fatal("web", MissingWebState));
        }
        if Elapsed(web.value.lastStart, now) >= restart.resetAfter {
          web := Some(web.value.(retries := 0));
        }
        web := Some(web.value.(retries := WrappingIncr(web.value.retries)));
        if web.value.retries > restart.maxRetries {
          return Some(Fatal("web", RetriesExhausted(exit, web.value.retries)));
        }
        pending := Some(now + ComputeBackoff(restart, web.value.retries));
        return None;
    }

    method RestartWeb(started: bool, done: Time) returns (outcome: Option<Outcome>)
      modifies this`web, this`pending, this`tasks
      ensures (View(), outcome) == FireWebRestart(old(View()), started, done)
    {
      if pending.None? {
        return None;
      }
      pending := None;
      if web.None? {
        return Some(Fatal("web", MissingWebState));
      }
      if started {
        web := Some(web.value.(lastStart := done));
        tasks := tasks + multiset{Web};
        return None;
      }
      web := Some(web.value.(retries := WrappingIncr(web.value.retries)));
      if web.value.retries > restart.maxRetries {
        return Some(Fatal("web", RestartFailed));
      }
      pending := Some(done + ComputeBackoff(restart, web.value.retries));
      return None;
    }

    /** Leave the loop when a handler produced an outcome. */
    method Conclude(outcome: Option<Outcome>)
      modifies this`phase
      ensures View() == Settle((old(View()), outcome))
    {
      if outcome.Some? {
        phase := Exited(outcome.value);
      }
    }

    /** One turn of the select loop, ended by `e`. */
    method TakeTurn(e: Event)
      requires Enabled(View(), e)
      modifies this
      ensures View() == Step(old(View()), e)
    {
      ghost var s := View();
      clock := EndOf(e);
      match e
      case CtrlC(_) => phase := Exited(Graceful);
      case RootCancelled(_) =>
        rootCancelled := true;
        phase := Exited(Graceful);
      case TaskDone(tag, exit, at) =>
        tasks := tasks - multiset{tag};
        assert View() == s.(clock := at, tasks := s.tasks - multiset{tag});
        var outcome := CompleteTask(tag, exit, at);
        Conclude(outcome);
      case RestartDue(started, _, done) =>
        assert View() == s.(clock := done);
        var outcome := RestartWeb(started, done);
        Conclude(outcome);
      case HeartbeatCheck(last, at) =>
        if IsStale(at, last) {
          phase := Aborted;
        }
    }

    /** The select loop, driven by what the environment makes ready: it takes the
        turns of the script, of which only the last can end the loop. */
    method Watch(script: seq<Event>, ghost ss: seq<Sup>)
      requires IsRun(ss, script) && ss[0] == View()
      modifies this
      ensures View() == ss[|script|]
    {
      for i := 0 to |script|
        invariant View() == ss[i]
      {
        assert IsTurn(ss, script, i);
        TakeTurn(script[i]);
      }
    }

    method DrainTasks()
      modifies this`rootCancelled, this`hasGatewayStop, this`gatewayStops
      ensures View() == Drain(old(View()))
    {
      rootCancelled := true;
      if hasGatewayStop {
        hasGatewayStop := false;
        gatewayStops := gatewayStops + 1;
      }
    }

    /** `run`: supervise, then drain for both outcomes. */
    method Run(script: seq<Event>, ghost ss: seq<Sup>)
      requires IsRun(ss, script) && ss[0] == View()
      modifies this
      ensures var last := ss[|script|];
              View() == if last.phase.Exited? then Drain(last) else last
    {
      Watch(script, ss);
      if phase.Exited? {
        DrainTasks();
      }
    }
  }

  function Criticals(names: seq<string>): (tags: multiset<Tag>)
    ensures tags[Web] == 0
  {
    if names == [] then multiset{}
    else Criticals(names[..|names| - 1]) + multiset{Critical(names[|names| - 1])}
  }

  /** How `cmd_serve` wires the supervisor: default policy, gateway stop, watched guardian,
      every background task critical, and the web surface once. Runs start here. */
  method Boot(criticals: seq<string>, now: Time) returns (s: TaskSupervisor)
    ensures fresh(s) && Booted(s.View())
    ensures s.View().cfg == DEFAULT_CONFIG && s.View().watched
    ensures s.View().hasGatewayStop && s.View().gatewayStops == 0
    ensures s.View().tasks == Criticals(criticals) + multiset{Web}
  {
    s := new TaskSupervisor(DEFAULT_CONFIG, now);
    s.WithGatewayStop();
    s.WatchGuardian();
    for i := 0 to |criticals|
      invariant s.View() == Sup(DEFAULT_CONFIG, false, Criticals(criticals[..i]), None, None, true, 0, true, now, Running)
    {
      assert criticals[..i + 1][..i] == criticals[..i];
      s.TrackCritical(criticals[i]);
    }
    assert criticals[..|criticals|] == criticals;
    s.TrackWeb(now);
  }
}
