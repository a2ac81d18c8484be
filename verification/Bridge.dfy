/** The HTTP-to-gateway correlation of src/api/bridge.rs: callers that register a
    one-shot under their message id, enqueue and wait, and responders that look the id
    up. Each section under the map's write lock is one atomic step; an interleaving is any
    sequence of these steps. */
module Bridge {
  import opened Options

  type Id = nat
  type Text = string

  datatype Message = Message(id: Id, text: Text)

  datatype BridgeError = SendFailed | ChannelDropped | Timeout

  type Outcome = Result<Message, BridgeError>

  /** The receiving half a caller holds. `Filled` remembers which reply it was. */
  datatype OneShot = Open | Filled(msg: Message, serial: nat) | SenderGone

  /** Where a caller stands in `send_and_wait_with_timeout`. */
  datatype Pc =
    | Start
    | Registered
    | EnqueueFailed
    | Waiting
    | GaveUp
    | Expired
    | Returned(outcome: Outcome)

  datatype Caller = Caller(id: Id, pc: Pc, slot: OneShot)

  /** The bounded queue into the gateway; `closed` once its receiver is gone. */
  datatype Queue = Queue(capacity: nat, queued: nat, closed: bool)

  /** `responses` maps an id to the caller whose sender is stored there. */
  datatype State = State(
    callers: seq<Caller>,
    responses: map<Id, nat>,
    queue: Queue,
    replies: nat,
    timedOut: nat,
    dropped: nat)

  datatype Action =
    | Register(k: nat)
    | Enqueue(k: nat)
    | CleanUp(k: nat)
    | Poll(k: nat, deadlinePassed: bool)
    | Reply(msg: Message)
    | OtherSend
    | Drain
    | Close

  /** A caller that has registered and not yet returned. */
  predicate InFlight(c: Caller) {
    !c.pc.Start? && !c.pc.Returned?
  }

  /** A send completes: into a free slot, or with an error once the receiver is gone. */
  predicate SendCompletes(q: Queue) {
    q.closed || q.queued < q.capacity
  }

  predicate Enabled(s: State, a: Action) {
    match a
    case Register(k) => k < |s.callers| && s.callers[k].pc == Start
    case Enqueue(k) => k < |s.callers| && s.callers[k].pc == Registered && SendCompletes(s.queue)
    case CleanUp(k) =>
      k < |s.callers| && (s.callers[k].pc == EnqueueFailed || s.callers[k].pc == GaveUp || s.callers[k].pc == Expired)
    case Poll(k, passed) =>
      k < |s.callers| && s.callers[k].pc == Waiting && (s.callers[k].slot == Open ==> passed)
    case Reply(_) => true
    case OtherSend => !s.queue.closed && s.queue.queued < s.queue.capacity
    case Drain => !s.queue.closed && s.queue.queued > 0
    case Close => true
  }

  /** Dropping a stored sender closes the one-shot of the caller it belongs to. */
  function DropSender(s: State, id: Id): State {
    if id in s.responses && s.responses[id] < |s.callers| then
      var k := s.responses[id];
      var c := s.callers[k];
      s.(responses := s.responses - {id},
         callers := if c.slot == Open then s.callers[k := c.(slot := SenderGone)] else s.callers)
    else s.(responses := s.responses - {id})
  }

  function SetPc(s: State, k: nat, pc: Pc): State
    requires k < |s.callers|
  {
    s.(callers := s.callers[k := s.callers[k].(pc := pc)])
  }

  /** The timeout combinator polls the one-shot before it looks at the clock. */
  function PollResult(c: Caller): Pc {
    match c.slot
    case Filled(msg, _) => Returned(Ok(msg))
    case SenderGone => GaveUp
    case Open => Expired
  }

  function Step(s: State, a: Action): State
    requires Enabled(s, a)
  {
    match a
    case Register(k) =>
      var id := s.callers[k].id;
      var s' := DropSender(s, id);
      SetPc(s'.(responses := s'.responses[id := k]), k, Registered)
    case Enqueue(k) =>
      if s.queue.closed then SetPc(s, k, EnqueueFailed)
      else SetPc(s, k, Waiting).(queue := s.queue.(queued := s.queue.queued + 1))
    case CleanUp(k) =>
      var c := s.callers[k];
      var s' := DropSender(s, c.id);
      match c.pc {
        case EnqueueFailed => SetPc(s', k, Returned(Err(SendFailed)))
        case GaveUp => SetPc(s', k, Returned(Err(ChannelDropped))).(dropped := s.dropped + 1)
        case _ => SetPc(s', k, Returned(Err(Timeout))).(timedOut := s.timedOut + 1)
      }
    case Poll(k, _) => SetPc(s, k, PollResult(s.callers[k]))
    case Reply(msg) => Correlate(s, msg).(replies := s.replies + 1)
    case OtherSend => s.(queue := s.queue.(queued := s.queue.queued + 1))
    case Drain => s.(queue := s.queue.(queued := s.queue.queued - 1))
    case Close => s.(queue := s.queue.(closed := true))
  }

  /** A reply takes the sender out of the map and fills it if the caller still listens. */
  function Correlate(s: State, msg: Message): State {
    if msg.id in s.responses && s.responses[msg.id] < |s.callers| then
      var k := s.responses[msg.id];
      var c := s.callers[k];
      var listens := c.slot == Open && Listening(c.pc);
      s.(responses := s.responses - {msg.id},
         callers := s.callers[k := c.(slot := if listens then Filled(msg, s.replies)
                                              else if c.slot == Open then SenderGone else c.slot)])
    else s.(responses := s.responses - {msg.id})
  }

  /** A step that is not enabled does not happen. */
  function Do(s: State, a: Action): State {
    if Enabled(s, a) then Step(s, a) else s
  }

  /** The state after an interleaving. */
  function After(s: State, acts: seq<Action>): State {
    if acts == [] then s else Do(After(s, acts[..|acts| - 1]), acts[|acts| - 1])
  }

  ghost predicate Fresh(s: State) {
    && (forall k :: 0 <= k < |s.callers| ==> s.callers[k].pc == Start && s.callers[k].slot == Open)
    && s.responses == map[] && s.timedOut == 0 && s.dropped == 0
    && s.queue.capacity > 0 && s.queue.queued == 0 && !s.queue.closed
  }

  /** Message ids are distinct, as random UUIDs are meant to be. */
  ghost predicate UniqueIds(s: State) {
    forall i, j :: 0 <= i < j < |s.callers| ==> s.callers[i].id != s.callers[j].id
  }

  // ---- what holds for every interleaving, ids unique or not ----

  function CountOf(callers: seq<Caller>, e: BridgeError): nat {
    if callers == [] then 0
    else CountOf(callers[..|callers| - 1], e) + if callers[|callers| - 1].pc == Returned(Err(e)) then 1 else 0
  }

  lemma {:induction false} CountUpdate(callers: seq<Caller>, k: nat, c: Caller, e: BridgeError)
    requires k < |callers|
    ensures CountOf(callers[k := c], e)
            == CountOf(callers, e)
               - (if callers[k].pc == Returned(Err(e)) then 1 else 0)
               + (if c.pc == Returned(Err(e)) then 1 else 0)
  {
    var updated := callers[k := c];
    if k == |callers| - 1 {
      assert updated[..k] == callers[..k];
    } else {
      CountUpdate(callers[..|callers| - 1], k, c, e);
      assert updated[..|callers| - 1] == callers[..|callers| - 1][k := c];
    }
  }

  lemma {:induction false} CountSame(a: seq<Caller>, b: seq<Caller>, e: BridgeError)
    requires |a| == |b| && forall i :: 0 <= i < |a| ==> a[i].pc == b[i].pc
    ensures CountOf(a, e) == CountOf(b, e)
  {
    if a != [] {
      CountSame(a[..|a| - 1], b[..|b| - 1], e);
    }
  }

  predicate Counted(s: State) {
    s.timedOut == CountOf(s.callers, Timeout) && s.dropped == CountOf(s.callers, ChannelDropped)
  }

  /** Dropping or filling a sender moves no program counter. */
  predicate SamePcs(s: State, s': State) {
    && |s'.callers| == |s.callers|
    && (forall i :: 0 <= i < |s.callers| ==> s'.callers[i].pc == s.callers[i].pc && s'.callers[i].id == s.callers[i].id)
    && s'.timedOut == s.timedOut && s'.dropped == s.dropped
  }

  lemma SamePcsCounted(s: State, s': State)
    requires SamePcs(s, s')
    ensures CountOf(s'.callers, Timeout) == CountOf(s.callers, Timeout)
    ensures CountOf(s'.callers, ChannelDropped) == CountOf(s.callers, ChannelDropped)
  {
    CountSame(s.callers, s'.callers, Timeout);
    CountSame(s.callers, s'.callers, ChannelDropped);
  }

  lemma SetPcCounts(s: State, k: nat, pc: Pc)
    requires k < |s.callers|
    ensures forall e :: CountOf(SetPc(s, k, pc).callers, e)
                        == CountOf(s.callers, e)
                           - (if s.callers[k].pc == Returned(Err(e)) then 1 else 0)
                           + (if pc == Returned(Err(e)) then 1 else 0)
  {
    forall e: BridgeError
      ensures CountOf(SetPc(s, k, pc).callers, e)
              == CountOf(s.callers, e)
                 - (if s.callers[k].pc == Returned(Err(e)) then 1 else 0)
                 + (if pc == Returned(Err(e)) then 1 else 0)
    {
      CountUpdate(s.callers, k, s.callers[k].(pc := pc), e);
    }
  }

  lemma RegisterKeepsCounts(s: State, k: nat)
    requires Enabled(s, Register(k)) && Counted(s)
    ensures Counted(Step(s, Register(k)))
  {
    var s' := DropSender(s, s.callers[k].id);
    SamePcsCounted(s, s');
    SetPcCounts(s'.(responses := s'.responses[s.callers[k].id := k]), k, Registered);
  }

  lemma CleanUpKeepsCounts(s: State, k: nat)
    requires Enabled(s, CleanUp(k)) && Counted(s)
    ensures Counted(Step(s, CleanUp(k)))
  {
    var s' := DropSender(s, s.callers[k].id);
    SamePcsCounted(s, s');
    SetPcCounts(s', k, Step(s, CleanUp(k)).callers[k].pc);
  }

  lemma StepKeepsCounts(s: State, a: Action)
    requires Enabled(s, a) && Counted(s)
    ensures Counted(Step(s, a))
  {
    match a
    case Register(k) => RegisterKeepsCounts(s, k);
    case Enqueue(k) =>
      SetPcCounts(s, k, if s.queue.closed then EnqueueFailed else Waiting);
    case CleanUp(k) => CleanUpKeepsCounts(s, k);
    case Poll(k, _) =>
      SetPcCounts(s, k, PollResult(s.callers[k]));
    case Reply(msg) =>
      SamePcsCounted(s, Correlate(s, msg));
    case _ =>
  }

  /** Both counters equal the outcomes of their kind in every interleaving, ids unique
      or not. */
  lemma {:induction false} CountersCount(s: State, acts: seq<Action>)
    requires Fresh(s)
    ensures Counted(After(s, acts))
  {
    if acts == [] {
      NoneCounted(s.callers, Timeout);
      NoneCounted(s.callers, ChannelDropped);
    } else {
      CountersCount(s, acts[..|acts| - 1]);
      var before := After(s, acts[..|acts| - 1]);
      if Enabled(before, acts[|acts| - 1]) {
        StepKeepsCounts(before, acts[|acts| - 1]);
      }
    }
  }

  /** One caller's own outcome is final, and nobody else's step moves its counter. */
  lemma StepRespectsOutcomes(s: State, a: Action, k: nat)
    requires k < |s.callers|
    ensures |Do(s, a).callers| == |s.callers| && Do(s, a).callers[k].id == s.callers[k].id
    ensures s.callers[k].pc.Returned? || !OwnStep(a, k) ==> Do(s, a).callers[k].pc == s.callers[k].pc
  {}

  /** The caller whose step this is. */
  function Owner(a: Action): Option<nat> {
    match a
    case Register(k) => Some(k)
    case Enqueue(k) => Some(k)
    case CleanUp(k) => Some(k)
    case Poll(k, _) => Some(k)
    case _ => None
  }

  predicate OwnStep(a: Action, k: nat) {
    Owner(a) == Some(k)
  }

  /** Exactly one outcome: whatever else runs, a returned caller keeps its outcome. */
  lemma {:induction false} ExactlyOneOutcome(s: State, acts: seq<Action>, k: nat)
    requires k < |s.callers| && s.callers[k].pc.Returned?
    ensures |After(s, acts).callers| == |s.callers| && After(s, acts).callers[k].pc == s.callers[k].pc
  {
    if acts != [] {
      ExactlyOneOutcome(s, acts[..|acts| - 1], k);
      StepRespectsOutcomes(After(s, acts[..|acts| - 1]), acts[|acts| - 1], k);
    }
  }

  /** How many of its own steps a caller still needs. */
  function StepsLeft(pc: Pc): nat {
    match pc
    case Start => 4
    case Registered => 3
    case Waiting => 2
    case EnqueueFailed | GaveUp | Expired => 1
    case Returned(_) => 0
  }

  /** Waiting for room in the queue, which no deadline covers. */
  predicate Blocked(s: State, k: nat)
    requires k < |s.callers|
  {
    s.callers[k].pc == Registered && !SendCompletes(s.queue)
  }

  /** A caller that has not returned has a step of its own unless it waits for room in a
      full queue, and only then not; each of its steps brings it closer to returning; and
      no step of anybody else takes it back. */
  lemma ProgressUnlessBlocked(s: State, k: nat)
    requires k < |s.callers| && !s.callers[k].pc.Returned?
    ensures (exists a :: OwnStep(a, k) && Enabled(s, a)) <==> !Blocked(s, k)
    ensures forall a :: Enabled(s, a) && OwnStep(a, k) ==>
              StepsLeft(Step(s, a).callers[k].pc) < StepsLeft(s.callers[k].pc)
    ensures forall a :: !OwnStep(a, k) ==> StepsLeft(Do(s, a).callers[k].pc) == StepsLeft(s.callers[k].pc)
  {
    var a :=
      match s.callers[k].pc
      case Start => Register(k)
      case Registered => Enqueue(k)
      case Waiting => Poll(k, true)
      case _ => CleanUp(k);
    assert OwnStep(a, k);
    assert Enabled(s, a) <==> !Blocked(s, k);
    forall a | !OwnStep(a, k)
      ensures StepsLeft(Do(s, a).callers[k].pc) == StepsLeft(s.callers[k].pc)
    {
      StepRespectsOutcomes(s, a, k);
    }
  }

  /** While the gateway neither drains the queue nor goes away. */
  ghost predicate NobodyReceives(acts: seq<Action>) {
    forall i :: 0 <= i < |acts| ==> !acts[i].Drain? && !acts[i].Close?
  }

  /** A caller that waits for room waits as long as the gateway does not receive, whatever
      else happens and however much time passes: it can hang. */
  lemma {:induction false} BlockedStaysBlocked(s: State, acts: seq<Action>, k: nat)
    requires k < |s.callers| && Blocked(s, k) && NobodyReceives(acts)
    ensures |After(s, acts).callers| == |s.callers| && Blocked(After(s, acts), k)
    ensures After(s, acts).queue == s.queue
  {
    if acts != [] {
      BlockedStaysBlocked(s, acts[..|acts| - 1], k);
      StaysBlocked(After(s, acts[..|acts| - 1]), acts[|acts| - 1], k);
    }
  }

  lemma StaysBlocked(s: State, a: Action, k: nat)
    requires k < |s.callers| && Blocked(s, k) && !a.Drain? && !a.Close?
    ensures |Do(s, a).callers| == |s.callers| && Blocked(Do(s, a), k) && Do(s, a).queue == s.queue
  {
    StepRespectsOutcomes(s, a, k);
  }

  /** The queue never holds more than its capacity, and the capacity never changes. */
  lemma {:induction false} QueueStaysBounded(s: State, acts: seq<Action>)
    requires Fresh(s)
    ensures After(s, acts).queue.capacity == s.queue.capacity
    ensures After(s, acts).queue.queued <= s.queue.capacity
  {
    if acts != [] {
      QueueStaysBounded(s, acts[..|acts| - 1]);
      StepKeepsQueue(After(s, acts[..|acts| - 1]), acts[|acts| - 1]);
    }
  }

  lemma StepKeepsQueue(s: State, a: Action)
    requires s.queue.queued <= s.queue.capacity
    ensures Do(s, a).queue.capacity == s.queue.capacity
    ensures Do(s, a).queue.queued <= s.queue.capacity
  {}

  /** One message received, or the receiver gone, frees a caller that waits for room: in
      any interleaving its send can then complete, into the queue or with an error. */
  lemma ReceivingUnblocks(s: State, acts: seq<Action>, k: nat)
    requires Fresh(s) && k < |After(s, acts).callers| && Blocked(After(s, acts), k)
    ensures var t := After(s, acts);
            && |Do(t, Drain).callers| == |Do(t, Close).callers| == |t.callers|
            && !Blocked(Do(t, Drain), k) && !Blocked(Do(t, Close), k)
            && Enabled(Do(t, Drain), Enqueue(k)) && Step(Do(t, Drain), Enqueue(k)).callers[k].pc == Waiting
            && Enabled(Do(t, Close), Enqueue(k)) && Step(Do(t, Close), Enqueue(k)).callers[k].pc == EnqueueFailed
  {
    QueueStaysBounded(s, acts);
  }

  /** A queue of `n` that nobody receives from does block callers. */
  lemma FullQueueBlocks(id: Id, n: nat) returns (s: State, acts: seq<Action>)
    requires n > 0
    ensures Fresh(s) && UniqueIds(s) && s.queue.capacity == n && |s.callers| == 1
    ensures NobodyReceives(acts) && |After(s, acts).callers| == 1 && Blocked(After(s, acts), 0)
  {
    s := State([Caller(id, Start, Open)], map[], Queue(n, 0, false), 0, 0, 0);
    acts := [];
    for i := 0 to n
      invariant NobodyReceives(acts)
      invariant After(s, acts) == s.(queue := Queue(n, i, false))
    {
      assert (acts + [OtherSend])[..|acts|] == acts;
      acts := acts + [OtherSend];
    }
    assert (acts + [Register(0)])[..|acts|] == acts;
    acts := acts + [Register(0)];
  }

  /** Once the message is in the queue the deadline covers the caller: a poll after the
      deadline and a clean-up return it, whatever the others do in between. */
  lemma DeadlineReturns(s: State, k: nat, before: seq<Action>, after: seq<Action>)
    requires k < |s.callers| && s.callers[k].pc == Waiting
    requires NoneOwn(before, k) && NoneOwn(after, k)
    ensures var polled := Do(After(s, before), Poll(k, true));
            var cleaned := Do(After(polled, after), CleanUp(k));
            k < |cleaned.callers| && cleaned.callers[k].pc.Returned?
  {
    OthersLeavePc(s, before, k);
    var polled := Do(After(s, before), Poll(k, true));
    StepRespectsOutcomes(After(s, before), Poll(k, true), k);
    OthersLeavePc(polled, after, k);
    StepRespectsOutcomes(After(polled, after), CleanUp(k), k);
  }

  // ---- what holds when ids are unique ----

  /** A stored sender belongs to a caller in flight under that id, still unfilled. */
  ghost predicate SendersInFlight(s: State) {
    forall id :: id in s.responses ==> SenderInFlight(s, id)
  }

  predicate SenderInFlight(s: State, id: Id)
    requires id in s.responses
  {
    && s.responses[id] < |s.callers|
    && s.callers[s.responses[id]].id == id
    && InFlight(s.callers[s.responses[id]])
    && s.callers[s.responses[id]].slot == Open
  }

  predicate Listening(pc: Pc) {
    pc == Registered || pc == Waiting || pc == EnqueueFailed
  }

  /** The state of one caller's one-shot is explained by where the caller stands. */
  predicate SlotExplained(c: Caller, stored: bool, replies: nat) {
    && (c.slot.Filled? ==> c.slot.msg.id == c.id && c.slot.serial < replies)
    && (c.pc == Start ==> c.slot == Open && !stored)
    && (Listening(c.pc) ==> if c.slot == Open then stored else c.slot.Filled?)
    && c.pc != GaveUp
    && (c.pc == Expired ==> !c.slot.Filled?)
    && (c.pc.Returned? ==> !stored && OutcomeExplained(c.pc.outcome, c.slot))
  }

  predicate OutcomeExplained(outcome: Outcome, slot: OneShot) {
    match outcome
    case Ok(msg) => slot.Filled? && msg == slot.msg
    case Err(e) => e != ChannelDropped && (e == Timeout ==> !slot.Filled?)
  }

  /** The sender stored under the caller's id is this caller's own. */
  predicate Stored(s: State, k: nat)
    requires k < |s.callers|
  {
    s.callers[k].id in s.responses && s.responses[s.callers[k].id] == k
  }

  predicate CallerExplained(s: State, k: nat)
    requires k < |s.callers|
  {
    SlotExplained(s.callers[k], Stored(s, k), s.replies)
  }

  ghost predicate AllExplained(s: State) {
    forall k: nat :: k < |s.callers| ==> CallerExplained(s, k)
  }

  /** No two callers hold the same reply. */
  ghost predicate SerialsDistinct(s: State) {
    forall i, j :: 0 <= i < j < |s.callers| && s.callers[i].slot.Filled? && s.callers[j].slot.Filled?
                   ==> s.callers[i].slot.serial != s.callers[j].slot.serial
  }

  ghost predicate Inv(s: State) {
    UniqueIds(s) && SendersInFlight(s) && SerialsDistinct(s) && Counted(s) && AllExplained(s)
  }

  lemma NobodyElseStored(s: State, k: nat, j: nat)
    requires UniqueIds(s) && k < |s.callers| && j < |s.callers| && j != k
    ensures s.callers[j].id != s.callers[k].id
  {}

  /** With unique ids a caller's registration finds no earlier sender, and its clean-up
      finds nobody else's. */
  lemma OwnEntry(s: State, k: nat)
    requires Inv(s) && k < |s.callers|
    ensures s.callers[k].id in s.responses ==> s.responses[s.callers[k].id] == k
    ensures s.callers[k].pc == Start || s.callers[k].pc.Returned? ==> s.callers[k].id !in s.responses
  {}

  lemma RegisterKeepsInv(s: State, k: nat)
    requires Enabled(s, Register(k)) && Inv(s)
    ensures SendersInFlight(Step(s, Register(k))) && AllExplained(Step(s, Register(k)))
    ensures UniqueIds(Step(s, Register(k))) && SerialsDistinct(Step(s, Register(k)))
  {
    var s' := Step(s, Register(k));
    OwnEntry(s, k);
    assert CallerExplained(s, k);
    assert s'.callers == s.callers[k := s.callers[k].(pc := Registered)];
    assert s'.responses == s.responses[s.callers[k].id := k];
    forall id | id in s'.responses
      ensures SenderInFlight(s', id)
    {
      assert id in s.responses ==> SenderInFlight(s, id);
    }
    forall j: nat | j < |s'.callers|
      ensures CallerExplained(s', j)
    {
      assert CallerExplained(s, j);
    }
  }

  lemma RegisterKeepsSlot(s: State, k: nat)
    requires Enabled(s, Register(k)) && Inv(s)
    ensures Step(s, Register(k)).callers[k] == Caller(s.callers[k].id, Registered, Open)
  {
    OwnEntry(s, k);
    assert CallerExplained(s, k);
  }

  lemma MoveKeepsInv(s: State, k: nat, pc: Pc)
    requires Inv(s) && k < |s.callers|
    requires Stored(s, k) ==> InFlight(s.callers[k].(pc := pc))
    requires SlotExplained(s.callers[k].(pc := pc), Stored(s, k), s.replies)
    ensures SendersInFlight(SetPc(s, k, pc)) && AllExplained(SetPc(s, k, pc))
    ensures UniqueIds(SetPc(s, k, pc)) && SerialsDistinct(SetPc(s, k, pc))
  {
    var s' := SetPc(s, k, pc);
    forall id | id in s'.responses
      ensures SenderInFlight(s', id)
    {
      assert SenderInFlight(s, id);
      OwnEntry(s, k);
    }
    forall j: nat | j < |s'.callers|
      ensures CallerExplained(s', j)
    {
      assert CallerExplained(s, j);
    }
  }

  function CleanUpError(pc: Pc): BridgeError {
    if pc == EnqueueFailed then SendFailed else if pc == GaveUp then ChannelDropped else Timeout
  }

  /** What clean-up does to the map and the callers when the entry is the caller's own. */
  predicate CleanedUp(s: State, s': State, k: nat)
    requires k < |s.callers|
  {
    var c := s.callers[k];
    && s'.responses == s.responses - {c.id} && s'.replies == s.replies
    && |s'.callers| == |s.callers|
    && (forall j :: 0 <= j < |s.callers| && j != k ==> s'.callers[j] == s.callers[j])
    && s'.callers[k].id == c.id && s'.callers[k].pc == Returned(Err(CleanUpError(c.pc)))
    && (s'.callers[k].slot == c.slot || s'.callers[k].slot == SenderGone)
  }

  lemma CleanUpIsLocal(s: State, k: nat)
    requires Enabled(s, CleanUp(k)) && Inv(s)
    ensures CleanedUp(s, Step(s, CleanUp(k)), k)
  {}

  lemma CleanUpKeepsInv(s: State, s': State, k: nat)
    requires Enabled(s, CleanUp(k)) && Inv(s) && CleanedUp(s, s', k)
    ensures SendersInFlight(s') && AllExplained(s') && UniqueIds(s') && SerialsDistinct(s')
  {
    OwnEntry(s, k);
    assert CallerExplained(s, k);
    forall id | id in s'.responses
      ensures SenderInFlight(s', id)
    {
      assert SenderInFlight(s, id);
    }
    forall j: nat | j < |s'.callers|
      ensures CallerExplained(s', j)
    {
      assert CallerExplained(s, j);
    }
  }

  lemma ReplyKeepsInv(s: State, msg: Message)
    requires Inv(s)
    ensures SendersInFlight(Step(s, Reply(msg))) && AllExplained(Step(s, Reply(msg)))
    ensures UniqueIds(Step(s, Reply(msg))) && SerialsDistinct(Step(s, Reply(msg)))
  {
    var s' := Step(s, Reply(msg));
    assert s'.responses == s.responses - {msg.id};
    if msg.id in s.responses {
      assert SenderInFlight(s, msg.id);
      var k := s.responses[msg.id];
      assert CallerExplained(s, k);
      assert forall j :: 0 <= j < |s.callers| && j != k ==> s'.callers[j] == s.callers[j];
      assert s'.callers[k].slot == (if Listening(s.callers[k].pc) then Filled(msg, s.replies) else SenderGone);
    }
    forall id | id in s'.responses
      ensures SenderInFlight(s', id)
    {
      assert SenderInFlight(s, id);
    }
    forall j: nat | j < |s'.callers|
      ensures CallerExplained(s', j)
    {
      assert CallerExplained(s, j);
    }
    ReplyKeepsSerials(s, msg);
  }

  lemma ReplyKeepsSerials(s: State, msg: Message)
    requires SerialsDistinct(s) && AllExplained(s)
    ensures SerialsDistinct(Step(s, Reply(msg)))
  {
    var s' := Step(s, Reply(msg));
    forall i, j | 0 <= i < j < |s'.callers| && s'.callers[i].slot.Filled? && s'.callers[j].slot.Filled?
      ensures s'.callers[i].slot.serial != s'.callers[j].slot.serial
    {
      assert CallerExplained(s, i) && CallerExplained(s, j);
    }
  }

  lemma StepKeepsInv(s: State, a: Action)
    requires Enabled(s, a) && Inv(s)
    ensures Inv(Step(s, a))
  {
    StepKeepsCounts(s, a);
    match a
    case Register(k) => RegisterKeepsInv(s, k);
    case Enqueue(k) =>
      assert CallerExplained(s, k);
      MoveKeepsInv(s, k, if s.queue.closed then EnqueueFailed else Waiting);
      QueueIsApart(SetPc(s, k, if s.queue.closed then EnqueueFailed else Waiting), Step(s, a));
    case CleanUp(k) =>
      CleanUpIsLocal(s, k);
      CleanUpKeepsInv(s, Step(s, a), k);
    case Poll(k, _) =>
      assert CallerExplained(s, k);
      if Stored(s, k) {
        assert SenderInFlight(s, s.callers[k].id);
      }
      MoveKeepsInv(s, k, PollResult(s.callers[k]));
    case Reply(msg) => ReplyKeepsInv(s, msg);
    case _ => QueueIsApart(s, Step(s, a));
  }

  /** The queue has no part in the correlation. */
  lemma QueueIsApart(s: State, s': State)
    requires s' == s.(queue := s'.queue)
    requires SendersInFlight(s) && AllExplained(s) && UniqueIds(s) && SerialsDistinct(s)
    ensures SendersInFlight(s') && AllExplained(s') && UniqueIds(s') && SerialsDistinct(s')
  {
    forall id | id in s'.responses
      ensures SenderInFlight(s', id)
    {
      assert SenderInFlight(s, id);
    }
    forall k: nat | k < |s'.callers|
      ensures CallerExplained(s', k)
    {
      assert CallerExplained(s, k);
    }
  }

  lemma {:induction false} RunKeepsInv(s: State, acts: seq<Action>)
    requires Inv(s)
    ensures Inv(After(s, acts))
  {
    if acts != [] {
      RunKeepsInv(s, acts[..|acts| - 1]);
      var last := After(s, acts[..|acts| - 1]);
      if Enabled(last, acts[|acts| - 1]) {
        StepKeepsInv(last, acts[|acts| - 1]);
      }
    }
  }

  lemma FreshHasInv(s: State)
    requires Fresh(s) && UniqueIds(s)
    ensures Inv(s)
  {
    NoneCounted(s.callers, Timeout);
    NoneCounted(s.callers, ChannelDropped);
    forall k: nat | k < |s.callers|
      ensures CallerExplained(s, k)
    {}
  }

  lemma {:induction false} NoneCounted(callers: seq<Caller>, e: BridgeError)
    requires forall k :: 0 <= k < |callers| ==> callers[k].pc != Returned(Err(e))
    ensures CountOf(callers, e) == 0
  {
    if callers != [] {
      NoneCounted(callers[..|callers| - 1], e);
    }
  }

  /** What a caller can have been told in state `s`. */
  ghost predicate Sound(s: State) {
    && (forall k {:trigger s.callers[k]} :: 0 <= k < |s.callers| && s.callers[k].pc.Returned? ==>
          var c := s.callers[k];
          OutcomeExplained(c.pc.outcome, c.slot) && (c.pc.outcome.Ok? ==> c.pc.outcome.value.id == c.id))
    && SerialsDistinct(s)
    && SendersInFlight(s)
    && ((forall k :: 0 <= k < |s.callers| ==> s.callers[k].pc.Returned?) ==> s.responses == map[])
    && s.timedOut == CountOf(s.callers, Timeout) && s.dropped == 0
  }

  /** In every interleaving of callers with unique ids: a returned reply carries the
      caller's own id, no reply reaches two callers, and a filled one-shot is never
      reported as a timeout; stored senders belong to requests in flight, so the map is
      empty once all have returned; no caller ever sees a dropped channel; and the
      timeout counter is the number of timeouts. */
  lemma CorrelationIsSound(s: State, acts: seq<Action>)
    requires Fresh(s) && UniqueIds(s)
    ensures Sound(After(s, acts))
  {
    FreshHasInv(s);
    RunKeepsInv(s, acts);
    InvIsSound(After(s, acts));
  }

  /** Unique ids are exactly what it takes: two callers under one id can end with a
      dropped channel. */
  lemma SoundIffUniqueIds(s: State)
    requires Fresh(s)
    ensures (forall acts :: Sound(After(s, acts))) <==> UniqueIds(s)
  {
    if UniqueIds(s) {
      forall acts
        ensures Sound(After(s, acts))
      {
        CorrelationIsSound(s, acts);
      }
    } else {
      var i: nat, j: nat :| i < j < |s.callers| && s.callers[i].id == s.callers[j].id;
      var acts := SharedIdRun(s, i, j);
      DroppedIsUnsound(After(s, acts), i);
    }
  }

  lemma DroppedIsUnsound(s: State, i: nat)
    requires i < |s.callers| && s.callers[i].pc == Returned(Err(ChannelDropped))
    ensures !Sound(s)
  {
    assert s.callers[i].pc.Returned? && !OutcomeExplained(s.callers[i].pc.outcome, s.callers[i].slot);
  }

  lemma SharedIdRun(s: State, i: nat, j: nat) returns (acts: seq<Action>)
    requires Fresh(s) && i < j < |s.callers| && s.callers[i].id == s.callers[j].id
    ensures i < |After(s, acts).callers| && After(s, acts).callers[i].pc == Returned(Err(ChannelDropped))
  {
    acts := [Register(i), Register(j), Enqueue(i), Poll(i, false), CleanUp(i)];
    AfterFive(s, acts);
    SharedIdDropsChannel(s, i, j);
  }

  /** The second registration under an id closes the channel of the first. */
  lemma SharedIdDropsChannel(s: State, i: nat, j: nat)
    requires Fresh(s) && i < j < |s.callers| && s.callers[i].id == s.callers[j].id
    ensures var s1 := Do(Do(Do(s, Register(i)), Register(j)), Enqueue(i));
            var s2 := Do(Do(s1, Poll(i, false)), CleanUp(i));
            i < |s2.callers| && s2.callers[i].pc == Returned(Err(ChannelDropped))
  {
    var id := s.callers[i].id;
    var a := Do(s, Register(i));
    assert a.callers == s.callers[i := Caller(id, Registered, Open)] && a.responses == map[id := i];
    var b := Do(a, Register(j));
    assert b.callers[i] == Caller(id, Registered, SenderGone) && b.responses == map[id := j];
    var c := Do(b, Enqueue(i));
    assert c.callers[i] == Caller(id, Waiting, SenderGone);
  }

  lemma {:induction false} AfterFive(s: State, acts: seq<Action>)
    requires |acts| == 5
    ensures After(s, acts) == Do(Do(Do(Do(Do(s, acts[0]), acts[1]), acts[2]), acts[3]), acts[4])
  {
    AfterFour(s, acts[0], acts[1], acts[2], acts[3]);
    AfterTake(s, acts, 4);
    assert acts[..4] == [acts[0], acts[1], acts[2], acts[3]];
    assert acts[..5] == acts;
  }

  lemma InvIsSound(s: State)
    requires Inv(s)
    ensures Sound(s)
  {
    forall k: nat | k < |s.callers|
      ensures s.callers[k].pc != Returned(Err(ChannelDropped))
    {
      assert CallerExplained(s, k);
    }
    NoneCounted(s.callers, ChannelDropped);
    forall k: nat | k < |s.callers| && s.callers[k].pc.Returned?
      ensures OutcomeExplained(s.callers[k].pc.outcome, s.callers[k].slot)
      ensures s.callers[k].pc.outcome.Ok? ==> s.callers[k].pc.outcome.value.id == s.callers[k].id
    {
      assert CallerExplained(s, k);
    }
    SomebodyInFlight(s);
  }

  lemma SomebodyInFlight(s: State)
    requires SendersInFlight(s)
    ensures s.responses == map[] || exists k :: 0 <= k < |s.callers| && InFlight(s.callers[k])
  {}

  // ---- one caller against everybody else ----

  /** The first reply under `id` in an interleaving. */
  function FirstReply(acts: seq<Action>, id: Id): Option<Message> {
    if acts == [] then None
    else
      match FirstReply(acts[..|acts| - 1], id)
      case Some(msg) => Some(msg)
      case None =>
        var last := acts[|acts| - 1];
        if last.Reply? && last.msg.id == id then Some(last.msg) else None
  }

  ghost predicate NoneOwn(acts: seq<Action>, k: nat) {
    forall i :: 0 <= i < |acts| ==> !OwnStep(acts[i], k)
  }

  /** What matters about a listening caller: where it stands and the reply it holds. */
  datatype Ear = Ear(pc: Pc, id: Id, held: Option<Message>)

  function EarOf(c: Caller): Ear {
    Ear(c.pc, c.id, if c.slot.Filled? then Some(c.slot.msg) else None)
  }

  function Hear(e: Ear, a: Action): Ear {
    if e.held.None? && a.Reply? && a.msg.id == e.id then e.(held := Some(a.msg)) else e
  }

  /** Somebody else's step fills a listener's empty slot exactly when it replies to its id. */
  lemma OneMoreAction(s: State, a: Action, k: nat)
    requires Inv(s) && k < |s.callers| && !OwnStep(a, k) && Listening(s.callers[k].pc)
    ensures EarOf(Do(s, a).callers[k]) == Hear(EarOf(s.callers[k]), a)
  {
    assert CallerExplained(s, k);
    OwnEntry(s, k);
    if Owner(a).Some? && Owner(a).value < |s.callers| {
      NobodyElseStored(s, Owner(a).value, k);
      OwnEntry(s, Owner(a).value);
    }
    if a.Reply? && a.msg.id in s.responses {
      assert SenderInFlight(s, a.msg.id);
    }
  }

  lemma FirstReplyAdds(heard: seq<Action>, acts: seq<Action>, id: Id, pc: Pc)
    requires acts != []
    ensures var init, last := acts[..|acts| - 1], acts[|acts| - 1];
            Hear(Ear(pc, id, FirstReply(heard + init, id)), last) == Ear(pc, id, FirstReply(heard + acts, id))
  {
    assert (heard + acts)[..|heard + acts| - 1] == heard + acts[..|acts| - 1];
  }

  /** While a caller listens, its one-shot holds the first reply under its id since it
      registered and no other, whatever the rest of the process does. `heard` is what
      happened before, `acts` what happens now. */
  lemma {:induction false} ListenerHearsFirst(s: State, heard: seq<Action>, acts: seq<Action>, k: nat, id: Id, pc: Pc)
    requires Inv(s) && k < |s.callers| && NoneOwn(acts, k) && Listening(pc)
    requires EarOf(s.callers[k]) == Ear(pc, id, FirstReply(heard, id))
    ensures |After(s, acts).callers| == |s.callers|
    ensures EarOf(After(s, acts).callers[k]) == Ear(pc, id, FirstReply(heard + acts, id))
  {
    if acts == [] {
      assert heard + acts == heard;
    } else {
      var init, last := acts[..|acts| - 1], acts[|acts| - 1];
      ListenerHearsFirst(s, heard, init, k, id, pc);
      RunKeepsInv(s, init);
      OneMoreAction(After(s, init), last, k);
      FirstReplyAdds(heard, acts, id, pc);
      OthersKeepSize(After(s, init), last);
    }
  }

  lemma OthersKeepSize(s: State, a: Action)
    ensures |Do(s, a).callers| == |s.callers|
  {}

  /** With unique ids a poll finds the reply or, past the deadline, nothing. */
  lemma PollFindsReplyOrNothing(s: State, k: nat)
    requires Inv(s) && k < |s.callers| && s.callers[k].pc == Waiting
    ensures PollResult(s.callers[k])
            == match EarOf(s.callers[k]).held
               case Some(msg) => Returned(Ok(msg))
               case None => Expired
  {
    assert CallerExplained(s, k);
  }

  lemma {:induction false} OthersLeavePc(s: State, acts: seq<Action>, k: nat)
    requires k < |s.callers| && NoneOwn(acts, k)
    ensures k < |After(s, acts).callers| == |s.callers| && After(s, acts).callers[k].pc == s.callers[k].pc
    ensures After(s, acts).callers[k].id == s.callers[k].id
  {
    if acts != [] {
      OthersLeavePc(s, acts[..|acts| - 1], k);
      StepRespectsOutcomes(After(s, acts[..|acts| - 1]), acts[|acts| - 1], k);
    }
  }

  // ---- where the promise does not reach ----

  /** A failed enqueue returns before the counters: its outcome is an error, but
      neither counter moves. */
  lemma SendFailedIsNotCounted(s: State, k: nat)
    requires Enabled(s, CleanUp(k)) && s.callers[k].pc == EnqueueFailed
    ensures var s' := Step(s, CleanUp(k));
            && s'.callers[k].pc == Returned(Err(SendFailed))
            && s'.dropped == s.dropped && s'.timedOut == s.timedOut
  {}

  /** Two callers share `id`; the first still waits and the second has just been enqueued. */
  function BothWaiting(id: Id): State {
    State([Caller(id, Waiting, SenderGone), Caller(id, Waiting, Open)], map[id := 1], Queue(2, 2, false), 0, 0, 0)
  }

  function BothLost(id: Id): State {
    var lost := Caller(id, Returned(Err(ChannelDropped)), SenderGone);
    State([lost, lost], map[], Queue(2, 2, false), 0, 0, 2)
  }

  function FourSteps(s: State, a: Action, b: Action, c: Action, d: Action): State {
    Do(Do(Do(Do(s, a), b), c), d)
  }

  /** The second registration closes the first caller's channel. */
  lemma {:induction false} SecondRegistrationClosesFirst(id: Id)
    ensures var c := Caller(id, Start, Open);
            var acts := [Register(0), Enqueue(0), Register(1), Enqueue(1)];
            After(State([c, c], map[], Queue(2, 0, false), 0, 0, 0), acts) == BothWaiting(id)
  {
    var c := Caller(id, Start, Open);
    assert FourSteps(State([c, c], map[], Queue(2, 0, false), 0, 0, 0), Register(0), Enqueue(0), Register(1), Enqueue(1))
        == BothWaiting(id);
    AfterFour(State([c, c], map[], Queue(2, 0, false), 0, 0, 0), Register(0), Enqueue(0), Register(1), Enqueue(1));
  }

  /** The first caller's clean-up removes the second caller's sender. */
  lemma {:induction false} FirstCleanUpClosesSecond(id: Id)
    ensures After(BothWaiting(id), [Poll(0, false), CleanUp(0), Poll(1, false), CleanUp(1)]) == BothLost(id)
  {
    assert FourSteps(BothWaiting(id), Poll(0, false), CleanUp(0), Poll(1, false), CleanUp(1)) == BothLost(id);
    AfterFour(BothWaiting(id), Poll(0, false), CleanUp(0), Poll(1, false), CleanUp(1));
  }

  /** Two callers under one id take each other down, with no deadline passed and no
      reply sent. */
  lemma {:induction false} SharedIdLosesBoth(id: Id) returns (s: State, acts: seq<Action>)
    ensures Fresh(s) && |s.callers| == 2
    ensures After(s, acts) == BothLost(id)
    ensures forall a :: a in acts ==> !a.Reply? && (a.Poll? ==> !a.deadlinePassed)
  {
    s := State([Caller(id, Start, Open), Caller(id, Start, Open)], map[], Queue(2, 0, false), 0, 0, 0);
    var first := [Register(0), Enqueue(0), Register(1), Enqueue(1)];
    var second := [Poll(0, false), CleanUp(0), Poll(1, false), CleanUp(1)];
    acts := first + second;
    SecondRegistrationClosesFirst(id);
    FirstCleanUpClosesSecond(id);
    AfterConcat(s, first, second);
  }

  lemma {:induction false} AfterFour(s: State, a: Action, b: Action, c: Action, d: Action)
    ensures After(s, [a, b, c, d]) == FourSteps(s, a, b, c, d)
  {
    var acts := [a, b, c, d];
    AfterTake(s, acts, 0);
    AfterTake(s, acts, 1);
    AfterTake(s, acts, 2);
    AfterTake(s, acts, 3);
    assert acts[..4] == acts;
  }

  lemma {:induction false} AfterTake(s: State, acts: seq<Action>, i: nat)
    requires i < |acts|
    ensures After(s, acts[..i + 1]) == Do(After(s, acts[..i]), acts[i])
  {
    assert acts[..i + 1][..i] == acts[..i];
  }

  lemma {:induction false} AfterConcat(s: State, a: seq<Action>, b: seq<Action>)
    ensures After(s, a + b) == After(After(s, a), b)
  {
    if b == [] {
      assert a + b == a;
    } else {
      AfterConcat(s, a, b[..|b| - 1]);
      assert (a + b)[..|a + b| - 1] == a + b[..|b| - 1];
    }
  }

  // ---- the object ----

  /** `FirstReply` up to the moment the caller polls decides the outcome. */
  function Expected(id: Id, delivered: bool, heard: seq<Action>): Outcome {
    if !delivered then Err(SendFailed)
    else
      match FirstReply(heard, id)
      case Some(msg) => Ok(msg)
      case None => Err(Timeout)
  }

  class WebBridge {
    var callers: seq<Caller>
    var responses: map<Id, nat>
    var queue: Queue
    var replies: nat
    var timedOut: nat
    var dropped: nat

    ghost function View(): State
      reads this
    {
      State(callers, responses, queue, replies, timedOut, dropped)
    }

    constructor (callers: seq<Caller>, buffer: nat)
      ensures View() == State(callers, map[], Queue(buffer, 0, false), 0, 0, 0)
    {
      this.callers, responses, queue := callers, map[], Queue(buffer, 0, false);
      replies, timedOut, dropped := 0, 0, 0;
    }

    /** `responses.remove(&id)` where the removed sender is dropped. */
    method Forget(id: Id)
      modifies this`callers, this`responses
      ensures View() == DropSender(old(View()), id)
    {
      if id in responses && responses[id] < |callers| {
        var k := responses[id];
        if callers[k].slot == Open {
          callers := callers[k := callers[k].(slot := SenderGone)];
        }
      }
      responses := responses - {id};
    }

    /** `send` and `deliver_response`: hand the reply to whoever registered its id. */
    method Send(msg: Message)
      modifies this`callers, this`responses, this`replies
      ensures View() == Step(old(View()), Reply(msg))
    {
      if msg.id in responses && responses[msg.id] < |callers| {
        var k := responses[msg.id];
        var c := callers[k];
        if c.slot == Open {
          var heard := if Listening(c.pc) then Filled(msg, replies) else SenderGone;
          callers := callers[k := c.(slot := heard)];
        }
      }
      responses := responses - {msg.id};
      replies := replies + 1;
    }

    method MoveTo(k: nat, pc: Pc)
      requires k < |callers|
      modifies this`callers
      ensures View() == SetPc(old(View()), k, pc)
    {
      callers := callers[k := callers[k].(pc := pc)];
    }

    method RegisterHandler(k: nat)
      requires Enabled(View(), Register(k))
      modifies this`callers, this`responses
      ensures View() == Step(old(View()), Register(k))
    {
      var id := callers[k].id;
      Forget(id);
      responses := responses[id := k];
      MoveTo(k, Registered);
    }

    method Finish(k: nat)
      requires Enabled(View(), CleanUp(k))
      modifies this`callers, this`responses, this`timedOut, this`dropped
      ensures View() == Step(old(View()), CleanUp(k))
    {
      var pc := callers[k].pc;
      Forget(callers[k].id);
      if pc == GaveUp {
        dropped := dropped + 1;
      } else if pc == Expired {
        timedOut := timedOut + 1;
      }
      MoveTo(k, Returned(Err(CleanUpError(pc))));
    }

    method Perform(a: Action)
      modifies this
      ensures View() == Do(old(View()), a)
    {
      match a
      case Register(k) =>
        if k < |callers| && callers[k].pc == Start { RegisterHandler(k); }
      case Enqueue(k) =>
        if k < |callers| && callers[k].pc == Registered && SendCompletes(queue) {
          Push(k);
        }
      case CleanUp(k) =>
        if k < |callers| && (callers[k].pc == EnqueueFailed || callers[k].pc == GaveUp || callers[k].pc == Expired) {
          Finish(k);
        }
      case Poll(k, passed) =>
        if k < |callers| && callers[k].pc == Waiting && (callers[k].slot == Open ==> passed) {
          MoveTo(k, PollResult(callers[k]));
        }
      case Reply(msg) => Send(msg);
      case OtherSend =>
        if !queue.closed && queue.queued < queue.capacity {
          queue := queue.(queued := queue.queued + 1);
        }
      case Drain =>
        if !queue.closed && queue.queued > 0 {
          queue := queue.(queued := queue.queued - 1);
        }
      case Close => queue := queue.(closed := true);
    }

    /** `incoming_tx.send(msg).await` completing. */
    method Push(k: nat)
      requires Enabled(View(), Enqueue(k))
      modifies this`callers, this`queue
      ensures View() == Step(old(View()), Enqueue(k))
    {
      if queue.closed {
        MoveTo(k, EnqueueFailed);
      } else {
        queue := queue.(queued := queue.queued + 1);
        MoveTo(k, Waiting);
      }
    }

    /** What the rest of the process does while a caller is suspended. */
    method Interleave(acts: seq<Action>)
      modifies this
      ensures View() == After(old(View()), acts)
    {
      for i := 0 to |acts|
        invariant View() == After(old(View()), acts[..i])
      {
        assert acts[..i + 1][..i] == acts[..i];
        Perform(acts[i]);
      }
      assert acts[..|acts|] == acts;
    }

    /** Caller `k` is suspended while the rest of the process runs `acts`. */
    method Suspend(k: nat, ghost heard: seq<Action>, acts: seq<Action>, id: Id, pc: Pc)
      requires Inv(View()) && k < |callers| && NoneOwn(acts, k) && Listening(pc)
      requires EarOf(callers[k]) == Ear(pc, id, FirstReply(heard, id))
      modifies this
      ensures View() == After(old(View()), acts) && Inv(View()) && k < |callers|
      ensures EarOf(callers[k]) == Ear(pc, id, FirstReply(heard + acts, id))
    {
      ListenerHearsFirst(View(), heard, acts, k, id, pc);
      RunKeepsInv(View(), acts);
      Interleave(acts);
    }

    /** Register, and be suspended in the send until it completes, if it does. */
    method Submit(k: nat, before: seq<Action>) returns (completed: bool)
      requires Inv(View()) && k < |callers| && callers[k].pc == Start && NoneOwn(before, k)
      modifies this
      ensures Inv(View()) && k < |callers|
      ensures var q := After(Step(old(View()), Register(k)), before).queue;
              && completed == SendCompletes(q)
              && EarOf(callers[k]) == Ear(if !completed then Registered else if q.closed then EnqueueFailed else Waiting,
                                          old(callers[k].id), FirstReply(before, old(callers[k].id)))
              && (!completed ==> Blocked(View(), k))
    {
      var id := callers[k].id;
      RegisterKeepsSlot(View(), k);
      StepKeepsInv(View(), Register(k));
      RegisterHandler(k);
      Suspend(k, [], before, id, Registered);
      assert [] + before == before;
      completed := SendCompletes(queue);
      if completed {
        StepKeepsInv(View(), Enqueue(k));
        Push(k);
      }
    }

    /** Caller `k` reports an error once it gets hold of the lock again. */
    method Abandon(k: nat, acts: seq<Action>)
      requires Inv(View()) && Enabled(View(), CleanUp(k)) && NoneOwn(acts, k)
      modifies this
      ensures Inv(View()) && k < |callers| && callers[k].id == old(callers[k].id)
      ensures callers[k].pc == Returned(Err(CleanUpError(old(callers[k].pc))))
    {
      OthersLeavePc(View(), acts, k);
      RunKeepsInv(View(), acts);
      Interleave(acts);
      StepKeepsInv(View(), CleanUp(k));
      CleanUpIsLocal(View(), k);
      Finish(k);
    }

    /** `send_and_wait_with_timeout` of caller `k`, suspended at each lock and await while
        the rest of the process runs; `before` lasts until its send completes or forever.
        If the queue is then full and the receiver alive, the caller has not returned.
        Otherwise the outcome is the first reply under its id heard before the poll, and
        the timeout without one, or the send error once the receiver is gone, whatever
        anybody else does. */
    method SendAndWait(k: nat, before: seq<Action>, during: seq<Action>, after: seq<Action>)
      returns (outcome: Option<Outcome>)
      requires Inv(View()) && k < |callers| && callers[k].pc == Start
      requires NoneOwn(before, k) && NoneOwn(during, k) && NoneOwn(after, k)
      modifies this
      ensures Inv(View()) && k < |callers| && callers[k].id == old(callers[k].id)
      ensures var q := After(Step(old(View()), Register(k)), before).queue;
              outcome == if SendCompletes(q) then Some(Expected(old(callers[k].id), !q.closed, before + during)) else None
      ensures outcome.None? ==> Blocked(View(), k)
      ensures outcome.Some? ==> callers[k].pc == Returned(outcome.value) && callers[k].id !in responses
    {
      var id := callers[k].id;
      var completed := Submit(k, before);
      if !completed {
        return None;
      }
      if callers[k].pc == Waiting {
        Suspend(k, before, during, id, Waiting);
        StepKeepsInv(View(), Poll(k, true));
        PollFindsReplyOrNothing(View(), k);
        MoveTo(k, PollResult(callers[k]));
      }
      if !callers[k].pc.Returned? {
        Abandon(k, after);
      }
      OwnEntry(View(), k);
      outcome := Some(callers[k].pc.outcome);
    }
  }
}
