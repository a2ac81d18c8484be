/** Knowledge auto-commit of src/kernel.rs over the note operations of
    crates/oxios-markdown/src/knowledge.rs: the vault on disk, the change events on
    their way to the consumer, and the HEAD of the vault's repository. */
module KnowledgeGit {
  import opened Options

  type Name = string
  type Content = string
  type Snapshot = map<Name, Content>

  datatype FileChange =
    | Created(path: Name)
    | Updated(path: Name)
    | Deleted(path: Name)
    | Moved(old_: Name, new_: Name)

  /** What the callback sends: the path argument it was called with, and the change. */
  datatype Note = Note(path: Name, change: FileChange)

  function At(s: Snapshot, p: Name): Option<Content> {
    if p in s then Some(s[p]) else None
  }

  // ---- the abstract repository ----

  /** `commit_file`: record the file as it is on disk now; fails when it is not there. */
  function CommitFile(head: Snapshot, disk: Snapshot, p: Name): Snapshot {
    if p in disk then head[p := disk[p]] else head
  }

  function RemoveFile(head: Snapshot, p: Name): Snapshot {
    head - {p}
  }

  /** One round of the consumer. */
  function Consume(head: Snapshot, disk: Snapshot, n: Note): Snapshot {
    match n.change
    case Deleted(_) => RemoveFile(head, n.path)
    case Moved(old_, _) => CommitFile(RemoveFile(head, old_), disk, n.path)
    case _ => CommitFile(head, disk, n.path)
  }

  /** `note_move` announces a rename under the old name, every other change under its own. */
  predicate WellAddressed(n: Note) {
    match n.change
    case Moved(old_, _) => n.path == old_
    case change => n.path == change.path
  }

  // ---- the system ----

  /** `quiet` holds the names whose last change on disk announced nothing for them: the
      target of a rename, notes whose links a rename rewrote, restored notes, and files
      written or deleted from outside that the watcher has not reported yet. */
  datatype System = System(disk: Snapshot, head: Snapshot, pending: seq<Note>, quiet: set<Name>)

  datatype Action =
    | NoteWrite(path: Name, content: Content)
    | NoteDelete(path: Name)
    | NoteMove(old_: Name, new_: Name, content: Content)
    | QuietWrite(path: Name, content: Content)
    | QuietDelete(path: Name)
    | WatcherEcho(path: Name)
    | ConsumerTakes(index: nat)

  predicate Enabled(s: System, a: Action) {
    match a
    case NoteDelete(p) => p in s.disk
    case NoteMove(old_, _, _) => old_ in s.disk
    case QuietDelete(p) => p in s.disk
    case ConsumerTakes(i) => i < |s.pending|
    case _ => true
  }

  function Emit(s: System, n: Note): System {
    s.(pending := s.pending + [n], quiet := s.quiet - {n.path})
  }

  function Step(s: System, a: Action): System
    requires Enabled(s, a)
  {
    match a
    case NoteWrite(p, c) =>
      Emit(s.(disk := s.disk[p := c]), Note(p, if p in s.disk then Updated(p) else Created(p)))
    case NoteDelete(p) =>
      Emit(s.(disk := s.disk - {p}), Note(p, Deleted(p)))
    case NoteMove(old_, new_, c) =>
      Emit(s.(disk := (s.disk - {old_})[new_ := c], quiet := s.quiet + {new_}), Note(old_, Moved(old_, new_)))
    case QuietWrite(p, c) =>
      s.(disk := s.disk[p := c], quiet := s.quiet + {p})
    case QuietDelete(p) =>
      s.(disk := s.disk - {p}, quiet := s.quiet + {p})
    case WatcherEcho(p) =>
      Emit(s, Note(p, if p in s.disk then Updated(p) else Deleted(p)))
    case ConsumerTakes(i) =>
      s.(head := Consume(s.head, s.disk, s.pending[i]), pending := s.pending[..i] + s.pending[i + 1..])
  }

  ghost predicate IsStep(ss: seq<System>, acts: seq<Action>, i: nat)
    requires i < |acts| < |ss|
  {
    Enabled(ss[i], acts[i]) && ss[i + 1] == Step(ss[i], acts[i])
  }

  ghost predicate IsRun(ss: seq<System>, acts: seq<Action>) {
    |ss| == |acts| + 1 && forall i: nat :: i < |acts| ==> IsStep(ss, acts, i)
  }

  /** HEAD and vault agree and nothing is on its way. */
  predicate Settled(s: System) {
    s.head == s.disk && s.pending == [] && s.quiet == {}
  }

  /** The event for `p` the consumer handled last. */
  function LastHandled(ss: seq<System>, acts: seq<Action>, k: nat, p: Name): Option<Note>
    requires IsRun(ss, acts) && k <= |acts|
  {
    if k == 0 then None
    else
      assert IsStep(ss, acts, k - 1);
      if acts[k - 1].ConsumerTakes? && ss[k - 1].pending[acts[k - 1].index].path == p
      then Some(ss[k - 1].pending[acts[k - 1].index])
      else LastHandled(ss, acts, k - 1, p)
  }

  predicate Agrees(s: System, p: Name) {
    At(s.head, p) == At(s.disk, p)
  }

  /** Vault and HEAD hold under `p` what they held in `s0`. */
  predicate Untouched(s0: System, s: System, p: Name) {
    At(s.head, p) == At(s0.head, p) && At(s.disk, p) == At(s0.disk, p)
  }

  /** Handling `n` would bring HEAD in line for a name that is, or is not, on disk. */
  predicate BringsInLine(n: Note, onDisk: bool) {
    (n.change.Deleted? ==> !onDisk) && (n.change.Created? || n.change.Updated? ==> onDisk)
  }

  predicate AllAddressed(s: System) {
    forall n :: n in s.pending ==> WellAddressed(n)
  }

  lemma StepKeepsAddresses(s: System, a: Action)
    requires Enabled(s, a) && AllAddressed(s)
    ensures AllAddressed(Step(s, a))
  {}

  // ---- in-order delivery ----

  /** The blocking-send branch: events reach the consumer in the order they were sent. */
  ghost predicate InOrder(acts: seq<Action>) {
    forall i :: 0 <= i < |acts| && acts[i].ConsumerTakes? ==> acts[i].index == 0
  }

  function LastMention(pending: seq<Note>, p: Name): (last: Option<Note>)
    ensures last.Some? ==> last.value.path == p && last.value in pending
  {
    if pending == [] then None
    else if pending[|pending| - 1].path == p then Some(pending[|pending| - 1])
    else LastMention(pending[..|pending| - 1], p)
  }

  /** The last event on its way for `p` would bring HEAD in line; with none on its way,
      HEAD agrees if any was handled since `s0`, and nothing happened to `p` if none was. */
  predicate Tracked(s0: System, s: System, p: Name, last: Option<Note>) {
    p in s.quiet || TrackedBy(s0, s, p, last, LastMention(s.pending, p))
  }

  predicate TrackedBy(s0: System, s: System, p: Name, last: Option<Note>, mention: Option<Note>) {
    match mention
    case Some(n) => BringsInLine(n, p in s.disk)
    case None => if last.Some? then Agrees(s, p) else Untouched(s0, s, p)
  }

  lemma {:induction false} LastMentionOfTail(pending: seq<Note>, p: Name)
    requires pending != []
    ensures LastMention(pending[1..], p).Some? ==> LastMention(pending, p) == LastMention(pending[1..], p)
    ensures LastMention(pending[1..], p).None? && pending[0].path == p ==> LastMention(pending, p) == Some(pending[0])
    ensures pending[0].path != p ==> LastMention(pending, p) == LastMention(pending[1..], p)
  {
    if |pending| > 1 {
      assert pending[1..][|pending| - 2] == pending[|pending| - 1];
      assert pending[1..][..|pending| - 2] == pending[..|pending| - 1][1..];
      LastMentionOfTail(pending[..|pending| - 1], p);
    }
  }

  lemma {:induction false} NoMentionHolds(pending: seq<Note>, p: Name)
    ensures LastMention(pending, p).None? ==> forall n :: n in pending ==> n.path != p
  {
    if pending != [] {
      NoMentionHolds(pending[..|pending| - 1], p);
      assert pending == pending[..|pending| - 1] + [pending[|pending| - 1]];
    }
  }

  lemma LastMentionAppend(pending: seq<Note>, n: Note, p: Name)
    ensures LastMention(pending + [n], p) == if n.path == p then Some(n) else LastMention(pending, p)
  {
    assert (pending + [n])[..|pending|] == pending;
  }

  /** What a change on disk or an echo does to one name: it announces it, leaves it
      quiet, or does not concern it. */
  predicate Announces(s: System, s': System, p: Name) {
    && |s'.pending| == |s.pending| + 1 && s'.pending == s.pending + [s'.pending[|s.pending|]]
    && s'.pending[|s.pending|].path == p && BringsInLine(s'.pending[|s.pending|], p in s'.disk)
  }

  predicate Spares(s: System, s': System, p: Name) {
    && At(s'.disk, p) == At(s.disk, p) && (p in s.quiet ==> p in s'.quiet)
    && (s'.pending == s.pending
        || (|s'.pending| == |s.pending| + 1 && s'.pending == s.pending + [s'.pending[|s.pending|]]
            && s'.pending[|s.pending|].path != p))
  }

  lemma ChangeOnOneName(s: System, a: Action, p: Name)
    requires Enabled(s, a) && !a.ConsumerTakes?
    ensures var s' := Step(s, a);
            s'.head == s.head && (Announces(s, s', p) || p in s'.quiet || Spares(s, s', p))
  {}

  lemma ChangeKeepsTracked(s0: System, s: System, s': System, p: Name, last: Option<Note>)
    requires s'.head == s.head && (Announces(s, s', p) || p in s'.quiet || Spares(s, s', p))
    requires Tracked(s0, s, p, last)
    ensures Tracked(s0, s', p, last)
  {
    if p !in s'.quiet && s'.pending != s.pending {
      LastMentionAppend(s.pending, s'.pending[|s.pending|], p);
    }
  }

  lemma FrontKeepsTracked(s0: System, s: System, p: Name, last: Option<Note>)
    requires s.pending != [] && AllAddressed(s) && Tracked(s0, s, p, last)
    ensures Tracked(s0, Step(s, ConsumerTakes(0)), p, if s.pending[0].path == p then Some(s.pending[0]) else last)
  {
    var n := s.pending[0];
    LastMentionOfTail(s.pending, p);
    assert s.pending[..0] + s.pending[1..] == s.pending[1..];
    assert n in s.pending;
    ConsumeOnOneName(s.head, s.disk, n, p);
  }

  /** Handling an event leaves other names alone, and its own in line unless the event
      is out of date. */
  lemma ConsumeOnOneName(head: Snapshot, disk: Snapshot, n: Note, p: Name)
    requires WellAddressed(n)
    ensures var head' := Consume(head, disk, n);
            if n.path != p then At(head', p) == At(head, p)
            else if n.change.Deleted? then p !in head'
            else if n.change.Moved? || p in disk then At(head', p) == At(disk, p)
            else At(head', p) == At(head, p)
  {}

  lemma {:induction false} RunTracks(ss: seq<System>, acts: seq<Action>, k: nat, p: Name)
    requires IsRun(ss, acts) && ss[0].pending == [] && InOrder(acts) && k <= |acts|
    ensures AllAddressed(ss[k]) && Tracked(ss[0], ss[k], p, LastHandled(ss, acts, k, p))
  {
    if k > 0 {
      var last := LastHandled(ss, acts, k - 1, p);
      RunTracks(ss, acts, k - 1, p);
      assert IsStep(ss, acts, k - 1);
      StepKeepsAddresses(ss[k - 1], acts[k - 1]);
      if acts[k - 1].ConsumerTakes? {
        FrontKeepsTracked(ss[0], ss[k - 1], p, last);
      } else {
        ChangeOnOneName(ss[k - 1], acts[k - 1], p);
        ChangeKeepsTracked(ss[0], ss[k - 1], ss[k], p, last);
      }
    }
  }

  /** In-order delivery, from any vault and any HEAD: where no event for a name is on its
      way and its last change was announced, HEAD agrees with the vault on that name if
      and only if it did at the start or some event for it has been handled. */
  lemma HeadAgreesOffTheQueue(ss: seq<System>, acts: seq<Action>, k: nat, p: Name)
    requires IsRun(ss, acts) && ss[0].pending == [] && InOrder(acts) && k <= |acts|
    requires p !in ss[k].quiet
    requires forall n :: n in ss[k].pending ==> n.path != p
    ensures Agrees(ss[k], p) <==> Agrees(ss[0], p) || LastHandled(ss, acts, k, p).Some?
  {
    RunTracks(ss, acts, k, p);
    NoMentionHolds(ss[k].pending, p);
  }

  /** An empty queue with every change announced means HEAD equals the vault. */
  lemma QuiescentHeadIsVault(ss: seq<System>, acts: seq<Action>, k: nat)
    requires IsRun(ss, acts) && Settled(ss[0]) && InOrder(acts) && k <= |acts|
    requires ss[k].pending == [] && ss[k].quiet == {}
    ensures Settled(ss[k])
  {
    forall p
      ensures At(ss[k].head, p) == At(ss[k].disk, p)
    {
      HeadAgreesOffTheQueue(ss, acts, k, p);
    }
    SameEverywhere(ss[k].head, ss[k].disk);
  }

  lemma SameEverywhere(a: Snapshot, b: Snapshot)
    requires forall p :: At(a, p) == At(b, p)
    ensures a == b
  {
    forall p
      ensures p in a <==> p in b
      ensures p in a ==> a[p] == b[p]
    {
      assert At(a, p) == At(b, p);
    }
  }

  // ---- renames ----

  /** From a settled vault a rename, once its event is handled, leaves HEAD without the
      old name and with whatever it held under the new one: HEAD is the vault again
      exactly if that happened to be the renamed note's content. */
  lemma RenameLeavesNewNameBehind(s: System, old_: Name, new_: Name, c: Content)
    requires Settled(s) && old_ in s.disk && old_ != new_
    ensures var s' := Step(Step(s, NoteMove(old_, new_, c)), ConsumerTakes(0));
            && s'.pending == [] && s'.quiet == {new_}
            && s'.head == s.head - {old_}
            && (s'.head == s'.disk <==> At(s.head, new_) == Some(c))
  {
    var moved := Step(s, NoteMove(old_, new_, c));
    assert moved.pending == [Note(old_, Moved(old_, new_))];
    var s' := Step(moved, ConsumerTakes(0));
    assert s'.disk == (s.disk - {old_})[new_ := c];
    assert s'.head == s.head - {old_};
    if At(s.head, new_) == Some(c) {
      assert s'.head == s'.disk;
    } else {
      assert At(s'.head, new_) != At(s'.disk, new_);
    }
  }

  /** The vault watcher sees the file under its new name and announces it; once that
      event is handled too, the vault is settled. */
  lemma WatcherSettlesTheRename(s: System, old_: Name, new_: Name, c: Content)
    requires Settled(s) && old_ in s.disk && old_ != new_
    ensures var s' := Step(Step(s, NoteMove(old_, new_, c)), ConsumerTakes(0));
            Settled(Step(Step(s', WatcherEcho(new_)), ConsumerTakes(0)))
  {
    RenameLeavesNewNameBehind(s, old_, new_, c);
    var s' := Step(Step(s, NoteMove(old_, new_, c)), ConsumerTakes(0));
    assert Step(s, NoteMove(old_, new_, c)).pending == [Note(old_, Moved(old_, new_))];
    assert s'.disk == (s.disk - {old_})[new_ := c];
    var echoed := Step(s', WatcherEcho(new_));
    assert echoed.pending == [Note(new_, Updated(new_))];
    var t := Step(echoed, ConsumerTakes(0));
    assert t.head == (s.head - {old_})[new_ := c] && t.pending == [];
  }

  // ---- delivery in any order ----

  predicate EndedInDelete(last: Option<Note>) {
    last.Some? && last.value.change.Deleted?
  }

  /** A straggler is an event on its way for `p` that would bring HEAD in line. */
  predicate Straggler(s: System, p: Name) {
    exists n :: n in s.pending && n.path == p && BringsInLine(n, p in s.disk)
  }

  predicate Explained(s0: System, s: System, p: Name, last: Option<Note>) {
    || p in s.quiet
    || Straggler(s, p)
    || (if last.None? then Untouched(s0, s, p) && forall n :: n in s.pending ==> n.path != p
        else if p in s.disk && EndedInDelete(last) then p !in s.head
        else Agrees(s, p))
  }

  lemma ChangeKeepsExplained(s0: System, s: System, a: Action, p: Name, last: Option<Note>)
    requires Enabled(s, a) && !a.ConsumerTakes? && Explained(s0, s, p, last)
    ensures Explained(s0, Step(s, a), p, last)
  {
    var s' := Step(s, a);
    ChangeOnOneName(s, a, p);
    if Announces(s, s', p) {
      assert s'.pending[|s.pending|] in s'.pending;
    } else if p !in s'.quiet && Straggler(s, p) {
      var n :| n in s.pending && n.path == p && BringsInLine(n, p in s.disk);
      assert n in s'.pending;
    }
  }

  lemma TakeKeepsExplained(s0: System, s: System, i: nat, p: Name, last: Option<Note>)
    requires i < |s.pending| && AllAddressed(s) && Explained(s0, s, p, last)
    ensures var n := s.pending[i];
            Explained(s0, Step(s, ConsumerTakes(i)), p, if n.path == p then Some(n) else last)
  {
    var n := s.pending[i];
    var s' := Step(s, ConsumerTakes(i));
    assert n in s.pending;
    ConsumeOnOneName(s.head, s.disk, n, p);
    if p !in s.quiet && Straggler(s, p) {
      var w :| w in s.pending && w.path == p && BringsInLine(w, p in s.disk);
      if w != n {
        assert w in s'.pending;
      }
    }
  }

  lemma {:induction false} RunExplained(ss: seq<System>, acts: seq<Action>, k: nat, p: Name)
    requires IsRun(ss, acts) && ss[0].pending == [] && k <= |acts|
    ensures AllAddressed(ss[k]) && Explained(ss[0], ss[k], p, LastHandled(ss, acts, k, p))
  {
    if k > 0 {
      var last := LastHandled(ss, acts, k - 1, p);
      RunExplained(ss, acts, k - 1, p);
      assert IsStep(ss, acts, k - 1);
      StepKeepsAddresses(ss[k - 1], acts[k - 1]);
      if acts[k - 1].ConsumerTakes? {
        TakeKeepsExplained(ss[0], ss[k - 1], acts[k - 1].index, p, last);
      } else {
        ChangeKeepsExplained(ss[0], ss[k - 1], acts[k - 1], p, last);
      }
    }
  }

  /** One spawned task per event delivers in any order. From any vault and any HEAD, once
      the queue is empty, HEAD agrees on an announced name exactly when either nothing was
      handled for it and it agreed at the start, or something was, and not a deletion last
      of a name that is on disk. */
  lemma AnyOrderAgreement(ss: seq<System>, acts: seq<Action>, k: nat, p: Name)
    requires IsRun(ss, acts) && ss[0].pending == [] && k <= |acts|
    requires ss[k].pending == [] && p !in ss[k].quiet
    ensures var last := LastHandled(ss, acts, k, p);
            Agrees(ss[k], p) <==> if last.None? then Agrees(ss[0], p)
                                  else !(p in ss[k].disk && EndedInDelete(last))
  {
    RunExplained(ss, acts, k, p);
  }

  /** Nothing ever announced a deletion of `p`. */
  ghost predicate NeverDeleted(ss: seq<System>, acts: seq<Action>, k: nat, p: Name)
    requires k <= |acts| < |ss|
  {
    forall i :: 0 <= i < k ==> acts[i] != NoteDelete(p) && (acts[i] == WatcherEcho(p) ==> p in ss[i].disk)
  }

  lemma {:induction false} NoDeletionAnnounced(ss: seq<System>, acts: seq<Action>, k: nat, p: Name)
    requires IsRun(ss, acts) && ss[0].pending == [] && k <= |acts| && NeverDeleted(ss, acts, k, p)
    ensures forall n :: n in ss[k].pending && n.path == p ==> !n.change.Deleted?
    ensures !EndedInDelete(LastHandled(ss, acts, k, p))
  {
    if k > 0 {
      NoDeletionAnnounced(ss, acts, k - 1, p);
      assert IsStep(ss, acts, k - 1);
    }
  }

  /** Whatever the order of delivery, HEAD agrees at quiescence on every announced name
      whose deletion was never announced, if it did at the start or anything was handled. */
  lemma NeverDeletedAgrees(ss: seq<System>, acts: seq<Action>, k: nat, p: Name)
    requires IsRun(ss, acts) && ss[0].pending == [] && k <= |acts|
    requires ss[k].pending == [] && p !in ss[k].quiet && NeverDeleted(ss, acts, k, p)
    ensures Agrees(ss[k], p) <==> Agrees(ss[0], p) || LastHandled(ss, acts, k, p).Some?
  {
    NoDeletionAnnounced(ss, acts, k, p);
    AnyOrderAgreement(ss, acts, k, p);
  }

  /** The bad case happens: write, delete, write again, and the deletion arrives last. */
  lemma OvertakenDeletion(p: Name, c: Content) returns (ss: seq<System>, acts: seq<Action>)
    ensures IsRun(ss, acts) && Settled(ss[0])
    ensures ss[|acts|].pending == [] && ss[|acts|].quiet == {}
    ensures ss[|acts|].disk == map[p := c] && ss[|acts|].head == map[]
  {
    var s0 := System(map[p := c], map[p := c], [], {});
    acts := [NoteDelete(p), NoteWrite(p, c), ConsumerTakes(1), ConsumerTakes(0)];
    var s1 := Step(s0, acts[0]);
    var s2 := Step(s1, acts[1]);
    var s3 := Step(s2, acts[2]);
    assert s3.pending == [Note(p, Deleted(p))];
    var s4 := Step(s3, acts[3]);
    ss := [s0, s1, s2, s3, s4];
    forall i: nat | i < |acts|
      ensures IsStep(ss, acts, i)
    {
      assert i == 0 || i == 1 || i == 2 || i == 3;
    }
  }

  // ---- the imperative consumer and reconcile ----

  class AutoCommit {
    var disk: Snapshot
    var head: Snapshot
    const enabled: bool

    constructor (disk: Snapshot, head: Snapshot, enabled: bool)
      ensures this.disk == disk && this.head == head && this.enabled == enabled
    {
      this.disk, this.head, this.enabled := disk, head, enabled;
    }

    method GitCommitFile(p: Name) returns (ok: bool)
      modifies this`head
      ensures head == CommitFile(old(head), disk, p) && ok == (p in disk)
    {
      if p !in disk { return false; }
      head := head[p := disk[p]];
      return true;
    }

    method GitRemoveFile(p: Name)
      modifies this`head
      ensures head == RemoveFile(old(head), p)
    {
      head := head - {p};
    }

    /** The consumer task over the events it receives, in the order it receives them. */
    method Consumer(received: seq<Note>)
      modifies this`head
      ensures head == if enabled then ConsumeAll(old(head), disk, received) else old(head)
    {
      for i := 0 to |received|
        invariant head == if enabled then ConsumeAll(old(head), disk, received[..i]) else old(head)
      {
        assert received[..i + 1][..i] == received[..i];
        if !enabled { continue; }
        match received[i].change
        case Deleted(_) =>
          GitRemoveFile(received[i].path);
        case Moved(old_, _) =>
          GitRemoveFile(old_);
          var _ := GitCommitFile(received[i].path);
        case _ =>
          var _ := GitCommitFile(received[i].path);
      }
      assert received[..|received|] == received;
    }

    /** Post-crash reconcile: commit every listed file, whatever HEAD held. */
    method Reconcile(files: seq<Name>)
      requires forall p :: p in files <==> p in disk
      modifies this`head
      ensures enabled ==> head == old(head) + disk
      ensures !enabled ==> head == old(head)
    {
      if !enabled { return; }
      for i := 0 to |files|
        invariant head.Keys == old(head).Keys + set p | p in files[..i]
        invariant forall p :: p in head ==> head[p] == if p in files[..i] then disk[p] else old(head)[p]
      {
        assert files[..i + 1] == files[..i] + [files[i]];
        var _ := GitCommitFile(files[i]);
      }
      assert files[..|files|] == files;
    }
  }

  function ConsumeAll(head: Snapshot, disk: Snapshot, notes: seq<Note>): Snapshot {
    if notes == [] then head
    else Consume(ConsumeAll(head, disk, notes[..|notes| - 1]), disk, notes[|notes| - 1])
  }

  /** Reconcile brings every file on disk back into HEAD from any crash state, but it
      forgets nothing: HEAD equals the vault exactly when no committed file is gone. */
  lemma ReconcileRepairsFilesNotDeletions(head: Snapshot, disk: Snapshot)
    ensures forall p :: p in disk ==> At(head + disk, p) == At(disk, p)
    ensures head + disk == disk <==> head.Keys <= disk.Keys
  {}

  /** A restart after a crash: the queue is lost, and reconcile has run. */
  function Restarted(disk: Snapshot, head: Snapshot): System {
    System(disk, head + disk, [], {})
  }

  /** Reconcile and the runs after it, from any crash state: where no event for a name is
      on its way and its last change was announced, HEAD agrees unless a committed file was
      gone at the restart and no event for it has been handled since. */
  lemma AgreementAfterRestart(disk: Snapshot, head: Snapshot, ss: seq<System>, acts: seq<Action>, k: nat, p: Name)
    requires IsRun(ss, acts) && ss[0] == Restarted(disk, head) && InOrder(acts) && k <= |acts|
    requires p !in ss[k].quiet
    requires forall n :: n in ss[k].pending ==> n.path != p
    ensures Agrees(ss[k], p) <==> p in disk || p !in head || LastHandled(ss, acts, k, p).Some?
  {
    HeadAgreesOffTheQueue(ss, acts, k, p);
  }

  /** Handling a whole queue in order against a vault that no longer changes gives the
      same HEAD as taking the events one by one. */
  lemma {:induction false} DrainIsConsumeAll(s: System)
    returns (ss: seq<System>, acts: seq<Action>)
    ensures IsRun(ss, acts) && InOrder(acts) && ss[0] == s
    ensures ss[|acts|] == s.(head := ConsumeAll(s.head, s.disk, s.pending), pending := [])
    decreases |s.pending|
  {
    if s.pending == [] {
      return [s], [];
    }
    var a := ConsumerTakes(0);
    var next := Step(s, a);
    assert next.pending == s.pending[1..];
    var tail, more := DrainIsConsumeAll(next);
    ss, acts := [s] + tail, [a] + more;
    RunPrepends(s, a, tail, more);
    ConsumeFront(s.head, s.disk, s.pending);
  }

  lemma RunPrepends(s: System, a: Action, ss: seq<System>, acts: seq<Action>)
    requires IsRun(ss, acts) && Enabled(s, a) && ss[0] == Step(s, a)
    ensures IsRun([s] + ss, [a] + acts)
  {
    var ss', acts' := [s] + ss, [a] + acts;
    forall i: nat | i < |acts'|
      ensures IsStep(ss', acts', i)
    {
      assert i > 0 ==> IsStep(ss, acts, i - 1);
    }
  }

  lemma {:induction false} ConsumeFront(head: Snapshot, disk: Snapshot, notes: seq<Note>)
    requires notes != []
    ensures ConsumeAll(head, disk, notes) == ConsumeAll(Consume(head, disk, notes[0]), disk, notes[1..])
  {
    if |notes| > 1 {
      var init := notes[..|notes| - 1];
      ConsumeFront(head, disk, init);
      assert notes[1..][..|notes| - 2] == init[1..];
      assert notes[1..][|notes| - 2] == notes[|notes| - 1];
    } else {
      assert notes[..0] == [] && notes[1..] == [];
    }
  }
}
