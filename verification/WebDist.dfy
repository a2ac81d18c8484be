/** The web-dist sync of src/web_dist.rs and the active pointer of
    crates/oxios-gateway/src/active_web_dist.rs, one state per file-system or pointer
    step, for the daemon that serves and the command line that only writes to disk. */
module WebDist {
  import opened Options

  type Path = string

  /** What the checks see of a directory: whether it is self-consistent, and the version
      its `version.json` reports, empty when there is none. */
  datatype Dist = Dist(consistent: bool, stamp: string)

  const EMPTY_DIR := Dist(false, "")
  const GRACE: nat := 300

  datatype Removal = Removal(path: Path, due: nat)

  /** `pointer` is the directory the daemon serves, `marker` what a restart would read. */
  datatype Web = Web(
    embedded: bool,
    dirs: map<Path, Dist>,
    pointer: Option<Path>,
    marker: Option<Path>,
    now: nat,
    removals: seq<Removal>)

  /** How a download ended: `wiped` and `files` are the contents the staging directory
      went through while it was cleared and while the archive was written into it. */
  datatype Download =
    | NotFetched
    | WipeFailed(wiped: seq<Dist>)
    | Broken(wiped: seq<Dist>, files: seq<Dist>)
    | Complete(wiped: seq<Dist>, files: seq<Dist>)

  /** One sync: the tag the target resolved to, if any, and what the environment does. */
  datatype Call = Call(tag: Option<string>, download: Download, markerWritten: bool)

  datatype Prepared =
    | UpToDate(active: string, target: string)
    | Unstamped
    | Ready(tag: string, staging: Path)
    | Failed

  datatype SyncOutcome =
    | AlreadyThere(active: string, target: string)
    | LeftUnstamped
    | Updated(to: string)
    | SyncFailed

  function TrimV(tag: string): string {
    if tag != "" && tag[0] == 'v' then TrimV(tag[1..]) else tag
  }

  lemma TrimOneV(version: string)
    requires version != "" && version[0] != 'v'
    ensures TrimV("v" + version) == version
  {
    assert ("v" + version)[1..] == version;
  }

  /** Every leading `v` goes, and nothing else. */
  lemma {:induction false} TrimVDropsAll(tag: string) returns (k: nat)
    ensures k <= |tag| && TrimV(tag) == tag[k..] && (forall i :: 0 <= i < k ==> tag[i] == 'v')
    ensures TrimV(tag) != "" ==> TrimV(tag)[0] != 'v'
  {
    if tag != "" && tag[0] == 'v' {
      var j := TrimVDropsAll(tag[1..]);
      k := j + 1;
      assert tag[k..] == tag[1..][j..];
      assert forall i :: 1 <= i < k ==> tag[i] == tag[1..][i - 1];
    } else {
      k := 0;
    }
  }

  function StagingDir(version: string): Path {
    "dist-" + version
  }

  function DistAt(s: Web, p: Path): Dist {
    if p in s.dirs then s.dirs[p] else EMPTY_DIR
  }

  // ---- download_and_extract_web_dist ----

  function Wrote(s: Web, p: Path, d: Dist): Web {
    s.(dirs := s.dirs[p := d])
  }

  function Writes(s: Web, p: Path, ds: seq<Dist>): (tr: seq<Web>)
    ensures |tr| == |ds|
  {
    if ds == [] then [] else Writes(s, p, ds[..|ds| - 1]) + [Wrote(s, p, ds[|ds| - 1])]
  }

  /** Clearing what an earlier run left in the staging directory. */
  function WipeTrace(s: Web, p: Path, wiped: seq<Dist>): seq<Web> {
    if p in s.dirs then Writes(s, p, wiped) + [s.(dirs := s.dirs - {p})] else []
  }

  function DownloadTrace(s: Web, p: Path, download: Download): seq<Web> {
    match download
    case NotFetched => []
    case WipeFailed(wiped) => if p in s.dirs then Writes(s, p, wiped) else []
    case Broken(wiped, files) => WipeTrace(s, p, wiped) + Writes(s, p, [EMPTY_DIR] + files)
    case Complete(wiped, files) => WipeTrace(s, p, wiped) + Writes(s, p, [EMPTY_DIR] + files)
  }

  function Last(s: Web, tr: seq<Web>): Web {
    if tr == [] then s else tr[|tr| - 1]
  }

  // ---- prepare_sync ----

  /** The comparison that decides whether anything is downloaded. */
  function Compare(s: Web, active: Option<Path>, target: string): Option<Prepared> {
    var d := if active.Some? then DistAt(s, active.value) else EMPTY_DIR;
    if d.consistent && d.stamp != "" && d.stamp == target then Some(UpToDate(d.stamp, target))
    else if d.consistent && d.stamp == "" then Some(Unstamped)
    else None
  }

  function Prepare(s: Web, call: Call, active: Option<Path>): (Prepared, seq<Web>) {
    if call.tag.None? then (Failed, [])
    else
      var version := TrimV(call.tag.value);
      match Compare(s, active, version)
      case Some(answer) => (answer, [])
      case None =>
        var staging := StagingDir(version);
        var tr := DownloadTrace(s, staging, call.download);
        if call.download.Complete? && DistAt(Last(s, tr), staging).consistent
        then (Ready(call.tag.value, staging), tr)
        else (Failed, tr)
  }

  // ---- publish, sync and sync_to_disk ----

  function Swap(s: Web, p: Path): Web {
    s.(pointer := Some(p),
       removals := s.removals + if s.pointer.Some? then [Removal(s.pointer.value, s.now + GRACE)] else [])
  }

  function PersistMarker(s: Web, p: Path, written: bool): Web {
    if written then s.(marker := Some(p)) else s
  }

  /** `resolve`: the marker's directory, if it is self-consistent. */
  function Resolve(s: Web): Option<Path> {
    if s.marker.Some? && DistAt(s, s.marker.value).consistent then s.marker else None
  }

  function Report(p: Prepared): SyncOutcome {
    match p
    case UpToDate(active, target) => AlreadyThere(active, target)
    case Unstamped => LeftUnstamped
    case Ready(tag, _) => Updated(tag)
    case Failed => SyncFailed
  }

  function Sync(s: Web, call: Call): (SyncOutcome, seq<Web>) {
    if s.embedded then (AlreadyThere("embedded", "embedded"), [])
    else
      var (prepared, tr) := Prepare(s, call, s.pointer);
      if prepared.Ready? then
        var swapped := Swap(Last(s, tr), prepared.staging);
        (Report(prepared), tr + [swapped, PersistMarker(swapped, prepared.staging, call.markerWritten)])
      else (Report(prepared), tr)
  }

  function SyncToDisk(s: Web, call: Call): (SyncOutcome, seq<Web>) {
    if s.embedded then (AlreadyThere("embedded", "embedded"), [])
    else
      var (prepared, tr) := Prepare(s, call, Resolve(s));
      if prepared.Ready? then
        (Report(prepared), tr + [PersistMarker(Last(s, tr), prepared.staging, call.markerWritten)])
      else (Report(prepared), tr)
  }

  datatype Action =
    | DaemonSync(call: Call)
    | DiskSync(call: Call)
    | Wait(seconds: nat)
    | RunRemoval(index: nat)

  /** The states an action passes through. A removal runs once its grace period is over. */
  function Trace(s: Web, a: Action): seq<Web> {
    match a
    case DaemonSync(call) => Sync(s, call).1
    case DiskSync(call) => SyncToDisk(s, call).1
    case Wait(d) => [s.(now := s.now + d)]
    case RunRemoval(i) =>
      if i < |s.removals| && s.removals[i].due <= s.now then
        [s.(dirs := s.dirs - {s.removals[i].path}, removals := s.removals[..i] + s.removals[i + 1..])]
      else []
  }

  // ---- what a download may touch ----

  /** Only the directory `p` may differ. */
  predicate OnlyDir(s: Web, t: Web, p: Path) {
    t == s.(dirs := t.dirs) && t.dirs - {p} == s.dirs - {p}
  }

  ghost predicate AllOnlyDir(s: Web, tr: seq<Web>, p: Path) {
    forall i :: 0 <= i < |tr| ==> OnlyDir(s, tr[i], p)
  }

  lemma {:induction false} WritesAt(s: Web, p: Path, ds: seq<Dist>, i: nat)
    requires i < |ds|
    ensures Writes(s, p, ds)[i] == Wrote(s, p, ds[i])
  {
    if i < |ds| - 1 {
      WritesAt(s, p, ds[..|ds| - 1], i);
    }
  }

  lemma WritesTouchOneDir(s: Web, p: Path, ds: seq<Dist>)
    ensures AllOnlyDir(s, Writes(s, p, ds), p)
  {}

  lemma DownloadTouchesOneDir(s: Web, p: Path, download: Download)
    ensures AllOnlyDir(s, DownloadTrace(s, p, download), p)
    ensures OnlyDir(s, Last(s, DownloadTrace(s, p, download)), p)
  {
    if !download.NotFetched? {
      WritesTouchOneDir(s, p, download.wiped);
    }
    if download.Broken? || download.Complete? {
      WritesTouchOneDir(s, p, [EMPTY_DIR] + download.files);
      var wipe := WipeTrace(s, p, download.wiped);
      assert AllOnlyDir(s, wipe, p);
    }
  }

  lemma OtherDirsStay(s: Web, t: Web, p: Path, q: Path)
    requires OnlyDir(s, t, p) && q != p
    ensures DistAt(t, q) == DistAt(s, q)
  {
    assert q in s.dirs <==> q in s.dirs - {p};
    assert q in t.dirs <==> q in t.dirs - {p};
    if q in s.dirs {
      assert (s.dirs - {p})[q] == (t.dirs - {p})[q];
    }
  }

  // ---- the served dist ----

  /** The daemon serves a self-consistent directory. */
  predicate Serving(s: Web) {
    s.pointer.Some? && DistAt(s, s.pointer.value).consistent
  }

  ghost predicate AllServing(tr: seq<Web>) {
    forall i :: 0 <= i < |tr| ==> Serving(tr[i])
  }

  /** A stamp that is blank or names its own directory. */
  predicate SelfStamped(p: Path, d: Dist) {
    d.stamp == "" || StagingDir(d.stamp) == p
  }

  /** The download of `call` goes into directory `p`. */
  predicate DownloadsInto(s: Web, call: Call, active: Option<Path>, p: Path) {
    && !s.embedded && call.tag.Some?
    && Compare(s, active, TrimV(call.tag.value)).None?
    && StagingDir(TrimV(call.tag.value)) == p
  }

  /** What the download leaves in its directory at some moment is not self-consistent. */
  predicate Damages(download: Download) {
    match download
    case NotFetched => false
    case WipeFailed(wiped) => exists i :: 0 <= i < |wiped| && !wiped[i].consistent
    case _ => true
  }

  lemma EmptyDirShows(s: Web, p: Path, download: Download)
    requires download.Broken? || download.Complete?
    ensures exists i :: 0 <= i < |DownloadTrace(s, p, download)|
                        && DownloadTrace(s, p, download)[i] == Wrote(s, p, EMPTY_DIR)
  {
    var wipe := WipeTrace(s, p, download.wiped);
    var files := [EMPTY_DIR] + download.files;
    WritesAt(s, p, files, 0);
    assert DownloadTrace(s, p, download) == wipe + Writes(s, p, files);
    assert DownloadTrace(s, p, download)[|wipe|] == Writes(s, p, files)[0];
  }

  /** A download disturbs the served dist exactly when it goes into its directory and
      leaves it inconsistent at some moment. */
  lemma DownloadDisturbs(s: Web, p: Path, download: Download)
    requires Serving(s)
    ensures AllServing(DownloadTrace(s, p, download)) <==> !(s.pointer.value == p && Damages(download))
  {
    var q := s.pointer.value;
    var tr := DownloadTrace(s, p, download);
    DownloadTouchesOneDir(s, p, download);
    if q != p {
      forall i | 0 <= i < |tr|
        ensures Serving(tr[i])
      {
        OtherDirsStay(s, tr[i], p, q);
      }
    } else if download.Broken? || download.Complete? {
      EmptyDirShows(s, p, download);
      var i :| 0 <= i < |tr| && tr[i] == Wrote(s, p, EMPTY_DIR);
      assert !Serving(tr[i]);
    } else if download.WipeFailed? {
      forall i | 0 <= i < |download.wiped|
        ensures Serving(tr[i]) <==> download.wiped[i].consistent
      {
        WritesAt(s, p, download.wiped, i);
      }
    }
  }

  /** A daemon sync disturbs a consistent served dist exactly when its stamp is neither
      blank nor the target, yet its directory is the target's own. */
  lemma DaemonSyncDisturbs(s: Web, call: Call)
    requires Serving(s)
    ensures AllServing(Sync(s, call).1)
            <==> !(DownloadsInto(s, call, s.pointer, s.pointer.value) && Damages(call.download))
    ensures DownloadsInto(s, call, s.pointer, s.pointer.value) ==>
              !SelfStamped(s.pointer.value, DistAt(s, s.pointer.value))
  {
    if !s.embedded && call.tag.Some? && Compare(s, s.pointer, TrimV(call.tag.value)).None? {
      var p := StagingDir(TrimV(call.tag.value));
      var tr := DownloadTrace(s, p, call.download);
      DownloadDisturbs(s, p, call.download);
      StagingDirInjective(TrimV(call.tag.value), DistAt(s, s.pointer.value).stamp);
      if Prepare(s, call, s.pointer).0.Ready? {
        DownloadTouchesOneDir(s, p, call.download);
        PublishedServes(s, tr, p, call.markerWritten);
      }
    }
  }

  lemma StagingDirInjective(a: string, b: string)
    ensures StagingDir(a) == StagingDir(b) ==> a == b
  {
    assert StagingDir(a)[5..] == a && StagingDir(b)[5..] == b;
  }

  lemma PublishedServes(s: Web, tr: seq<Web>, p: Path, written: bool)
    requires DistAt(Last(s, tr), p).consistent
    ensures var swapped := Swap(Last(s, tr), p);
            AllServing(tr + [swapped, PersistMarker(swapped, p, written)]) <==> AllServing(tr)
  {
    var swapped := Swap(Last(s, tr), p);
    var tail := [swapped, PersistMarker(swapped, p, written)];
    assert Serving(tail[0]) && Serving(tail[1]);
    if AllServing(tr + tail) {
      forall i | 0 <= i < |tr|
        ensures Serving(tr[i])
      {
        assert (tr + tail)[i] == tr[i];
      }
    }
  }

  /** A command-line sync disturbs the dist a running daemon serves exactly when it
      downloads into its directory: it compares with what the marker resolves to. */
  lemma DiskSyncDisturbs(s: Web, call: Call)
    requires Serving(s)
    ensures AllServing(SyncToDisk(s, call).1)
            <==> !(DownloadsInto(s, call, Resolve(s), s.pointer.value) && Damages(call.download))
  {
    if !s.embedded && call.tag.Some? && Compare(s, Resolve(s), TrimV(call.tag.value)).None? {
      var p := StagingDir(TrimV(call.tag.value));
      var tr := DownloadTrace(s, p, call.download);
      DownloadDisturbs(s, p, call.download);
      DownloadTouchesOneDir(s, p, call.download);
      if Prepare(s, call, Resolve(s)).0.Ready? {
        var marked := PersistMarker(Last(s, tr), p, call.markerWritten);
        MarkedServes(s, tr, marked);
      }
    }
  }

  lemma MarkedServes(s: Web, tr: seq<Web>, marked: Web)
    requires Serving(s) && (marked == Last(s, tr) || marked == Last(s, tr).(marker := marked.marker))
    ensures AllServing(tr + [marked]) <==> AllServing(tr)
  {
    if AllServing(tr) {
      assert Serving(Last(s, tr));
    }
    if AllServing(tr + [marked]) {
      forall i | 0 <= i < |tr|
        ensures Serving(tr[i])
      {
        assert (tr + [marked])[i] == tr[i];
      }
    }
  }

  // ---- only checked dists are published ----

  /** Pointer and marker either stay or name the staging directory of a finished
      download that passed the check. */
  ghost predicate PublishesChecked(s: Web, t: Web, p: Path) {
    && (t.pointer == s.pointer || (t.pointer == Some(p) && DistAt(t, p).consistent))
    && (t.marker == s.marker || (t.marker == Some(p) && DistAt(t, p).consistent))
  }

  /** At every step of a sync, whatever is published has passed the check; an outcome other
      than `Updated` leaves pointer, marker and pending removals as they were throughout. */
  lemma SyncPublishesChecked(s: Web, call: Call)
    requires call.tag.Some?
    ensures var p := StagingDir(TrimV(call.tag.value));
            forall i :: 0 <= i < |Sync(s, call).1| ==> PublishesChecked(s, Sync(s, call).1[i], p)
    ensures Sync(s, call).0.Updated? ==> Last(s, Sync(s, call).1).pointer == Some(StagingDir(TrimV(call.tag.value)))
    ensures !Sync(s, call).0.Updated? ==>
              forall i :: 0 <= i < |Sync(s, call).1| ==>
                && Sync(s, call).1[i].pointer == s.pointer && Sync(s, call).1[i].marker == s.marker
                && Sync(s, call).1[i].removals == s.removals
  {
    DownloadTouchesOneDir(s, StagingDir(TrimV(call.tag.value)), call.download);
  }

  lemma DiskSyncPublishesChecked(s: Web, call: Call)
    requires call.tag.Some?
    ensures var p := StagingDir(TrimV(call.tag.value));
            forall i :: 0 <= i < |SyncToDisk(s, call).1| ==> PublishesChecked(s, SyncToDisk(s, call).1[i], p)
    ensures forall i :: 0 <= i < |SyncToDisk(s, call).1| ==>
              SyncToDisk(s, call).1[i].pointer == s.pointer && SyncToDisk(s, call).1[i].removals == s.removals
    ensures !SyncToDisk(s, call).0.Updated? ==>
              forall i :: 0 <= i < |SyncToDisk(s, call).1| ==> SyncToDisk(s, call).1[i].marker == s.marker
  {
    DownloadTouchesOneDir(s, StagingDir(TrimV(call.tag.value)), call.download);
  }

  // ---- when a sync goes through ----

  /** What a finished extraction leaves behind. */
  function Extracted(download: Download): Dist
    requires download.Complete?
  {
    if download.files == [] then EMPTY_DIR else download.files[|download.files| - 1]
  }

  lemma CompleteLeaves(s: Web, p: Path, download: Download)
    requires download.Complete?
    ensures DistAt(Last(s, DownloadTrace(s, p, download)), p) == Extracted(download)
  {}

  /** The served dist needs replacing: it is missing, inconsistent, or stamped otherwise. */
  predicate Outdated(s: Web, version: string) {
    || !Serving(s)
    || (DistAt(s, s.pointer.value).stamp != "" && DistAt(s, s.pointer.value).stamp != version)
  }

  /** A sync reports `Updated` exactly when the served dist is outdated for a tag that
      resolved and the download finished self-consistent; the daemon then serves, and the
      marker if written names, exactly what was extracted. */
  lemma SyncUpdatesIffOutdated(s: Web, call: Call)
    requires !s.embedded && call.tag.Some?
    ensures Sync(s, call).0 == Updated(call.tag.value)
            <==> Outdated(s, TrimV(call.tag.value)) && call.download.Complete? && Extracted(call.download).consistent
    ensures Sync(s, call).0.Updated? ==>
              var t, p := Last(s, Sync(s, call).1), StagingDir(TrimV(call.tag.value));
              && t.pointer == Some(p) && DistAt(t, p) == Extracted(call.download)
              && t.marker == (if call.markerWritten then Some(p) else s.marker)
  {}

  /** The dist a sync compares with: nothing and a blank stamp if there is none. */
  function ActiveDist(s: Web, active: Option<Path>): Dist {
    if active.Some? then DistAt(s, active.value) else EMPTY_DIR
  }

  /** The download finished and what it extracted is self-consistent. */
  predicate Delivers(download: Download) {
    download.Complete? && Extracted(download).consistent
  }

  /** What a sync that compares with `active` may report, outcome by outcome. */
  predicate ReportsTruly(s: Web, call: Call, active: Option<Path>, outcome: SyncOutcome) {
    var d := ActiveDist(s, active);
    var asked := !s.embedded && call.tag.Some?;
    && (outcome.AlreadyThere? <==> s.embedded || (asked && d.consistent && d.stamp != ""
                                                  && d.stamp == TrimV(call.tag.value)))
    && (outcome.AlreadyThere? ==> outcome.active == outcome.target == if s.embedded then "embedded" else d.stamp)
    && (outcome.LeftUnstamped? <==> asked && d.consistent && d.stamp == "")
    && (outcome.Updated? <==> asked && Replaceable(d, TrimV(call.tag.value)) && Delivers(call.download))
    && (outcome.Updated? ==> outcome.to == call.tag.value)
    && (outcome.SyncFailed? <==> !s.embedded && (call.tag.None?
                                 || (Replaceable(d, TrimV(call.tag.value)) && !Delivers(call.download))))
  }

  /** A dist a sync to `version` does not leave in place. */
  predicate Replaceable(d: Dist, version: string) {
    !d.consistent || (d.stamp != "" && d.stamp != version)
  }

  /** Both syncs report what happened: up to date only when the dist compared with is,
      or the build serves its own; failed when no tag resolved or a needed download did
      not deliver, and never otherwise. */
  lemma SyncReports(s: Web, call: Call)
    ensures ReportsTruly(s, call, s.pointer, Sync(s, call).0)
    ensures ReportsTruly(s, call, Resolve(s), SyncToDisk(s, call).0)
  {
    if !s.embedded {
      PreparedReports(s, call, s.pointer);
      PreparedReports(s, call, Resolve(s));
    }
  }

  lemma PreparedReports(s: Web, call: Call, active: Option<Path>)
    requires !s.embedded
    ensures ReportsTruly(s, call, active, Report(Prepare(s, call, active).0))
  {
    if call.tag.Some? && call.download.Complete? {
      CompleteLeaves(s, StagingDir(TrimV(call.tag.value)), call.download);
    }
  }

  // ---- whole runs ----

  predicate AwaitsRemoval(s: Web, p: Path) {
    exists i :: 0 <= i < |s.removals| && s.removals[i].path == p
  }

  predicate Healthy(s: Web) {
    && Serving(s)
    && SelfStamped(s.pointer.value, DistAt(s, s.pointer.value))
    && !AwaitsRemoval(s, s.pointer.value)
  }

  /** What keeps one action from harming a healthy daemon: release archives carry their
      own version or none; no generation comes back within the grace period of its
      removal; and the command line aims elsewhere unless the marker is up to date. */
  predicate Careful(s: Web, a: Action) {
    match a
    case DaemonSync(call) =>
      call.tag.Some? && call.download.Complete? ==>
        var p := StagingDir(TrimV(call.tag.value));
        SelfStamped(p, Extracted(call.download)) && !AwaitsRemoval(s, p)
    case DiskSync(call) =>
      call.tag.Some? && Some(StagingDir(TrimV(call.tag.value))) == s.pointer ==> s.marker == s.pointer
    case _ => true
  }

  lemma StillHealthy(s: Web, t: Web, p: Path)
    requires Healthy(s) && OnlyDir(s, t, p) && s.pointer != Some(p)
    ensures Healthy(t)
  {
    OtherDirsStay(s, t, p, s.pointer.value);
  }

  lemma DaemonSyncKeepsHealth(s: Web, call: Call)
    requires Healthy(s) && Careful(s, DaemonSync(call))
    ensures AllServing(Sync(s, call).1) && Healthy(Last(s, Sync(s, call).1))
  {
    DaemonSyncDisturbs(s, call);
    if !s.embedded && call.tag.Some? && Compare(s, s.pointer, TrimV(call.tag.value)).None? {
      var p := StagingDir(TrimV(call.tag.value));
      var tr := DownloadTrace(s, p, call.download);
      assert DownloadsInto(s, call, s.pointer, p);
      DownloadTouchesOneDir(s, p, call.download);
      var t := Last(s, tr);
      StillHealthy(s, t, p);
      if Prepare(s, call, s.pointer).0.Ready? {
        CompleteLeaves(s, p, call.download);
        assert t.removals == s.removals;
        NewPointerNotAwaited(t, p);
        assert Last(s, Sync(s, call).1) == PersistMarker(Swap(t, p), p, call.markerWritten);
      }
    }
  }

  lemma NewPointerNotAwaited(t: Web, p: Path)
    ensures AwaitsRemoval(Swap(t, p), p) <==> AwaitsRemoval(t, p) || t.pointer == Some(p)
  {
    var r := Swap(t, p).removals;
    if t.pointer == Some(p) {
      assert r[|t.removals|].path == p;
    }
    if AwaitsRemoval(t, p) {
      var i :| 0 <= i < |t.removals| && t.removals[i].path == p;
      assert r[i].path == p;
    }
  }

  lemma DiskSyncKeepsHealth(s: Web, call: Call)
    requires Healthy(s) && Careful(s, DiskSync(call))
    ensures AllServing(SyncToDisk(s, call).1) && Healthy(Last(s, SyncToDisk(s, call).1))
  {
    DiskSyncDisturbs(s, call);
    if !s.embedded && call.tag.Some? && Compare(s, Resolve(s), TrimV(call.tag.value)).None? {
      var version := TrimV(call.tag.value);
      var p := StagingDir(version);
      StagingDirInjective(version, DistAt(s, s.pointer.value).stamp);
      assert s.pointer != Some(p);
      DownloadTouchesOneDir(s, p, call.download);
      StillHealthy(s, Last(s, DownloadTrace(s, p, call.download)), p);
    }
  }

  lemma RemovalKeepsHealth(s: Web, i: nat)
    requires Healthy(s)
    ensures AllServing(Trace(s, RunRemoval(i))) && Healthy(Last(s, Trace(s, RunRemoval(i))))
  {}

  function After(s: Web, acts: seq<Action>): Web {
    if acts == [] then s
    else
      var before := After(s, acts[..|acts| - 1]);
      Last(before, Trace(before, acts[|acts| - 1]))
  }

  ghost predicate CarefulRun(s: Web, acts: seq<Action>) {
    forall i :: 0 <= i < |acts| ==> Careful(After(s, acts[..i]), acts[i])
  }

  /** In a careful run the daemon serves a self-consistent dist in every state it passes
      through, within every sync and between them, whatever the downloads do. */
  lemma {:induction false} ServedDistStaysGood(s: Web, acts: seq<Action>, k: nat)
    requires Healthy(s) && CarefulRun(s, acts) && k <= |acts|
    ensures Healthy(After(s, acts[..k]))
    ensures k < |acts| ==> AllServing(Trace(After(s, acts[..k]), acts[k]))
  {
    if k > 0 {
      ServedDistStaysGood(s, acts, k - 1);
      assert acts[..k][..k - 1] == acts[..k - 1];
      ActionKeepsHealth(After(s, acts[..k - 1]), acts[k - 1]);
    }
    if k < |acts| {
      ActionKeepsHealth(After(s, acts[..k]), acts[k]);
    }
  }

  lemma ActionKeepsHealth(s: Web, a: Action)
    requires Healthy(s) && Careful(s, a)
    ensures AllServing(Trace(s, a)) && Healthy(Last(s, Trace(s, a)))
  {
    match a
    case DaemonSync(call) => DaemonSyncKeepsHealth(s, call);
    case DiskSync(call) => DiskSyncKeepsHealth(s, call);
    case Wait(_) =>
    case RunRemoval(i) => RemovalKeepsHealth(s, i);
  }

  // ---- what is not safe ----

  /** Time passes and removals run; no sync. */
  predicate OnlyCleaning(acts: seq<Action>) {
    forall i :: 0 <= i < |acts| ==> acts[i].Wait? || acts[i].RunRemoval?
  }

  /** A directory that awaits no removal survives all cleaning. */
  lemma {:induction false} CleaningSpares(s: Web, p: Path, acts: seq<Action>)
    requires OnlyCleaning(acts) && p in s.dirs && !AwaitsRemoval(s, p)
    ensures p in After(s, acts).dirs && !AwaitsRemoval(After(s, acts), p)
    ensures After(s, acts).pointer == s.pointer
  {
    if acts != [] {
      CleaningSpares(s, p, acts[..|acts| - 1]);
      var t, a := After(s, acts[..|acts| - 1]), acts[|acts| - 1];
      if a.RunRemoval? && Trace(t, a) != [] {
        assert t.removals[a.index].path != p;
      }
    }
  }

  /** The removal of a directory runs once its grace period is over. */
  lemma CleaningRemoves(s: Web, p: Path, i: nat) returns (acts: seq<Action>)
    requires i < |s.removals| && s.removals[i].path == p
    ensures OnlyCleaning(acts) && p !in After(s, acts).dirs && After(s, acts).pointer == s.pointer
  {
    acts := [Wait(s.removals[i].due), RunRemoval(i)];
    assert acts[..1] == [Wait(s.removals[i].due)];
    var later := s.(now := s.now + s.removals[i].due);
    assert After(s, acts[..1]) == later;
    assert Trace(later, RunRemoval(i)) != [];
  }

  /** The generation just published disappears while it is served, once grace periods
      are over, if and only if its directory was the previous one or was already awaiting
      removal. */
  lemma PublishDeletesItself(s: Web, p: Path)
    requires p in s.dirs
    ensures (exists acts :: OnlyCleaning(acts) && Gone(After(Swap(s, p), acts), p))
            <==> AwaitsRemoval(s, p) || s.pointer == Some(p)
  {
    NewPointerNotAwaited(s, p);
    if AwaitsRemoval(Swap(s, p), p) {
      var i :| 0 <= i < |Swap(s, p).removals| && Swap(s, p).removals[i].path == p;
      var acts := CleaningRemoves(Swap(s, p), p, i);
      assert OnlyCleaning(acts) && Gone(After(Swap(s, p), acts), p);
    } else {
      forall acts | OnlyCleaning(acts)
        ensures !Gone(After(Swap(s, p), acts), p)
      {
        CleaningSpares(Swap(s, p), p, acts);
      }
    }
  }

  /** The daemon points at a directory that is not there. */
  predicate Gone(s: Web, p: Path) {
    s.pointer == Some(p) && p !in s.dirs
  }

  /** Healing a broken dist in place: the sync repairs the served directory and schedules
      that same directory for removal, so five minutes later nothing is served. */
  lemma SelfHealIsUndone(version: string, fixed: Dist)
    requires version != "" && version[0] != 'v' && fixed.consistent
    ensures var p := StagingDir(version);
            var s := Web(false, map[p := Dist(false, version)], Some(p), Some(p), 0, []);
            var heal := DaemonSync(Call(Some("v" + version), Complete([], [fixed]), true));
            var healed := Last(s, Trace(s, heal));
            var early, later := Last(healed, Trace(healed, Wait(299))), Last(healed, Trace(healed, Wait(300)));
            var gone := Last(later, Trace(later, RunRemoval(0)));
            && Serving(healed) && Serving(later) && Trace(early, RunRemoval(0)) == []
            && gone.pointer == Some(p) && p !in gone.dirs && !Serving(gone)
  {
    var p := StagingDir(version);
    var s := Web(false, map[p := Dist(false, version)], Some(p), Some(p), 0, []);
    var call := Call(Some("v" + version), Complete([], [fixed]), true);
    TrimOneV(version);
    CompleteLeaves(s, p, call.download);
    DownloadTouchesOneDir(s, p, call.download);
    assert Prepare(s, call, s.pointer).0 == Ready("v" + version, p);
    var healed := Last(s, Trace(s, DaemonSync(call)));
    assert healed == PersistMarker(Swap(Last(s, DownloadTrace(s, p, call.download)), p), p, true);
    assert healed.removals == [Removal(p, GRACE)];
  }

  /** Two command-line pins, forth and back, clear the directory a running daemon serves. */
  lemma TwoPinsClearTheServedDist(a: string, b: string, da: Dist, db: Dist)
    requires a != "" && b != "" && a != b && a[0] != 'v' && b[0] != 'v'
    requires da == Dist(true, a) && db == Dist(true, b)
    ensures var s := Web(false, map[StagingDir(a) := da], Some(StagingDir(a)), Some(StagingDir(a)), 0, []);
            var away := DiskSync(Call(Some("v" + b), Complete([], [db]), true));
            var t := Last(s, Trace(s, away));
            var back := DiskSync(Call(Some("v" + a), Complete([], [da]), true));
            Healthy(s) && AllServing(Trace(s, away)) && !AllServing(Trace(t, back))
  {
    var pa, pb := StagingDir(a), StagingDir(b);
    StagingDirInjective(a, b);
    var s := Web(false, map[pa := da], Some(pa), Some(pa), 0, []);
    var away := Call(Some("v" + b), Complete([], [db]), true);
    TrimOneV(a);
    TrimOneV(b);
    DiskSyncDisturbs(s, away);
    CompleteLeaves(s, pb, away.download);
    DownloadTouchesOneDir(s, pb, away.download);
    var u := Last(s, DownloadTrace(s, pb, away.download));
    assert Prepare(s, away, Resolve(s)).0 == Ready("v" + b, pb);
    OtherDirsStay(s, u, pb, pa);
    var t := Last(s, Trace(s, DiskSync(away)));
    assert t == PersistMarker(u, pb, true);
    DiskSyncDisturbs(t, Call(Some("v" + a), Complete([], [da]), true));
  }

  // ---- the object ----

  class WebUi {
    var web: Web
    ghost var history: seq<Web>

    constructor (web: Web)
      ensures this.web == web && history == []
    {
      this.web, history := web, [];
    }

    /** One step, recorded. */
    method Put(next: Web)
      modifies this
      ensures web == next && history == old(history) + [next]
    {
      web := next;
      history := history + [next];
    }

    /** The staging directory takes the contents `ds`, one after the other. */
    method WriteAll(p: Path, ds: seq<Dist>, ghost start: Web)
      requires OnlyDir(start, web, p)
      modifies this
      ensures history == old(history) + Writes(start, p, ds)
      ensures web == Last(old(web), Writes(start, p, ds)) && OnlyDir(start, web, p)
    {
      for i := 0 to |ds|
        invariant history == old(history) + Writes(start, p, ds[..i])
        invariant web == Last(old(web), Writes(start, p, ds[..i])) && OnlyDir(start, web, p)
      {
        assert ds[..i + 1][..i] == ds[..i];
        OverwriteDir(start, web, p, ds[i]);
        Put(Wrote(web, p, ds[i]));
      }
      assert ds[..|ds|] == ds;
    }

    /** `remove_dir_all` of an existing staging directory. */
    method Wipe(p: Path, wiped: seq<Dist>, ghost start: Web)
      requires web == start
      modifies this
      ensures history == old(history) + WipeTrace(start, p, wiped)
      ensures web == Last(start, WipeTrace(start, p, wiped)) && OnlyDir(start, web, p)
    {
      assert history + [] == history;
      if p in web.dirs {
        WriteAll(p, wiped, start);
        RemovedDir(start, web, p);
        Put(web.(dirs := web.dirs - {p}));
      }
    }

    method Extract(p: Path, download: Download) returns (ok: bool)
      modifies this
      ensures history == old(history) + DownloadTrace(old(web), p, download)
      ensures web == Last(old(web), DownloadTrace(old(web), p, download))
      ensures ok == download.Complete?
    {
      ghost var start := web;
      ok := download.Complete?;
      assert history + [] == history;
      match download
      case NotFetched =>
      case WipeFailed(wiped) =>
        if p in web.dirs {
          WriteAll(p, wiped, start);
        }
      case Broken(wiped, files) =>
        WipeAndWrite(p, wiped, files);
      case Complete(wiped, files) =>
        WipeAndWrite(p, wiped, files);
    }

    /** Clear the staging directory, create it afresh and write the archive into it. */
    method WipeAndWrite(p: Path, wiped: seq<Dist>, files: seq<Dist>)
      modifies this
      ensures history == old(history) + (WipeTrace(old(web), p, wiped) + Writes(old(web), p, [EMPTY_DIR] + files))
      ensures web == Last(old(web), WipeTrace(old(web), p, wiped) + Writes(old(web), p, [EMPTY_DIR] + files))
    {
      ghost var start := web;
      Wipe(p, wiped, start);
      WriteAll(p, [EMPTY_DIR] + files, start);
      ghost var wipe, writes := WipeTrace(start, p, wiped), Writes(start, p, [EMPTY_DIR] + files);
      assert old(history) + wipe + writes == old(history) + (wipe + writes);
    }

    method PrepareSync(call: Call, active: Option<Path>) returns (prepared: Prepared)
      modifies this
      ensures prepared == Prepare(old(web), call, active).0
      ensures history == old(history) + Prepare(old(web), call, active).1
      ensures web == Last(old(web), Prepare(old(web), call, active).1)
    {
      assert history + [] == history;
      if call.tag.None? {
        return Failed;
      }
      var target := TrimV(call.tag.value);
      var current := if active.Some? then DistAt(web, active.value) else EMPTY_DIR;
      if current.consistent && current.stamp != "" && current.stamp == target {
        return UpToDate(current.stamp, target);
      }
      if current.consistent && current.stamp == "" {
        return Unstamped;
      }
      var staging := StagingDir(target);
      var ok := Extract(staging, call.download);
      if !ok || !DistAt(web, staging).consistent {
        return Failed;
      }
      return Ready(call.tag.value, staging);
    }

    method SyncLive(call: Call) returns (outcome: SyncOutcome)
      modifies this
      ensures outcome == Sync(old(web), call).0 && history == old(history) + Sync(old(web), call).1
      ensures web == Last(old(web), Sync(old(web), call).1)
    {
      if web.embedded {
        return AlreadyThere("embedded", "embedded");
      }
      var prepared := PrepareSync(call, web.pointer);
      if prepared.Ready? {
        Put(Swap(web, prepared.staging));
        Put(PersistMarker(web, prepared.staging, call.markerWritten));
      }
      outcome := Report(prepared);
    }

    method SyncDisk(call: Call) returns (outcome: SyncOutcome)
      modifies this
      ensures outcome == SyncToDisk(old(web), call).0 && history == old(history) + SyncToDisk(old(web), call).1
      ensures web == Last(old(web), SyncToDisk(old(web), call).1)
    {
      if web.embedded {
        return AlreadyThere("embedded", "embedded");
      }
      var prepared := PrepareSync(call, Resolve(web));
      if prepared.Ready? {
        Put(PersistMarker(web, prepared.staging, call.markerWritten));
      }
      outcome := Report(prepared);
    }
  }

  lemma RemovedDir(s: Web, t: Web, p: Path)
    requires OnlyDir(s, t, p)
    ensures t.(dirs := t.dirs - {p}) == s.(dirs := s.dirs - {p})
    ensures OnlyDir(s, s.(dirs := s.dirs - {p}), p)
  {}

  lemma OverwriteDir(s: Web, t: Web, p: Path, d: Dist)
    requires OnlyDir(s, t, p)
    ensures Wrote(t, p, d) == Wrote(s, p, d) && OnlyDir(s, Wrote(t, p, d), p)
  {
    forall q | q != p
      ensures q in t.dirs <==> q in s.dirs
      ensures q in t.dirs ==> t.dirs[q] == s.dirs[q]
    {
      assert q in t.dirs - {p} <==> q in s.dirs - {p};
      if q in t.dirs {
        assert (t.dirs - {p})[q] == (s.dirs - {p})[q];
      }
    }
    assert t.dirs[p := d] == s.dirs[p := d];
    assert s.dirs[p := d] - {p} == s.dirs - {p};
  }
}
