/** PATH-shadow migration of src/managed_install.rs and src/commands/update.rs: find
    stale `oxios` entries on PATH, repoint symlinks at the launcher, move files aside. */
module Migration {
  import opened Options
  import opened Strings

  type Bytes = seq<nat>

  datatype Path = Path(dir: string, name: string)

  datatype Node = File(content: Bytes) | Link(target: Path)

  type Fs = map<Path, Node>

  datatype Kind = Canonical | Versioned | Backup

  datatype Shadow = Shadow(path: Path, symlinkTarget: Option<Path>, kind: Kind)

  datatype Plan = Plan(repoint: seq<Path>, preserve: seq<(Path, Path)>)

  const LAUNCHER_NAME := "oxios"
  const SYMLINK_LIMIT: nat := 40

  function Aside(p: Path): Path { Path(p.dir, p.name + ".pre-oxios") }

  function Bak(p: Path, suffix: string): Path { Path(p.dir, p.name + ".bak." + suffix) }

  predicate IsDate(suffix: string) {
    |suffix| == 8 && forall c :: c in suffix ==> '0' <= c <= '9'
  }

  /** Follow symlinks, at most `limit` of them, to an entry that is none. */
  function Resolve(fs: Fs, p: Path, limit: nat): Option<Path>
    decreases limit
  {
    if p !in fs then None
    else
      match fs[p]
      case File(_) => Some(p)
      case Link(t) => if limit == 0 then None else Resolve(fs, t, limit - 1)
  }

  /** `Path::exists`, which follows symlinks. */
  predicate Exists(fs: Fs, p: Path) {
    Resolve(fs, p, SYMLINK_LIMIT).Some?
  }

  /** Symlinks one after the other, and a regular file at the end. */
  ghost predicate Leads(fs: Fs, chain: seq<Path>) {
    && chain != []
    && (forall i :: 0 <= i < |chain| - 1 ==> chain[i] in fs && fs[chain[i]] == Link(chain[i + 1]))
    && chain[|chain| - 1] in fs && fs[chain[|chain| - 1]].File?
  }

  /** `p` leads to `q` over at most `limit` symlinks. */
  ghost predicate LeadsTo(fs: Fs, p: Path, q: Path, limit: nat) {
    exists chain :: Leads(fs, chain) && chain[0] == p && chain[|chain| - 1] == q && |chain| - 1 <= limit
  }

  lemma {:induction false} ResolveFollows(fs: Fs, p: Path, q: Path, limit: nat)
    ensures Resolve(fs, p, limit) == Some(q) <==> LeadsTo(fs, p, q, limit)
    decreases limit
  {
    if p in fs && fs[p].Link? {
      var t := fs[p].target;
      if limit > 0 {
        ResolveFollows(fs, t, q, limit - 1);
      }
      if Resolve(fs, p, limit) == Some(q) {
        var rest :| Leads(fs, rest) && rest[0] == t && rest[|rest| - 1] == q && |rest| - 1 <= limit - 1;
        assert Leads(fs, [p] + rest);
      }
      forall chain | Leads(fs, chain) && chain[0] == p && chain[|chain| - 1] == q && |chain| - 1 <= limit
        ensures Resolve(fs, p, limit) == Some(q)
      {
        assert |chain| > 1 && chain[1] == t;
        assert Leads(fs, chain[1..]);
      }
    } else if p in fs {
      assert Leads(fs, [p]);
      forall chain | Leads(fs, chain) && chain[0] == p
        ensures |chain| > 1 ==> fs[p] == Link(chain[1])
      {
        assert |chain| > 1 ==> fs[chain[0]] == Link(chain[0 + 1]);
      }
    } else {
      forall chain | Leads(fs, chain)
        ensures chain[0] in fs
      {}
    }
  }

  /** Something exists at a path when its symlinks, 40 at most, end in a file; a dangling
      link does not count, and a rename may replace it. */
  lemma ExistsFollows(fs: Fs, p: Path)
    ensures Exists(fs, p) <==> exists q :: LeadsTo(fs, p, q, 40)
  {
    forall q
      ensures Resolve(fs, p, 40) == Some(q) <==> LeadsTo(fs, p, q, 40)
    {
      ResolveFollows(fs, p, q, 40);
    }
    if Exists(fs, p) {
      assert LeadsTo(fs, p, Resolve(fs, p, 40).value, 40);
    }
  }

  // ---- regular files and their contents ----

  function Files(fs: Fs): map<Path, Bytes> {
    map p | p in fs && fs[p].File? :: fs[p].content
  }

  ghost function AnyKey(files: map<Path, Bytes>): (p: Path)
    requires files != map[]
    ensures p in files
  {
    var p :| p in files;
    p
  }

  /** The multiset of contents, one occurrence for each file. */
  ghost function Contents(files: map<Path, Bytes>): multiset<Bytes> {
    if files == map[] then multiset{}
    else
      var p := AnyKey(files);
      multiset{files[p]} + Contents(files - {p})
  }

  /** Any file can be counted first. */
  lemma {:induction false} ContentsPick(files: map<Path, Bytes>, p: Path)
    requires p in files
    ensures Contents(files) == multiset{files[p]} + Contents(files - {p})
    decreases |files|
  {
    var q := AnyKey(files);
    if p != q {
      var rest := files - {p, q};
      assert files - {q} - {p} == rest && files - {p} - {q} == rest;
      ContentsPick(files - {q}, p);
      ContentsPick(files - {p}, q);
      assert Contents(files) == multiset{files[q]} + (multiset{files[p]} + Contents(rest));
    }
  }

  /** Moving one file to a free name keeps the contents. */
  lemma ContentsMove(files: map<Path, Bytes>, moved: map<Path, Bytes>, from: Path, to: Path)
    requires from in files && to !in files
    requires moved == (files - {from})[to := files[from]]
    ensures Contents(moved) == Contents(files)
  {
    assert moved - {to} == files - {from};
    ContentsPick(files, from);
    ContentsPick(moved, to);
  }

  lemma {:induction false} ContentsSize(files: map<Path, Bytes>)
    ensures |Contents(files)| == |files|
    decreases |files|
  {
    if files != map[] {
      var p :| p in files;
      ContentsPick(files, p);
      ContentsSize(files - {p});
    }
  }

  lemma ShrinkSize(files: map<Path, Bytes>, gone: set<Path>)
    ensures |files - gone| == |files| <==> files.Keys !! gone
  {
    var lost := files.Keys * gone;
    assert (files - gone).Keys == files.Keys - lost;
    assert files.Keys == (files.Keys - lost) + lost;
  }

  // ---- planning ----

  function PlanOf(shadows: seq<Shadow>, suffix: string): Plan {
    if shadows == [] then Plan([], [])
    else
      var rest := PlanOf(shadows[..|shadows| - 1], suffix);
      var s := shadows[|shadows| - 1];
      if s.symlinkTarget.Some? then rest.(repoint := rest.repoint + [s.path])
      else rest.(preserve := rest.preserve + [(s.path, Bak(s.path, suffix))])
  }

  method PlanMigration(shadows: seq<Shadow>, suffix: string) returns (plan: Plan)
    ensures plan == PlanOf(shadows, suffix)
  {
    var repoint: seq<Path>, preserve: seq<(Path, Path)> := [], [];
    for i := 0 to |shadows|
      invariant Plan(repoint, preserve) == PlanOf(shadows[..i], suffix)
    {
      assert shadows[..i + 1][..i] == shadows[..i];
      match shadows[i].symlinkTarget
      case Some(_) => repoint := repoint + [shadows[i].path];
      case None => preserve := preserve + [(shadows[i].path, Bak(shadows[i].path, suffix))];
    }
    assert shadows[..|shadows|] == shadows;
    return Plan(repoint, preserve);
  }

  /** The plan splits the shadows: symlinks are repointed, files are preserved. */
  lemma {:induction false} PlanMembers(shadows: seq<Shadow>, suffix: string)
    ensures forall p :: p in PlanOf(shadows, suffix).repoint
                        <==> exists s :: s in shadows && s.path == p && s.symlinkTarget.Some?
    ensures forall m :: m in PlanOf(shadows, suffix).preserve
                        <==> m.1 == Bak(m.0, suffix) && exists s :: s in shadows && s.path == m.0 && s.symlinkTarget.None?
  {
    if shadows != [] {
      var init, last := shadows[..|shadows| - 1], shadows[|shadows| - 1];
      assert shadows == init + [last];
      PlanMembers(init, suffix);
      forall p
        ensures p in PlanOf(shadows, suffix).repoint
                <==> exists s :: s in shadows && s.path == p && s.symlinkTarget.Some?
      {
        assert last.symlinkTarget.Some? ==> last in shadows;
      }
      forall m: (Path, Path)
        ensures m in PlanOf(shadows, suffix).preserve
                <==> m.1 == Bak(m.0, suffix) && exists s :: s in shadows && s.path == m.0 && s.symlinkTarget.None?
      {
        assert last.symlinkTarget.None? ==> last in shadows;
      }
    }
  }

  /** What an audit of `fs` hands to the plan: present entries, told apart as symlink or
      file, canonical ones named like the launcher, never the launcher itself. */
  ghost predicate Audited(fs: Fs, shadows: seq<Shadow>, launcher: Path) {
    forall s :: s in shadows ==>
      && s.path in fs && s.path != launcher
      && s.symlinkTarget == (if fs[s.path].Link? then Some(fs[s.path].target) else None)
      && (s.kind == Canonical ==> s.path.name == LAUNCHER_NAME)
  }

  ghost predicate Repointable(fs: Fs, plan: Plan, suffix: string) {
    && (forall r :: r in plan.repoint ==> r in fs && fs[r].Link?)
    && (forall m :: m in plan.preserve ==> m.0 in fs && fs[m.0].File? && m.1 == Bak(m.0, suffix))
  }

  function Asides(repoint: seq<Path>): set<Path> {
    set r | r in repoint :: Aside(r)
  }

  lemma BakIsNoLauncher(p: Path, suffix: string)
    requires IsDate(suffix)
    ensures Bak(p, suffix).name != LAUNCHER_NAME
  {}

  // ---- where a finished migration leaves every entry ----

  function Moved(fs: Fs, from: Path, to: Path): Fs
    requires from in fs
  {
    (fs - {from})[to := fs[from]]
  }

  /** All of `repoint` moved aside and replaced by symlinks to the launcher, in order. */
  function Repointed(fs: Fs, repoint: seq<Path>, launcher: Path): Fs {
    if repoint == [] then fs
    else
      var r, before := repoint[|repoint| - 1], Repointed(fs, repoint[..|repoint| - 1], launcher);
      if r in before then Moved(before, r, Aside(r))[r := Link(launcher)] else before
  }

  /** All of `preserve` renamed in order, except where the new name already leads somewhere. */
  function Preserved(fs: Fs, preserve: seq<(Path, Path)>): Fs {
    if preserve == [] then fs
    else
      var (from, to) := preserve[|preserve| - 1];
      var before := Preserved(fs, preserve[..|preserve| - 1]);
      if Exists(before, to) || from !in before then before else Moved(before, from, to)
  }

  /** Every listed entry goes to its new name and nothing else changes. */
  ghost predicate PreservedAll(fs: Fs, after: Fs, preserve: seq<(Path, Path)>) {
    && (forall m :: m in preserve ==> m.0 in fs && m.0 !in after && m.1 in after && after[m.1] == fs[m.0])
    && (forall p :: Unnamed(preserve, p) ==> (p in after <==> p in fs) && (p in fs ==> after[p] == fs[p]))
  }

  /** Neither an old nor a new name of the list. */
  ghost predicate Unnamed(preserve: seq<(Path, Path)>, p: Path) {
    forall m :: m in preserve ==> p != m.0 && p != m.1
  }

  /** Each source is there once, and each new name is free and taken once. */
  ghost predicate FreshNames(fs: Fs, preserve: seq<(Path, Path)>) {
    && SourcesThere(fs, preserve)
    && (forall m :: m in preserve ==> m.1 !in fs)
    && forall i, j :: 0 <= i < j < |preserve| ==> preserve[i].1 != preserve[j].1
  }

  lemma {:induction false} PreservedExactly(fs: Fs, preserve: seq<(Path, Path)>)
    requires FreshNames(fs, preserve)
    ensures PreservedAll(fs, Preserved(fs, preserve), preserve)
  {
    if preserve != [] {
      var init, m := preserve[..|preserve| - 1], preserve[|preserve| - 1];
      assert preserve == init + [m];
      FreshLast(fs, init, m);
      PreservedExactly(fs, init);
      OneMorePreserved(fs, Preserved(fs, init), init, m);
    }
  }

  lemma FreshLast(fs: Fs, init: seq<(Path, Path)>, m: (Path, Path))
    requires FreshNames(fs, init + [m])
    ensures FreshNames(fs, init) && m.0 in fs && m.1 !in fs
    ensures Unnamed(init, m.0) && Unnamed(init, m.1)
  {
    var all := init + [m];
    assert all[|init|] == m && m in all;
    forall i | 0 <= i < |init|
      ensures all[i] == init[i] && init[i] in all
    {}
    forall o | o in init
      ensures m.0 != o.0 && m.0 != o.1 && m.1 != o.0 && m.1 != o.1
    {
      var i :| 0 <= i < |init| && init[i] == o;
      assert all[i] == o;
    }
  }

  lemma UnnamedInit(init: seq<(Path, Path)>, m: (Path, Path), p: Path)
    requires Unnamed(init + [m], p)
    ensures Unnamed(init, p) && p != m.0 && p != m.1
  {
    assert m in init + [m] && forall o :: o in init ==> o in init + [m];
  }

  lemma OneMorePreserved(fs: Fs, before: Fs, init: seq<(Path, Path)>, m: (Path, Path))
    requires PreservedAll(fs, before, init)
    requires m.0 in fs && m.1 !in fs && Unnamed(init, m.0) && Unnamed(init, m.1)
    ensures m.0 in before && before[m.0] == fs[m.0] && m.1 !in before
    ensures PreservedAll(fs, Moved(before, m.0, m.1), init + [m])
  {
    var all, after := init + [m], Moved(before, m.0, m.1);
    forall o | o in all
      ensures o.0 in fs && o.0 !in after && o.1 in after && after[o.1] == fs[o.0]
    {
      assert o == m || o in init;
    }
    forall p | Unnamed(all, p)
      ensures (p in after <==> p in fs) && (p in fs ==> after[p] == fs[p])
    {
      UnnamedInit(init, m, p);
    }
  }

  lemma AsideDiffers(r: Path)
    ensures Aside(r) != r
  {
    assert |Aside(r).name| == |r.name| + 10;
  }

  ghost predicate AllLinks(fs: Fs, repoint: seq<Path>) {
    forall i :: 0 <= i < |repoint| ==> repoint[i] in fs && fs[repoint[i]].Link?
  }

  lemma RepointedFiles(fs: Fs, r: Path, launcher: Path)
    requires r in fs && fs[r].Link?
    ensures Files(Moved(fs, r, Aside(r))[r := Link(launcher)]) == Files(fs) - {Aside(r)}
  {}

  /** One more entry repointed keeps the others symlinks, and the canonical ones done. */
  lemma RepointedOne(fs: Fs, r: Path, all: seq<Path>, done: seq<Path>, launcher: Path)
    requires r in fs && fs[r].Link? && AllLinks(fs, all) && Converged(fs, done, launcher)
    ensures var fs' := Moved(fs, r, Aside(r))[r := Link(launcher)];
            AllLinks(fs', all) && Converged(fs', done + [r], launcher)
  {}

  /** Repointing the first `n` entries gives up exactly the regular files at their aside
      names, and leaves the canonical ones at the launcher. */
  lemma {:induction false} RepointedKeepsFiles(fs: Fs, repoint: seq<Path>, n: nat, launcher: Path)
    requires n <= |repoint| && AllLinks(fs, repoint)
    ensures var fs' := Repointed(fs, repoint[..n], launcher);
            && Files(fs') == Files(fs) - Asides(repoint[..n])
            && AllLinks(fs', repoint) && Converged(fs', repoint[..n], launcher)
  {
    if n > 0 {
      var r, before := repoint[n - 1], Repointed(fs, repoint[..n - 1], launcher);
      RepointedKeepsFiles(fs, repoint, n - 1, launcher);
      assert repoint[..n][..n - 1] == repoint[..n - 1];
      assert repoint[..n] == repoint[..n - 1] + [r];
      RepointedFiles(before, r, launcher);
      RepointedOne(before, r, repoint, repoint[..n - 1], launcher);
      AsidesAppend(repoint[..n - 1], r);
    }
  }

  /** No entry is listed twice or is the aside of another. */
  ghost predicate Unrelated(repoint: seq<Path>) {
    forall i, j :: 0 <= i < |repoint| && 0 <= j < |repoint| && i != j ==>
      repoint[i] != repoint[j] && Aside(repoint[i]) != repoint[j]
  }

  /** Where every entry is after the repointing: the listed ones are symlinks to the
      launcher, their aside names hold what they were, and nothing else has changed. */
  ghost predicate RepointedAll(fs: Fs, after: Fs, repoint: seq<Path>, launcher: Path) {
    && (forall r :: r in repoint ==> r in fs && r in after && after[r] == Link(launcher))
    && (forall r :: r in repoint ==> r in fs && Aside(r) in after && after[Aside(r)] == fs[r])
    && (forall p :: p !in repoint && p !in Asides(repoint) ==>
          (p in after <==> p in fs) && (p in fs ==> after[p] == fs[p]))
  }

  lemma {:induction false} RepointedExactly(fs: Fs, repoint: seq<Path>, launcher: Path)
    requires AllLinks(fs, repoint) && Unrelated(repoint)
    ensures RepointedAll(fs, Repointed(fs, repoint, launcher), repoint, launcher)
  {
    if repoint != [] {
      var init, r := repoint[..|repoint| - 1], repoint[|repoint| - 1];
      assert repoint == init + [r];
      UnrelatedLast(init, r);
      RepointedExactly(fs, init, launcher);
      AsideDiffers(r);
      OneMoreRepointed(fs, Repointed(fs, init, launcher), init, r, launcher);
    }
  }

  lemma UnrelatedLast(init: seq<Path>, r: Path)
    requires Unrelated(init + [r])
    ensures Unrelated(init) && r !in init && r !in Asides(init)
    ensures forall q :: q in init ==> Aside(r) != q && Aside(q) != r && Aside(q) != Aside(r)
  {
    var all := init + [r];
    forall i, j | 0 <= i < |init| && 0 <= j < |init| && i != j
      ensures init[i] != init[j] && Aside(init[i]) != init[j]
    {
      assert all[i] == init[i] && all[j] == init[j];
    }
    forall q | q in init
      ensures q != r && Aside(r) != q && Aside(q) != r && Aside(q) != Aside(r)
    {
      var i :| 0 <= i < |init| && init[i] == q;
      assert all[i] == q && all[|init|] == r;
      AsideInjective(q, r);
    }
  }

  lemma AsideInjective(a: Path, b: Path)
    ensures Aside(a) == Aside(b) ==> a == b
  {
    var suffix := ".pre-oxios";
    assert (a.name + suffix)[..|a.name + suffix| - |suffix|] == a.name;
    assert (b.name + suffix)[..|b.name + suffix| - |suffix|] == b.name;
  }

  lemma OneMoreRepointed(fs: Fs, before: Fs, init: seq<Path>, r: Path, launcher: Path)
    requires RepointedAll(fs, before, init, launcher) && r in fs && Aside(r) != r
    requires r !in init && r !in Asides(init)
    requires forall q :: q in init ==> Aside(r) != q && Aside(q) != r && Aside(q) != Aside(r)
    ensures r in before
    ensures RepointedAll(fs, Moved(before, r, Aside(r))[r := Link(launcher)], init + [r], launcher)
  {
    AsidesAppend(init, r);
  }

  lemma AsidesAppend(repoint: seq<Path>, r: Path)
    ensures Asides(repoint + [r]) == Asides(repoint) + {Aside(r)}
  {}

  lemma AsidesOfPrefix(repoint: seq<Path>, n: nat)
    requires n < |repoint|
    ensures Asides(repoint[..n]) <= Asides(repoint) && Aside(repoint[n]) in Asides(repoint)
  {}

  class PathEntries {
    var fs: Fs
    ghost var faults: nat

    constructor (fs: Fs)
      ensures this.fs == fs
    {
      this.fs, faults := fs, 0;
    }

    /** Whether the file system grants the next call. */
    method Granted() returns (ok: bool)
      modifies this`faults
      ensures faults == old(faults) + if ok then 0 else 1
    {
      ok := *;
      if !ok {
        faults := faults + 1;
      }
    }

    method RemoveFile(p: Path)
      modifies this
      ensures faults >= old(faults)
      ensures fs == old(fs) || fs == old(fs) - {p}
      ensures faults == old(faults) ==> fs == old(fs) - {p}
    {
      if p in fs {
        var ok := Granted();
        if ok {
          fs := fs - {p};
        }
      }
    }

    /** `rename`: fails on a missing source, replaces whatever sits at the target. */
    method Rename(from: Path, to: Path) returns (ok: bool)
      modifies this
      ensures ok ==> from in old(fs) && fs == (old(fs) - {from})[to := old(fs)[from]]
      ensures !ok ==> fs == old(fs)
      ensures faults >= old(faults) && (ok <==> from in old(fs) && faults == old(faults))
    {
      if from !in fs { return false; }
      ok := Granted();
      if !ok { return; }
      fs := (fs - {from})[to := fs[from]];
    }

    method Symlink(target: Path, at: Path) returns (ok: bool)
      modifies this
      ensures ok ==> at !in old(fs) && fs == old(fs)[at := Link(target)]
      ensures !ok ==> fs == old(fs)
      ensures faults >= old(faults) && (ok <==> at !in old(fs) && faults == old(faults))
    {
      if at in fs { return false; }
      ok := Granted();
      if !ok { return; }
      fs := fs[at := Link(target)];
    }

    /** One round of the repoint loop. */
    method Repoint(r: Path, launcher: Path) returns (ok: bool)
      requires r in fs && fs[r].Link?
      modifies this
      ensures Files(fs) == Files(old(fs)) || Files(fs) == Files(old(fs)) - {Aside(r)}
      ensures ok ==> fs == Moved(old(fs), r, Aside(r))[r := Link(launcher)]
      ensures faults >= old(faults) && (faults == old(faults) ==> ok)
    {
      var aside := Aside(r);
      AsideDiffers(r);
      RemoveFile(aside);
      ok := Rename(r, aside);
      if !ok { return; }
      ok := Symlink(launcher, r);
    }

    method RepointAll(repoint: seq<Path>, launcher: Path) returns (ok: bool)
      requires AllLinks(fs, repoint)
      modifies this
      ensures (forall r :: r in repoint ==> Aside(r) !in Files(old(fs))) ==> Files(fs) == Files(old(fs))
      ensures ok ==> Files(fs) == Files(old(fs)) - Asides(repoint)
      ensures ok ==> Converged(fs, repoint, launcher)
      ensures ok ==> fs == Repointed(old(fs), repoint, launcher)
      ensures faults >= old(faults) && (faults == old(faults) ==> ok)
    {
      for i := 0 to |repoint|
        invariant fs == Repointed(old(fs), repoint[..i], launcher)
        invariant faults >= old(faults)
      {
        assert repoint[..i + 1][..i] == repoint[..i];
        RepointedKeepsFiles(old(fs), repoint, i, launcher);
        ok := Repoint(repoint[i], launcher);
        if !ok {
          AsidesOfPrefix(repoint, i);
          return false;
        }
      }
      assert repoint[..|repoint|] == repoint;
      RepointedKeepsFiles(old(fs), repoint, |repoint|, launcher);
      return true;
    }

    method PreserveAll(preserve: seq<(Path, Path)>, ghost repoint: seq<Path>, ghost launcher: Path, ghost suffix: string)
      returns (ok: bool)
      requires IsDate(suffix) && forall m :: m in preserve ==> m.1 == Bak(m.0, suffix)
      requires forall m, r :: m in preserve && r in repoint ==> m.0 != r
      requires Converged(fs, repoint, launcher)
      modifies this
      ensures Contents(Files(fs)) == Contents(Files(old(fs)))
      ensures Converged(fs, repoint, launcher)
      ensures ok ==> fs == Preserved(old(fs), preserve)
      ensures faults >= old(faults)
      ensures SourcesThere(old(fs), preserve) ==> (ok <==> faults == old(faults))
    {
      ghost var files := Files(fs);
      for i := 0 to |preserve|
        invariant faults == old(faults)
        invariant SourcesThere(old(fs), preserve) ==> SourcesThere(fs, preserve[i..])
        invariant Contents(Files(fs)) == Contents(files)
        invariant Converged(fs, repoint, launcher)
        invariant fs == Preserved(old(fs), preserve[..i])
      {
        var (from, to) := preserve[i];
        assert preserve[i] in preserve;
        assert preserve[..i + 1][..i] == preserve[..i];
        BakIsNoLauncher(from, suffix);
        if !Exists(fs, to) {
          ghost var before := fs;
          ok := Rename(from, to);
          if !ok { return false; }
          RenameKeepsContents(before, fs, from, to);
          if SourcesThere(before, preserve[i..]) {
            SourcesStay(before, fs, preserve, i);
          }
        }
      }
      assert preserve[..|preserve|] == preserve;
      return true;
    }

    /** `apply_migration_plan` once the user has consented. */
    method ApplyPlan(plan: Plan, launcher: Path, ghost suffix: string) returns (ok: bool)
      requires Repointable(fs, plan, suffix) && IsDate(suffix)
      modifies this
      ensures (forall r :: r in plan.repoint ==> Aside(r) !in Files(old(fs)))
              ==> Contents(Files(fs)) == Contents(Files(old(fs)))
      ensures ok ==> (Contents(Files(fs)) == Contents(Files(old(fs)))
                      <==> forall r :: r in plan.repoint ==> Aside(r) !in Files(old(fs)))
      ensures ok ==> Converged(fs, plan.repoint, launcher)
      ensures ok ==> fs == Preserved(Repointed(old(fs), plan.repoint, launcher), plan.preserve)
      ensures faults >= old(faults)
      ensures SourcesThere(old(fs), plan.preserve) && faults == old(faults) ==> ok
    {
      ok := RepointAll(plan.repoint, launcher);
      if !ok { return; }
      RepointedKeepsKeys(old(fs), plan.repoint, launcher);
      ok := PreserveAll(plan.preserve, plan.repoint, launcher, suffix);
      LossExactlyAtAsides(Files(old(fs)), plan.repoint);
    }
  }

  /** Each entry to rename is there and listed once. */
  ghost predicate SourcesThere(fs: Fs, preserve: seq<(Path, Path)>) {
    (forall i :: 0 <= i < |preserve| ==> preserve[i].0 in fs) && OnceEach(preserve)
  }

  ghost predicate OnceEach(preserve: seq<(Path, Path)>) {
    forall i, j :: 0 <= i < j < |preserve| ==> preserve[i].0 != preserve[j].0
  }

  lemma SourcesStay(before: Fs, after: Fs, preserve: seq<(Path, Path)>, i: nat)
    requires i < |preserve| && SourcesThere(before, preserve[i..])
    requires after.Keys >= before.Keys - {preserve[i].0}
    ensures SourcesThere(after, preserve[i + 1..])
  {
    assert preserve[i..][0] == preserve[i] && preserve[i + 1..] == preserve[i..][1..];
  }

  lemma {:induction false} RepointedKeepsKeys(fs: Fs, repoint: seq<Path>, launcher: Path)
    ensures fs.Keys <= Repointed(fs, repoint, launcher).Keys
  {
    if repoint != [] {
      RepointedKeepsKeys(fs, repoint[..|repoint| - 1], launcher);
    }
  }

  /** Every canonical entry of the list is a symlink to the launcher. */
  ghost predicate Converged(fs: Fs, repoint: seq<Path>, launcher: Path) {
    forall r :: r in repoint && r.name == LAUNCHER_NAME ==> r in fs && fs[r] == Link(launcher)
  }

  lemma RenameKeepsContents(before: Fs, after: Fs, from: Path, to: Path)
    requires from in before && !Exists(before, to)
    requires after == (before - {from})[to := before[from]]
    ensures Contents(Files(after)) == Contents(Files(before))
  {
    assert to !in Files(before);
    if before[from].File? {
      ContentsMove(Files(before), Files(after), from, to);
    } else {
      assert Files(after) == Files(before);
    }
  }

  /** A finished migration keeps every file exactly when no regular file sat at the
      aside name of a repointed entry. */
  lemma LossExactlyAtAsides(files: map<Path, Bytes>, repoint: seq<Path>)
    ensures Contents(files - Asides(repoint)) == Contents(files)
            <==> forall r :: r in repoint ==> Aside(r) !in files
  {
    ContentsSize(files);
    ContentsSize(files - Asides(repoint));
    ShrinkSize(files, Asides(repoint));
    if forall r :: r in repoint ==> Aside(r) !in files {
      assert files - Asides(repoint) == files;
    } else {
      var r :| r in repoint && Aside(r) in files;
      assert Aside(r) in files.Keys * Asides(repoint);
    }
  }
}
