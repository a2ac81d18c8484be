/** The PATH audit of src/managed_install.rs that feeds the migration plan. */
module ShadowAudit {
  import opened Options
  import opened Strings
  import opened Migration

  predicate IsDigits(s: string) {
    forall c :: c in s ==> '0' <= c <= '9'
  }

  /** What a directory entry is to the audit, by its name alone. */
  function KindOf(name: string): Option<Kind> {
    if name == LAUNCHER_NAME then Some(Canonical)
    else if StartsWith(name, "oxios-") then
      if |name| > 6 && '0' <= name[6] <= '9' then Some(Versioned) else None
    else if StartsWith(name, "oxios.bak.") then
      if |name| == 18 && IsDigits(name[10..]) then Some(Backup) else None
    else if name == "oxios.pre-oxios" then Some(Backup)
    else None
  }

  /** The name of a version-named copy: `oxios-`, a digit, anything. */
  ghost predicate IsVersionedName(name: string) {
    exists d, rest :: IsDigit(d) && name == "oxios-" + [d] + rest
  }

  /** The name of a launcher that was moved aside or renamed with a date. */
  ghost predicate IsBackupName(name: string) {
    || name == Aside(Path("", LAUNCHER_NAME)).name
    || exists date :: IsDate(date) && name == Bak(Path("", LAUNCHER_NAME), date).name
  }

  /** Which names the audit takes for what: the launcher's own, version-named copies, and
      what an earlier migration left; no other tool of the release, whatever it is called. */
  lemma KindsExactly(name: string)
    ensures KindOf(name) == Some(Canonical) <==> name == LAUNCHER_NAME
    ensures KindOf(name) == Some(Versioned) <==> IsVersionedName(name)
    ensures KindOf(name) == Some(Backup) <==> IsBackupName(name)
  {
    var dash, bak, pre := "oxios-", "oxios.bak.", "oxios.pre-oxios";
    assert dash[5] == '-' && bak[5] == '.' && pre[5] == '.' && bak[6] == 'b' && pre[6] == 'p';
    VersionedNames(name);
    BackupNames(name);
    if StartsWith(name, dash) || StartsWith(name, bak) {
      assert name[5] != '.' || name[5] != '-';
    }
  }

  lemma VersionedNames(name: string)
    ensures IsVersionedName(name) <==> StartsWith(name, "oxios-") && |name| > 6 && IsDigit(name[6])
  {
    if StartsWith(name, "oxios-") && |name| > 6 && IsDigit(name[6]) {
      assert name == "oxios-" + [name[6]] + name[7..];
    }
    if IsVersionedName(name) {
      var d, rest :| IsDigit(d) && name == "oxios-" + [d] + rest;
      assert name[..6] == "oxios-" && name[6] == d;
    }
  }

  lemma BackupNames(name: string)
    ensures IsBackupName(name) <==>
            name == "oxios.pre-oxios" || (StartsWith(name, "oxios.bak.") && |name| == 18 && IsDigits(name[10..]))
  {
    assert LAUNCHER_NAME + ".pre-oxios" == "oxios.pre-oxios" && LAUNCHER_NAME + ".bak." == "oxios.bak.";
    if StartsWith(name, "oxios.bak.") && |name| == 18 && IsDigits(name[10..]) {
      assert name == name[..10] + name[10..] && IsDate(name[10..]);
    }
    forall date | IsDate(date) && name == Bak(Path("", LAUNCHER_NAME), date).name
      ensures StartsWith(name, "oxios.bak.") && |name| == 18 && IsDigits(name[10..])
    {
      assert name == "oxios.bak." + date && name[..10] == "oxios.bak." && name[10..] == date;
    }
  }

  /** A canonical symlink that already leads where the launcher leads. */
  predicate IsAlias(fs: Fs, p: Path, launcher: Path) {
    && p in fs && fs[p].Link?
    && Resolve(fs, fs[p].target, SYMLINK_LIMIT).Some?
    && Resolve(fs, fs[p].target, SYMLINK_LIMIT) == Resolve(fs, launcher, SYMLINK_LIMIT)
  }

  /** An alias is a symlink that leads, through any others, to the file the launcher leads
      to; a dangling one, or one to another file, is none. */
  lemma AliasFollows(fs: Fs, p: Path, launcher: Path)
    ensures IsAlias(fs, p, launcher) <==>
            p in fs && fs[p].Link? && exists q :: LeadsTo(fs, fs[p].target, q, 40) && LeadsTo(fs, launcher, q, 40)
  {
    if p in fs && fs[p].Link? {
      forall q
        ensures Resolve(fs, fs[p].target, 40) == Some(q) <==> LeadsTo(fs, fs[p].target, q, 40)
        ensures Resolve(fs, launcher, 40) == Some(q) <==> LeadsTo(fs, launcher, q, 40)
      {
        ResolveFollows(fs, fs[p].target, q, 40);
        ResolveFollows(fs, launcher, q, 40);
      }
      if IsAlias(fs, p, launcher) {
        assert LeadsTo(fs, launcher, Resolve(fs, launcher, 40).value, 40);
      }
    }
  }

  /** The audit's promise, entry by entry. */
  predicate Reportable(fs: Fs, p: Path, launcher: Path) {
    && p in fs && p != launcher && KindOf(p.name).Some?
    && !(p.name == LAUNCHER_NAME && IsAlias(fs, p, launcher))
  }

  function EntryFor(fs: Fs, p: Path): Shadow
    requires p in fs && KindOf(p.name).Some?
  {
    Shadow(p, if fs[p].Link? then Some(fs[p].target) else None, KindOf(p.name).value)
  }

  /** `out` holds one entry for each reportable path among those seen, and nothing else. */
  ghost predicate Reports(fs: Fs, launcher: Path, seen: set<Path>, out: seq<Shadow>) {
    && (forall i :: 0 <= i < |out| ==> out[i].path in seen && Reportable(fs, out[i].path, launcher)
                                       && out[i] == EntryFor(fs, out[i].path))
    && (forall p :: p in seen && Reportable(fs, p, launcher) ==> EntryFor(fs, p) in out)
    && (forall i, j :: 0 <= i < j < |out| ==> out[i].path != out[j].path)
  }

  /** The paths an audit of these PATH directories looks at: the canonical name in each,
      and what reading the directory lists, which is nothing if it cannot be read. */
  ghost predicate Looks(listed: set<Path>, dirs: seq<string>, p: Path) {
    p.dir in dirs && KindOf(p.name).Some? && (p in listed || p.name == LAUNCHER_NAME)
  }

  class Auditor {
    const fs: Fs
    const listed: set<Path>
    const launcher: Path
    var seen: set<Path>
    var out: seq<Shadow>

    constructor (fs: Fs, listed: set<Path>, launcher: Path)
      ensures this.fs == fs && this.listed == listed && this.launcher == launcher && seen == {} && out == []
    {
      this.fs, this.listed, this.launcher := fs, listed, launcher;
      seen, out := {}, [];
    }

    /** `push_shadow`. */
    method PushShadow(candidate: Path, kind: Kind)
      requires KindOf(candidate.name) == Some(kind)
      requires Reports(fs, launcher, seen, out)
      modifies this
      ensures Reports(fs, launcher, seen, out)
      ensures seen == old(seen) + if candidate == launcher then {} else {candidate}
    {
      if candidate == launcher { return; }
      if candidate in seen { return; }
      seen := seen + {candidate};
      if candidate !in fs { return; }
      var symlinkTarget := if fs[candidate].Link? then Some(fs[candidate].target) else None;
      if kind == Canonical && symlinkTarget.Some? {
        var absolute := Resolve(fs, symlinkTarget.value, SYMLINK_LIMIT);
        var launcherAbs := Resolve(fs, launcher, SYMLINK_LIMIT);
        if absolute.Some? && launcherAbs.Some? && absolute == launcherAbs { return; }
      }
      out := out + [Shadow(candidate, symlinkTarget, kind)];
    }

    /** `audit_shadows`: per directory the canonical name, then its siblings in
        whatever order the directory yields them. */
    method AuditShadows(dirs: seq<string>)
      requires seen == {} && out == []
      modifies this
      ensures Reports(fs, launcher, seen, out) && Audited(fs, out, launcher)
      ensures forall p :: Looks(listed, dirs, p) && p != launcher ==> p in seen
      ensures forall p :: p in seen ==> Looks(listed, dirs, p)
    {
      for i := 0 to |dirs|
        invariant Reports(fs, launcher, seen, out)
        invariant forall p :: Looks(listed, dirs[..i], p) && p != launcher ==> p in seen
        invariant forall p :: p in seen ==> Looks(listed, dirs[..i], p)
      {
        assert dirs[..i + 1] == dirs[..i] + [dirs[i]];
        PushShadow(Path(dirs[i], LAUNCHER_NAME), Canonical);
        ghost var before := seen;
        var entries := set p | p in listed && p.dir == dirs[i];
        var left := entries;
        while left != {}
          invariant left <= entries
          invariant Reports(fs, launcher, seen, out)
          invariant before <= seen
          invariant forall p :: p in entries - left && KindOf(p.name).Some? && p != launcher ==> p in seen
          invariant forall p :: p in seen ==> p in before || (p in entries && KindOf(p.name).Some?)
        {
          var entry :| entry in left;
          left := left - {entry};
          var kind := KindOf(entry.name);
          if kind.Some? && kind.value != Canonical {
            PushShadow(entry, kind.value);
          }
        }
      }
      assert dirs[..|dirs|] == dirs;
    }
  }

  /** After a finished migration the next audit reports none of the canonical symlinks
      it repointed, so adopting again has nothing left to do for them. */
  lemma MigratedShadowsConverge(fs: Fs, repoint: seq<Path>, launcher: Path)
    requires Converged(fs, repoint, launcher)
    requires Resolve(fs, launcher, SYMLINK_LIMIT).Some?
    ensures forall r :: r in repoint && r.name == LAUNCHER_NAME ==> !Reportable(fs, r, launcher)
  {}

  /** The entries a migration of these PATH directories repoints. */
  ghost predicate ToRepoint(fs: Fs, listed: set<Path>, dirs: seq<string>, launcher: Path, p: Path) {
    Looks(listed, dirs, p) && Reportable(fs, p, launcher) && fs[p].Link?
  }

  /** The entries it renames. */
  ghost predicate ToRename(fs: Fs, listed: set<Path>, dirs: seq<string>, launcher: Path, p: Path) {
    Looks(listed, dirs, p) && Reportable(fs, p, launcher) && fs[p].File?
  }

  /** No regular file sits at the aside name of an entry to repoint. */
  ghost predicate AsidesFree(fs: Fs, listed: set<Path>, dirs: seq<string>, launcher: Path) {
    forall p :: ToRepoint(fs, listed, dirs, launcher, p) ==> Aside(p) !in Files(fs)
  }

  /** An audit and its plan repoint exactly those. */
  lemma PlanRepoints(fs: Fs, listed: set<Path>, dirs: seq<string>, launcher: Path, seen: set<Path>, out: seq<Shadow>,
                     suffix: string)
    requires Reports(fs, launcher, seen, out)
    requires forall p :: Looks(listed, dirs, p) && p != launcher ==> p in seen
    requires forall p :: p in seen ==> Looks(listed, dirs, p)
    ensures forall p :: p in PlanOf(out, suffix).repoint <==> ToRepoint(fs, listed, dirs, launcher, p)
    ensures forall m :: m in PlanOf(out, suffix).preserve
                        <==> m.1 == Bak(m.0, suffix) && ToRename(fs, listed, dirs, launcher, m.0)
  {
    PlanMembers(out, suffix);
    forall m: (Path, Path)
      ensures m in PlanOf(out, suffix).preserve
              <==> m.1 == Bak(m.0, suffix) && ToRename(fs, listed, dirs, launcher, m.0)
    {
      if m.1 == Bak(m.0, suffix) && ToRename(fs, listed, dirs, launcher, m.0) {
        assert EntryFor(fs, m.0) in out && EntryFor(fs, m.0).path == m.0;
      }
      if m in PlanOf(out, suffix).preserve {
        var s :| s in out && s.path == m.0 && s.symlinkTarget.None?;
        var i :| 0 <= i < |out| && out[i] == s;
        assert out[i] == EntryFor(fs, out[i].path) && Looks(listed, dirs, m.0);
      }
    }
    forall p
      ensures p in PlanOf(out, suffix).repoint <==> ToRepoint(fs, listed, dirs, launcher, p)
    {
      if ToRepoint(fs, listed, dirs, launcher, p) {
        assert Looks(listed, dirs, p);
        assert EntryFor(fs, p) in out && EntryFor(fs, p).path == p;
      }
      if p in PlanOf(out, suffix).repoint {
        var s :| s in out && s.path == p && s.symlinkTarget.Some?;
        var i :| 0 <= i < |out| && out[i] == s;
        assert out[i] == EntryFor(fs, out[i].path) && Looks(listed, dirs, p);
      }
    }
  }

  /** What an audit reports is there, each entry once. */
  lemma {:induction false} AuditedOnce(fs: Fs, launcher: Path, seen: set<Path>, out: seq<Shadow>, suffix: string)
    requires Reports(fs, launcher, seen, out)
    ensures SourcesThere(fs, PlanOf(out, suffix).preserve)
  {
    PlanSources(out, suffix);
    PlanMembers(out, suffix);
    var preserve := PlanOf(out, suffix).preserve;
    forall i | 0 <= i < |preserve|
      ensures preserve[i].0 in fs
    {
      assert preserve[i] in preserve;
    }
  }

  /** Different shadows to rename, different sources. */
  lemma {:induction false} PlanSources(shadows: seq<Shadow>, suffix: string)
    requires forall i, j :: 0 <= i < j < |shadows| ==> shadows[i].path != shadows[j].path
    ensures OnceEach(PlanOf(shadows, suffix).preserve)
  {
    if shadows != [] {
      var init, last := shadows[..|shadows| - 1], shadows[|shadows| - 1];
      PlanSources(init, suffix);
      PlanMembers(init, suffix);
      var before := PlanOf(init, suffix).preserve;
      forall i | 0 <= i < |before|
        ensures before[i].0 != last.path
      {
        assert before[i] in before;
        var s :| s in init && s.path == before[i].0;
        var k :| 0 <= k < |init| && init[k] == s;
        assert shadows[k] == s;
      }
      OneMoreSource(before, (last.path, Bak(last.path, suffix)));
    }
  }

  lemma OneMoreSource(before: seq<(Path, Path)>, m: (Path, Path))
    requires OnceEach(before) && forall i :: 0 <= i < |before| ==> before[i].0 != m.0
    ensures OnceEach(before + [m])
  {}

  /** Audit, plan, apply: files are conserved when no regular file is in the way, and if
      the migration finishes only then; and a finished one leaves nothing canonical to
      repoint. */
  method Migrate(entries: PathEntries, listed: set<Path>, dirs: seq<string>, launcher: Path, date: string)
    returns (ok: bool, plan: Plan)
    requires IsDate(date)
    modifies entries
    ensures forall p :: p in plan.repoint <==> ToRepoint(old(entries.fs), listed, dirs, launcher, p)
    ensures forall m :: m in plan.preserve
                        <==> m.1 == Bak(m.0, date) && ToRename(old(entries.fs), listed, dirs, launcher, m.0)
    ensures ok ==> entries.fs == Preserved(Repointed(old(entries.fs), plan.repoint, launcher), plan.preserve)
    ensures AsidesFree(old(entries.fs), listed, dirs, launcher)
            ==> Contents(Files(entries.fs)) == Contents(Files(old(entries.fs)))
    ensures ok ==> (Contents(Files(entries.fs)) == Contents(Files(old(entries.fs)))
                    <==> AsidesFree(old(entries.fs), listed, dirs, launcher))
    ensures ok && Resolve(entries.fs, launcher, SYMLINK_LIMIT).Some? ==>
              forall p :: ToRepoint(old(entries.fs), listed, dirs, launcher, p) && p.name == LAUNCHER_NAME
                          ==> !Reportable(entries.fs, p, launcher)
    ensures entries.faults == old(entries.faults) ==> ok
  {
    ghost var fs0 := entries.fs;
    var auditor := new Auditor(entries.fs, listed, launcher);
    auditor.AuditShadows(dirs);
    plan := PlanMigration(auditor.out, date);
    PlanMembers(auditor.out, date);
    PlanRepoints(fs0, listed, dirs, launcher, auditor.seen, auditor.out, date);
    assert AsidesFree(fs0, listed, dirs, launcher) <==> forall r :: r in plan.repoint ==> Aside(r) !in Files(fs0);
    AuditedOnce(fs0, launcher, auditor.seen, auditor.out, date);
    ok := entries.ApplyPlan(plan, launcher, date);
    if ok && Resolve(entries.fs, launcher, SYMLINK_LIMIT).Some? {
      MigratedShadowsConverge(entries.fs, plan.repoint, launcher);
    }
  }
}
