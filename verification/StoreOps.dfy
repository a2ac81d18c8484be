/** The store as an object: each file-system call updates `tree` in place and records
    the new state, or fails, which is counted. */
module StoreOps {
  import opened Options
  import opened VersionNames
  import opened VersionStore
  import opened PruneRule

  // ---- claims about every recorded state ----

  ghost predicate AllTmp(t0: Tree, h: seq<Tree>, from: nat, v: string) {
    forall i :: from <= i < |h| ==> OnlyTmpDiffers(t0, h[i], v)
  }

  ghost predicate AllInstall(t0: Tree, h: seq<Tree>, from: nat, v: string, payload: Bytes) {
    forall i :: from <= i < |h| ==> OnlyTmpDiffers(t0, h[i], v) || InstalledAt(t0, h[i], v, payload)
  }

  ghost predicate AllFlip(t0: Tree, h: seq<Tree>, from: nat, version: string) {
    forall i :: from <= i < |h| ==> OnlyBinTmpDiffers(t0, h[i]) || Flipped(t0, h[i], version)
  }

  ghost predicate AllBinTmp(t0: Tree, h: seq<Tree>, from: nat) {
    forall i :: from <= i < |h| ==> OnlyBinTmpDiffers(t0, h[i])
  }

  /** Version directory `v` may have lost entries or be gone; nothing else changed. */
  ghost predicate Shrunk(t0: Tree, t: Tree, v: string) {
    && t.bin == t0.bin && t.versions.Some?
    && Versions(t) - {v} == Versions(t0) - {v}
    && Versions(t).Keys <= Versions(t0).Keys
  }

  ghost predicate AllShrunk(t0: Tree, h: seq<Tree>, from: nat, v: string) {
    forall i :: from <= i < |h| ==> Shrunk(t0, h[i], v)
  }

  ghost predicate AllPruned(t0: Tree, h: seq<Tree>, from: nat) {
    forall i :: from <= i < |h| ==> OnlyPruned(t0, h[i])
  }

  /** Every state recorded since `from` has a launcher that runs one of `good`. */
  ghost predicate AllLaunch(h: seq<Tree>, from: nat, good: set<Bytes>) {
    forall i :: from <= i < |h| ==> Launches(h[i]).Some? && Launches(h[i]).value in good
  }

  lemma TmpThenTmp(a: Tree, b: Tree, h: seq<Tree>, from: nat, v: string)
    requires OnlyTmpDiffers(a, b, v) && AllTmp(b, h, from, v)
    ensures AllTmp(a, h, from, v)
  {}

  lemma TmpThenInstalled(a: Tree, b: Tree, c: Tree, v: string, payload: Bytes)
    requires OnlyTmpDiffers(a, b, v) && InstalledAt(b, c, v, payload)
    ensures InstalledAt(a, c, v, payload)
  {}

  lemma InstallEnds(t0: Tree, h: seq<Tree>, from: nat, t: Tree, v: string, payload: Bytes)
    requires AllTmp(t0, h, from, v) && InstalledAt(t0, t, v, payload)
    ensures AllInstall(t0, h + [t], from, v, payload)
  {}

  class Store {
    var tree: Tree
    ghost var history: seq<Tree>
    ghost var faults: nat

    ghost predicate Valid()
      reads this
    {
      history != [] && history[|history| - 1] == tree
    }

    constructor (t: Tree)
      ensures Valid() && tree == t && history == [t]
    {
      tree, history, faults := t, [t], 0;
    }

    /** Whether the file system grants the next call. */
    method Granted() returns (ok: bool)
      modifies this`faults
      ensures faults == old(faults) + if ok then 0 else 1
    {
      ok := *;
      if !ok {
        faults := faults + 1;
      }
    }

    method Put(t: Tree)
      modifies this`tree, this`history
      ensures Valid() && tree == t && history == old(history) + [t]
    {
      tree := t;
      history := history + [t];
    }

    // ---- system calls ----

    /** `create_dir_all(versions/<v>)`. */
    method CreateVersionDir(v: string) returns (ok: bool)
      requires Valid()
      modifies this
      ensures Valid() && old(history) <= history
      ensures AllTmp(old(tree), history, |old(history)|, v) && OnlyTmpDiffers(old(tree), tree, v)
      ensures ok ==> v in Versions(tree)
      ensures Lookup(tree, v, TMP) == Lookup(old(tree), v, TMP)
      ensures faults >= old(faults) && (ok <==> faults == old(faults))
    {
      if tree.versions.None? {
        ok := Granted();
        if !ok { return; }
        Put(tree.(versions := Some(map[])));
      }
      if v !in tree.versions.value {
        ok := Granted();
        if !ok { return; }
        Put(tree.(versions := Some(tree.versions.value[v := map[]])));
      }
      return true;
    }

    /** `fs::write(.oxios.tmp)`: create or truncate, then write; a crash in between
        leaves any prefix of the data. A symlink at that name is not followed here. */
    method WriteTmp(v: string, data: Bytes) returns (ok: bool)
      requires Valid() && v in Versions(tree)
      modifies this
      ensures Valid() && old(history) <= history
      ensures AllTmp(old(tree), history, |old(history)|, v) && OnlyTmpDiffers(old(tree), tree, v)
      ensures v in Versions(tree)
      ensures ok ==> exists mode :: Lookup(tree, v, TMP) == Some(File(data, mode))
      ensures faults >= old(faults)
      ensures ok <==> faults == old(faults) && !TempIsLink(old(tree), v)
    {
      var dir := tree.versions.value[v];
      if TMP in dir && dir[TMP].Link? { return false; }
      ok := Granted();
      if !ok { return; }
      var mode := if TMP in dir then dir[TMP].mode else MODE_DEFAULT;
      PutTmp(v, File([], mode));
      var written: nat :| written <= |data|;
      PutTmp(v, File(data[..written], mode));
      ok := Granted();
      if !ok { return; }
      PutTmp(v, File(data, mode));
    }

    method PutTmp(v: string, node: Node)
      requires Valid() && v in Versions(tree)
      modifies this`tree, this`history
      ensures Valid() && history == old(history) + [tree]
      ensures OnlyTmpDiffers(old(tree), tree, v)
      ensures v in Versions(tree) && Lookup(tree, v, TMP) == Some(node)
    {
      var versions := tree.versions.value;
      Put(tree.(versions := Some(versions[v := versions[v][TMP := node]])));
    }

    /** `set_permissions(.oxios.tmp, 0o755)`. */
    method ChmodTmp(v: string) returns (ok: bool)
      requires Valid() && v in Versions(tree)
      modifies this
      ensures Valid() && old(history) <= history
      ensures AllTmp(old(tree), history, |old(history)|, v) && OnlyTmpDiffers(old(tree), tree, v)
      ensures v in Versions(tree)
      ensures ok ==> exists data, mode :: Lookup(old(tree), v, TMP) == Some(File(data, mode))
                                          && Lookup(tree, v, TMP) == Some(File(data, MODE_0755))
      ensures faults >= old(faults)
      ensures ok <==> faults == old(faults) && TempIsFile(old(tree), v)
    {
      var dir := tree.versions.value[v];
      if TMP !in dir || dir[TMP].Link? { return false; }
      ok := Granted();
      if !ok { return; }
      PutTmp(v, dir[TMP].(mode := MODE_0755));
    }

    /** `rename(.oxios.tmp, oxios)` inside a version directory: one atomic step. */
    method RenameTmp(v: string, ghost data: Bytes) returns (ok: bool)
      requires Valid() && v in Versions(tree)
      requires Lookup(tree, v, TMP) == Some(File(data, MODE_0755))
      modifies this
      ensures Valid()
      ensures ok ==> InstalledAt(old(tree), tree, v, data) && history == old(history) + [tree]
      ensures !ok ==> tree == old(tree) && history == old(history)
      ensures faults >= old(faults) && (ok <==> faults == old(faults))
    {
      ok := Granted();
      if !ok { return; }
      var versions := tree.versions.value;
      var dir := versions[v];
      Put(tree.(versions := Some(versions[v := (dir - {TMP})[BINARY := dir[TMP]]])));
    }

    // ---- install ----

    /** The loop over the archive: members are checked in order, and the binary goes to
        the temp file. `t0` and `from` are where the install began. */
    method ExtractBinary(version: string, members: seq<Member>, ghost t0: Tree, ghost from: nat)
      returns (error: Option<InstallError>, ghost payload: Bytes)
      requires Valid() && version in Versions(tree)
      requires OnlyTmpDiffers(t0, tree, version) && AllTmp(t0, history, from, version)
      modifies this
      ensures Valid() && old(history) <= history && version in Versions(tree)
      ensures OnlyTmpDiffers(t0, tree, version) && AllTmp(t0, history, from, version)
      ensures error.Some? ==> (error.value == Io || Refused(error.value)) && Explains(error.value, members)
      ensures error.None? ==> SoleBinary(members, payload) && !TempIsLink(old(tree), version)
      ensures faults >= old(faults)
      ensures faults > old(faults) || TempIsLink(old(tree), version) || error != Some(Io)
      ensures error != Some(Io) ==> faults == old(faults)
      ensures error.None? ==> exists mode :: Lookup(tree, version, TMP) == Some(File(payload, mode))
    {
      payload := [];
      var found := false;
      ghost var at := 0;
      for i := 0 to |members|
        invariant Valid() && old(history) <= history && version in Versions(tree)
        invariant OnlyTmpDiffers(t0, tree, version) && AllTmp(t0, history, from, version)
        invariant forall j :: 0 <= j < i ==> !Intrudes(members, j) && !Undecodable(members, j)
        invariant faults == old(faults) && (!found ==> tree == old(tree))
        invariant found ==> !TempIsLink(old(tree), version)
        invariant !found ==> forall j :: 0 <= j < i ==> IsNoise(members[j])
        invariant found ==> at < i && members[at] == Member([BINARY], payload)
        invariant found ==> forall j :: 0 <= j < i && j != at ==> IsNoise(members[j])
        invariant found ==> exists mode :: Lookup(tree, version, TMP) == Some(File(payload, mode))
      {
        forall j | 0 <= j <= i
          ensures !(IsNoise(members[j]) && IsBinary(members[j]))
        {
          NoiseIsNoBinary(members[j]);
        }
        if members[i].Unreadable? {
          assert BreaksAt(members, i);
          return Some(BadArchive), payload;
        }
        if IsNoise(members[i]) { continue; }
        if !IsBinary(members[i]) {
          assert BreaksAt(members, i) && Intrudes(members, i);
          return Some(UnexpectedMember), payload;
        }
        if found {
          assert IsBinary(members[at]) && Intrudes(members, i) && BreaksAt(members, i);
          return Some(UnexpectedMember), payload;
        }
        if members[i].CutOff? {
          assert Undecodable(members, i) && BreaksAt(members, i);
          return Some(BadArchive), payload;
        }
        found, at := true, i;
        ghost var before, seen := tree, |history|;
        payload := members[i].data;
        var ok := WriteTmp(version, members[i].data);
        TmpThenTmp(t0, before, history, seen, version);
        if !ok { return Some(Io), payload; }
      }
      error := if found then None else Some(NoBinary);
    }

    /** `install_version_bytes`: only the final rename touches `versions/<v>/oxios`. */
    method InstallVersionBytes(version: string, members: seq<Member>)
      returns (r: Result<string, InstallError>, ghost payload: Bytes)
      requires Valid()
      modifies this
      ensures Valid() && old(history) <= history
      ensures r == Err(BadVersion) <==> ParseVersionDir(version).None?
      ensures r.Err? ==> Explains(r.error, members) && (Refused(r.error) ==> version in Versions(tree))
      ensures r.Err? ==> OnlyTmpDiffers(old(tree), tree, version)
      ensures r.Err? ==> AllTmp(old(tree), history, |old(history)|, version)
      ensures r.Ok? ==> r.value == version && SoleBinary(members, payload)
      ensures r.Ok? ==> InstalledAt(old(tree), tree, version, payload)
      ensures r.Ok? ==> AllInstall(old(tree), history, |old(history)|, version, payload)
      ensures faults >= old(faults)
      ensures r.Ok? <==> Installable(old(tree), version, members) && faults == old(faults)
      ensures r.Err? && r.error != Io ==> faults == old(faults) && (r.error == BadVersion || Refused(r.error))
      ensures r == Err(Io) ==> faults > old(faults) || TempIsLink(old(tree), version)
    {
      payload := [];
      if ParseVersionDir(version).None? {
        return Err(BadVersion), payload;
      }
      ghost var t0, from := tree, |history|;
      var ok := CreateVersionDir(version);
      if !ok { return Err(Io), payload; }
      var error;
      error, payload := ExtractBinary(version, members, t0, from);
      if error.Some? {
        NotInstallable(t0, version, members, error.value, faults > old(faults));
        return Err(error.value), payload;
      }
      assert Installable(t0, version, members);
      ok := PromoteTmp(version, payload, t0, from);
      if !ok { return Err(Io), payload; }
      return Ok(version), payload;
    }

    /** The temp file made executable and renamed to the binary. */
    method PromoteTmp(version: string, ghost payload: Bytes, ghost t0: Tree, ghost from: nat) returns (ok: bool)
      requires Valid() && version in Versions(tree)
      requires OnlyTmpDiffers(t0, tree, version) && AllTmp(t0, history, from, version)
      requires exists mode :: Lookup(tree, version, TMP) == Some(File(payload, mode))
      modifies this
      ensures Valid() && old(history) <= history
      ensures ok ==> InstalledAt(t0, tree, version, payload) && AllInstall(t0, history, from, version, payload)
      ensures !ok ==> OnlyTmpDiffers(t0, tree, version) && AllTmp(t0, history, from, version) && version in Versions(tree)
      ensures faults >= old(faults) && (ok <==> faults == old(faults))
    {
      ghost var before, seen := tree, |history|;
      ok := ChmodTmp(version);
      TmpThenTmp(t0, before, history, seen, version);
      if !ok { return; }
      before := tree;
      ghost var h := history;
      ok := RenameTmp(version, payload);
      if !ok { return; }
      TmpThenInstalled(t0, before, tree, version, payload);
      InstallEnds(t0, h, from, tree, version, payload);
    }

    // ---- flip ----

    /** `create_dir_all(bin)`, and a leftover at the temp name removed. */
    method ClearBinTmp() returns (ok: bool)
      requires Valid()
      modifies this
      ensures Valid() && old(history) <= history
      ensures AllBinTmp(old(tree), history, |old(history)|) && OnlyBinTmpDiffers(old(tree), tree)
      ensures ok ==> tree.bin.Some? && TMP !in tree.bin.value
      ensures faults >= old(faults) && (ok <==> faults == old(faults))
    {
      if tree.bin.None? {
        ok := Granted();
        if !ok { return; }
        Put(tree.(bin := Some(map[])));
      }
      if TMP in tree.bin.value {
        ok := Granted();
        if !ok { return; }
        Put(tree.(bin := Some(tree.bin.value - {TMP})));
      }
      return true;
    }

    /** `flip_launcher`: a fresh temp symlink renamed over the launcher. Removing a leftover
        may fail unnoticed, but then the symlink finds its name taken. */
    method FlipLauncher(version: string) returns (ok: bool)
      requires Valid()
      modifies this
      ensures Valid() && old(history) <= history
      ensures AllFlip(old(tree), history, |old(history)|, version)
      ensures ok ==> Flipped(old(tree), tree, version)
      ensures !ok ==> OnlyBinTmpDiffers(old(tree), tree)
      ensures faults >= old(faults) && (ok <==> faults == old(faults))
    {
      ok := ClearBinTmp();
      if !ok { return; }
      ok := Granted();
      if !ok { return; }
      Put(tree.(bin := Some(tree.bin.value[TMP := Link(FlipTarget(version))])));
      ok := Granted();
      if !ok { return; }
      var bin := tree.bin.value;
      Put(tree.(bin := Some((bin - {TMP})[BINARY := bin[TMP]])));
    }

    // ---- listing, prune, rollback ----

    /** The names a `read_dir` yields, in whatever order the file system has them. */
    method Enumerate(entries: set<string>) returns (names: seq<string>)
      ensures Elements(names) == entries
      ensures forall i, j :: 0 <= i < j < |names| ==> names[i] != names[j]
    {
      names := [];
      var left := entries;
      while left != {}
        invariant left <= entries
        invariant Elements(names) == entries - left
        invariant forall i, j :: 0 <= i < j < |names| ==> names[i] != names[j]
      {
        var n :| n in left;
        AppendElements(names, n);
        assert n !in Elements(names);
        names, left := names + [n], left - {n};
      }
    }

    /** One entry of a version directory. */
    method RemoveEntry(v: string, name: string) returns (ok: bool)
      requires Valid() && v in Versions(tree) && name in Versions(tree)[v]
      modifies this
      ensures Valid()
      ensures ok ==> history == old(history) + [tree] && Shrunk(old(tree), tree, v)
      ensures ok ==> v in Versions(tree) && Versions(tree)[v] == Versions(old(tree))[v] - {name}
      ensures !ok ==> tree == old(tree) && history == old(history)
      ensures faults >= old(faults) && (ok <==> faults == old(faults))
    {
      ok := Granted();
      if !ok { return; }
      var versions := tree.versions.value;
      PutVersions(versions[v := versions[v] - {name}]);
    }

    /** `remove_dir_all(versions/<v>)`: entries go one by one, then the directory. */
    method RemoveVersionDir(v: string) returns (ok: bool)
      requires Valid() && v in Versions(tree)
      modifies this
      ensures Valid() && old(history) <= history
      ensures Shrunk(old(tree), tree, v) && AllShrunk(old(tree), history, |old(history)|, v)
      ensures ok ==> Versions(tree) == Versions(old(tree)) - {v}
      ensures faults >= old(faults) && (ok <==> faults == old(faults))
    {
      ghost var t0 := tree;
      ok := EmptyVersionDir(v);
      if !ok { return; }
      ok := Granted();
      if !ok { return; }
      ghost var emptied := tree;
      PutVersions(tree.versions.value - {v});
      ShrunkTwice(t0, emptied, tree, v);
    }

    method EmptyVersionDir(v: string) returns (ok: bool)
      requires Valid() && v in Versions(tree)
      modifies this
      ensures Valid() && old(history) <= history && v in Versions(tree)
      ensures Shrunk(old(tree), tree, v) && AllShrunk(old(tree), history, |old(history)|, v)
      ensures faults >= old(faults) && (ok <==> faults == old(faults))
    {
      ghost var t0, from := tree, |history|;
      while tree.versions.value[v] != map[]
        invariant Valid() && old(history) <= history && v in Versions(tree)
        invariant Shrunk(t0, tree, v) && AllShrunk(t0, history, from, v)
        invariant faults == old(faults)
        decreases |tree.versions.value[v]|
      {
        var name :| name in tree.versions.value[v];
        ghost var before := tree;
        ok := RemoveEntry(v, name);
        if !ok { return; }
        ShrunkTwice(t0, before, tree, v);
      }
      return true;
    }

    method PutVersions(versions: map<string, Dir>)
      requires Valid()
      modifies this`tree, this`history
      ensures Valid() && history == old(history) + [tree]
      ensures tree == old(tree).(versions := Some(versions))
    {
      Put(tree.(versions := Some(versions)));
    }

    /** `prune_versions`: drop all but the `keep` newest, never the launcher's target. */
    method PruneVersions(keep: nat) returns (r: Result<seq<string>, InstallError>)
      requires Valid()
      modifies this
      ensures Valid() && old(history) <= history
      ensures AllPruned(old(tree), history, |old(history)|) && OnlyPruned(old(tree), tree)
      ensures r.Ok? ==> Versions(tree).Keys
                        == Survivors(Versions(old(tree)).Keys, keep, CurrentTarget(old(tree)))
      ensures r.Ok? ==> Versions(tree) == Versions(old(tree)) - Elements(r.value) && NewestFirst(r.value)
      ensures faults >= old(faults) && (r.Err? ==> r.error == Io)
      ensures r.Ok? <==> old(tree).versions.Some? && faults == old(faults)
    {
      if tree.versions.None? { return Err(Io); }
      var listed := Granted();
      if !listed { return Err(Io); }
      var names := Enumerate(Versions(tree).Keys);
      var parsed := Numbered(names);
      var installed := SortNewestFirst(parsed);
      SortSorts(parsed);
      PrunedByRank(Versions(tree).Keys, parsed, installed, keep, CurrentTarget(tree));
      SkipSorted(installed, keep);
      NewestFirstIsDistinct(Skip(installed, keep));
      DoomedSorted(Skip(installed, keep), CurrentTarget(tree));
      forall i | 0 <= i < |Skip(installed, keep)|
        ensures Skip(installed, keep)[i] in Versions(tree)
      {
        assert Skip(installed, keep)[i] in Elements(Skip(installed, keep));
      }
      r := RemoveAll(Skip(installed, keep), CurrentTarget(tree));
    }

    /** One round of that loop, on a tree that was only pruned since `t0`. */
    method RemoveCandidate(name: string, ghost t0: Tree, ghost from: nat) returns (ok: bool)
      requires Valid() && tree.versions.Some? && name in Versions(tree)
      requires tree == t0.(versions := tree.versions) && Prunable(t0, name)
      requires AllPruned(t0, history, from) && OnlyPruned(t0, tree)
      modifies this
      ensures Valid() && old(history) <= history
      ensures tree == t0.(versions := tree.versions) && tree.versions.Some?
      ensures AllPruned(t0, history, from) && OnlyPruned(t0, tree)
      ensures ok ==> Versions(tree) == Versions(old(tree)) - {name}
      ensures faults >= old(faults) && (ok <==> faults == old(faults))
    {
      ghost var before, seen := tree, |history|;
      ok := RemoveVersionDir(name);
      RemovalPrunes(t0, before, history, seen, name);
      RemovalPrunesOne(t0, before, tree, name);
    }

    /** The loop of `prune_versions` over the directories past the newest `keep`. */
    method RemoveAll(candidates: seq<string>, protect: Option<string>)
      returns (r: Result<seq<string>, InstallError>)
      requires Valid() && tree.versions.Some? && protect == CurrentTarget(tree)
      requires Distinct(candidates) && AllInstalled(tree, candidates)
      modifies this
      ensures Valid() && old(history) <= history
      ensures AllPruned(old(tree), history, |old(history)|) && OnlyPruned(old(tree), tree)
      ensures r.Ok? ==> Versions(tree) == Versions(old(tree)) - Elements(r.value)
      ensures r.Ok? ==> r.value == Doomed(candidates, protect)
      ensures faults >= old(faults) && (r.Err? ==> r.error == Io) && (r.Ok? <==> faults == old(faults))
    {
      var removed: seq<string> := [];
      ghost var t0, from := tree, |history|;
      for i := 0 to |candidates|
        invariant Valid() && old(history) <= history
        invariant tree == t0.(versions := tree.versions) && tree.versions.Some?
        invariant removed == Doomed(candidates[..i], protect)
        invariant Versions(tree) == Versions(t0) - Elements(removed)
        invariant AllPruned(t0, history, from) && OnlyPruned(t0, tree)
        invariant faults == old(faults)
      {
        var name := candidates[i];
        NextCandidate(Versions(t0), candidates, i, protect);
        if protect != Some(name) {
          var ok := RemoveCandidate(name, t0, from);
          if !ok { return Err(Io); }
          removed := removed + [name];
        }
      }
      assert candidates[..|candidates|] == candidates;
      return Ok(removed);
    }

    /** `rollback_target`: one pass over the directory, keeping the best so far. Entries in
        `unread` are those the listing fails to yield; they are skipped without a word. */
    method RollbackTarget(unread: set<string>) returns (best: Option<string>)
      ensures CurrentTarget(tree).None? ==> best == None
      ensures CurrentTarget(tree).Some? ==>
                IsRollbackPick(Versions(tree).Keys - unread, CurrentTarget(tree).value, best)
    {
      var current := CurrentTarget(tree);
      if current.None? { return None; }
      var names := Enumerate(Versions(tree).Keys - unread);
      best := None;
      for i := 0 to |names|
        invariant IsRollbackPick(Elements(names[..i]), current.value, best)
      {
        assert names[..i + 1] == names[..i] + [names[i]];
        AppendElements(names[..i], names[i]);
        PickFromOneMore(Elements(names[..i]), current.value, best, names[i]);
        var parsed := ParseVersionDir(names[i]);
        if parsed.Some? && VersionLess(parsed.value, ParseVersionDir(current.value).value)
           && (best.None? || VersionLess(ParseVersionDir(best.value).value, parsed.value)) {
          best := Some(names[i]);
        }
      }
      assert names[..|names|] == names;
    }

    /** The rollback arm of `run_update`: pick, then flip; nothing else runs. It goes through
        whenever there is something to go back to and no call fails. */
    method Rollback(unread: set<string>) returns (r: Result<string, InstallError>)
      requires Valid()
      modifies this
      ensures Valid() && old(history) <= history
      ensures tree.versions == old(tree).versions
      ensures r == Err(NoPrevious) <==> !CanRollBack(old(tree), unread)
      ensures faults >= old(faults)
      ensures r.Ok? <==> CanRollBack(old(tree), unread) && faults == old(faults)
      ensures r.Err? ==> r.error == NoPrevious || r.error == Io
      ensures r.Ok? ==> IsRollbackPick(Versions(tree).Keys - unread, CurrentTarget(old(tree)).value, Some(r.value))
                        && CurrentTarget(tree) == Some(r.value)
      ensures r.Ok? ==> (Launches(tree).Some? <==>
                         exists bytes :: Lookup(old(tree), r.value, BINARY) == Some(File(bytes, MODE_0755)))
      ensures r.Err? ==> Launches(tree) == Launches(old(tree)) && CurrentTarget(tree) == CurrentTarget(old(tree))
    {
      var pick := RollbackTarget(unread);
      if pick.None? { return Err(NoPrevious); }
      ghost var t0 := tree;
      assert pick.value in Lower(Versions(t0).Keys - unread, CurrentTarget(t0).value);
      var ok := FlipLauncher(pick.value);
      if !ok { return Err(Io); }
      FlipLaunchesTarget(t0, tree, pick.value);
      return Ok(pick.value);
    }

    /** Install, flip, prune, as `run_update` chains them after the download. */
    method Update(version: string, members: seq<Member>)
      returns (r: Result<seq<string>, InstallError>, ghost payload: Bytes)
      requires Valid()
      modifies this
      ensures Valid() && old(history) <= history
      ensures Launches(old(tree)).Some? ==>
                AllLaunch(history, |old(history)|, {Launches(old(tree)).value, payload})
      ensures r.Ok? ==> SoleBinary(members, payload) && Launches(tree) == Some(payload)
                        && CurrentTarget(tree) == Some(version)
      ensures r.Ok? ==> Versions(tree).Keys
                        == Survivors(Versions(old(tree)).Keys + {version}, 2, Some(version))
      ensures r.Ok? <==> Installable(old(tree), version, members) && faults == old(faults)
    {
      ghost var t0, from := tree, |history|;
      ghost var good := if Launches(t0).Some? then {Launches(t0).value} else {};
      var installed;
      installed, payload := InstallVersionBytes(version, members);
      InstallLaunches(t0, history, from, version, payload, installed.Ok?);
      if installed.Err? { return Err(installed.error), payload; }
      ghost var t1, h1 := tree, |history|;
      var ok := FlipLauncher(version);
      FlipLaunches(t1, history, h1, version, payload);
      assert Launches(t1) == Launches(t0) || Launches(t1) == Some(payload) by {
        InstallKeepsLauncher(t0, t1, version, payload);
      }
      if !ok { return Err(Io), payload; }
      FlipLaunchesTarget(t1, tree, version);
      ghost var t2, h2 := tree, |history|;
      r := PruneVersions(2);
      PruneLaunches(t2, history, h2);
      PruneKeepsLauncher(t2, tree);
    }
  }

  lemma ShrunkTwice(a: Tree, b: Tree, c: Tree, v: string)
    requires Shrunk(a, b, v) && Shrunk(b, c, v)
    ensures Shrunk(a, c, v)
  {}

  /** `Iterator::skip`. */
  function Skip(s: seq<string>, n: nat): seq<string> {
    if n < |s| then s[n..] else []
  }

  lemma SkipSorted(s: seq<string>, n: nat)
    requires NewestFirst(s)
    ensures NewestFirst(Skip(s, n)) && Elements(Skip(s, n)) <= Elements(s)
  {}

  lemma SkipMembers(s: seq<string>, n: nat, i: nat)
    requires Distinct(s) && i < |s|
    ensures s[i] in Skip(s, n) <==> i >= n
  {}

  lemma AppendElements(s: seq<string>, x: string)
    ensures Elements(s + [x]) == Elements(s) + {x}
  {}

  /** A symlink sits at the temp name of a version directory. */
  predicate TempIsLink(t: Tree, v: string) {
    Lookup(t, v, TMP).Some? && Lookup(t, v, TMP).value.Link?
  }

  predicate TempIsFile(t: Tree, v: string) {
    Lookup(t, v, TMP).Some? && Lookup(t, v, TMP).value.File?
  }

  /** All an install needs besides a file system that grants its calls. */
  ghost predicate Installable(t: Tree, version: string, members: seq<Member>) {
    && ParseVersionDir(version).Some? && !TempIsLink(t, version)
    && exists payload :: SoleBinary(members, payload)
  }

  lemma NotInstallable(t: Tree, version: string, members: seq<Member>, e: InstallError, failed: bool)
    requires Refused(e) || e == Io
    requires Explains(e, members) && (e == Io ==> failed || TempIsLink(t, version))
    ensures failed || !Installable(t, version, members)
  {
    if Refused(e) {
      forall payload
        ensures !SoleBinary(members, payload)
      {
        OneVerdict(members, payload, e, e);
      }
    }
  }

  /** There is a launcher that says which version it runs, and a listed older one. */
  ghost predicate CanRollBack(t: Tree, unread: set<string>) {
    CurrentTarget(t).Some? && Lower(Versions(t).Keys - unread, CurrentTarget(t).value) != {}
  }

  /** One step of the rollback scan keeps the best pick so far. */
  lemma PickFromOneMore(seen: set<string>, current: string, best: Option<string>, n: string)
    requires ParseVersionDir(current).Some? && IsRollbackPick(seen, current, best)
    ensures best.Some? ==> ParseVersionDir(best.value).Some?
    ensures var parsed := ParseVersionDir(n);
            var better := parsed.Some? && VersionLess(parsed.value, ParseVersionDir(current).value)
                          && (best.None? || VersionLess(ParseVersionDir(best.value).value, parsed.value));
            IsRollbackPick(seen + {n}, current, if better then Some(n) else best)
  {
    assert best.Some? ==> best.value in Lower(seen, current);
    assert Lower(seen + {n}, current) == Lower(seen, current) + Lower({n}, current);
    if ParseVersionDir(n).Some? {
      VersionLessIsNumeric(ParseVersionDir(n).value, ParseVersionDir(current).value);
      if best.Some? {
        VersionLessIsNumeric(ParseVersionDir(best.value).value, ParseVersionDir(n).value);
      }
    }
  }

  /** The candidates the prune loop removes: all but the launcher's target. */
  function Doomed(candidates: seq<string>, protect: Option<string>): seq<string> {
    if candidates == [] then []
    else
      var last := candidates[|candidates| - 1];
      Doomed(candidates[..|candidates| - 1], protect) + if protect == Some(last) then [] else [last]
  }

  lemma DoomedAppend(candidates: seq<string>, n: string, protect: Option<string>)
    ensures Doomed(candidates + [n], protect)
            == Doomed(candidates, protect) + if protect == Some(n) then [] else [n]
  {}

  lemma {:induction false} DoomedMembers(candidates: seq<string>, protect: Option<string>, n: string)
    ensures n in Doomed(candidates, protect) <==> n in candidates && protect != Some(n)
  {
    if candidates != [] {
      var init := candidates[..|candidates| - 1];
      assert candidates == init + [candidates[|candidates| - 1]];
      DoomedMembers(init, protect, n);
    }
  }

  lemma {:induction false} DoomedSorted(candidates: seq<string>, protect: Option<string>)
    requires NewestFirst(candidates)
    ensures NewestFirst(Doomed(candidates, protect))
  {
    if candidates != [] {
      var init := candidates[..|candidates| - 1];
      DoomedSorted(init, protect);
      forall i | 0 <= i < |Doomed(init, protect)|
        ensures Newer(Doomed(init, protect)[i], candidates[|candidates| - 1])
      {
        DoomedMembers(init, protect, Doomed(init, protect)[i]);
      }
      SnocSorts(Doomed(init, protect), candidates[|candidates| - 1]);
    }
  }

  lemma SnocSorts(s: seq<string>, x: string)
    requires ParseVersionDir(x).Some? && NewestFirst(s)
    requires forall i :: 0 <= i < |s| ==> Newer(s[i], x)
    ensures NewestFirst(s + [x])
  {}

  lemma FreshCandidate(candidates: seq<string>, i: nat, protect: Option<string>)
    requires Distinct(candidates) && i < |candidates|
    ensures candidates[i] !in Doomed(candidates[..i], protect)
  {
    DoomedMembers(candidates[..i], protect, candidates[i]);
  }

  /** Every candidate is an installed version. */
  ghost predicate AllInstalled(t: Tree, candidates: seq<string>) {
    forall i :: 0 <= i < |candidates| ==> candidates[i] in Versions(t) && ParseVersionDir(candidates[i]).Some?
  }

  /** What the next round of the loop does to the list and to the versions. */
  lemma NextCandidate(versions: map<string, Dir>, candidates: seq<string>, i: nat, protect: Option<string>)
    requires Distinct(candidates) && i < |candidates| && candidates[i] in versions
    ensures var before, after := Doomed(candidates[..i], protect), Doomed(candidates[..i + 1], protect);
            if protect == Some(candidates[i]) then after == before
            else after == before + [candidates[i]]
                 && candidates[i] in versions - Elements(before)
                 && versions - Elements(before) - {candidates[i]} == versions - Elements(after)
  {
    assert candidates[..i + 1] == candidates[..i] + [candidates[i]];
    DoomedAppend(candidates[..i], candidates[i], protect);
    FreshCandidate(candidates, i, protect);
    AppendElements(Doomed(candidates[..i], protect), candidates[i]);
  }

  function Numbered(names: seq<string>): (r: seq<string>)
    ensures forall i :: 0 <= i < |r| ==> ParseVersionDir(r[i]).Some? && r[i] in names
    ensures forall n :: n in names && ParseVersionDir(n).Some? ==> n in r
    ensures (forall i, j :: 0 <= i < j < |names| ==> names[i] != names[j])
            ==> forall i, j :: 0 <= i < j < |r| ==> r[i] != r[j]
  {
    if names == [] then []
    else (if ParseVersionDir(names[0]).Some? then [names[0]] else []) + Numbered(names[1..])
  }

  lemma RemovalPrunesOne(t0: Tree, before: Tree, after: Tree, name: string)
    requires OnlyPruned(t0, before) && Prunable(t0, name) && Shrunk(before, after, name)
    ensures OnlyPruned(t0, after)
  {
    forall u | u in Versions(before) && u != name
      ensures u in Versions(after) && Versions(after)[u] == Versions(before)[u]
    {
      assert u in Versions(before) - {name};
      assert (Versions(before) - {name})[u] == Versions(before)[u];
      assert (Versions(after) - {name})[u] == Versions(after)[u];
    }
  }

  lemma RemovalPrunes(t0: Tree, before: Tree, h: seq<Tree>, seen: nat, name: string)
    requires OnlyPruned(t0, before) && Prunable(t0, name) && AllShrunk(before, h, seen, name)
    ensures AllPruned(t0, h, seen)
  {
    forall i | seen <= i < |h|
      ensures OnlyPruned(t0, h[i])
    {
      assert Shrunk(before, h[i], name);
      RemovalPrunesOne(t0, before, h[i], name);
    }
  }

  /** What the loop leaves is exactly what the rank rule keeps. */
  lemma PrunedByRank(names: set<string>, parsed: seq<string>, sorted: seq<string>, keep: nat, live: Option<string>)
    requires Elements(parsed) == set n | n in names && ParseVersionDir(n).Some?
    requires NewestFirst(sorted) && Elements(sorted) == Elements(parsed)
    ensures names - Elements(Doomed(Skip(sorted, keep), live)) == Survivors(names, keep, live)
  {
    var candidates := Skip(sorted, keep);
    NewestFirstIsDistinct(sorted);
    forall n | n in names
      ensures n in Doomed(candidates, live) <==> !Survives(names, keep, live, n)
    {
      DoomedMembers(candidates, live, n);
      if ParseVersionDir(n).Some? {
        assert n in Elements(sorted);
        var i :| 0 <= i < |sorted| && sorted[i] == n;
        IndexIsRank(sorted, i);
        RankIgnoresOthers(names, sorted, n);
        SkipMembers(sorted, keep, i);
      } else {
        assert n !in Elements(sorted);
      }
    }
  }

  // ---- crash safety of the three phases ----

  lemma InstallLaunches(t0: Tree, h: seq<Tree>, from: nat, v: string, payload: Bytes, done: bool)
    requires if done then AllInstall(t0, h, from, v, payload) else AllTmp(t0, h, from, v)
    ensures Launches(t0).Some? ==> AllLaunch(h, from, {Launches(t0).value, payload})
  {}

  lemma FlipLaunches(t0: Tree, h: seq<Tree>, from: nat, version: string, payload: Bytes)
    requires AllFlip(t0, h, from, version) && ParseVersionDir(version).Some?
    requires Lookup(t0, version, BINARY) == Some(File(payload, MODE_0755))
    ensures Launches(t0).Some? ==> AllLaunch(h, from, {Launches(t0).value, payload})
  {
    forall i | from <= i < |h| && Launches(t0).Some?
      ensures Launches(h[i]).Some? && Launches(h[i]).value in {Launches(t0).value, payload}
    {
      if !OnlyBinTmpDiffers(t0, h[i]) {
        FlipLaunchesTarget(t0, h[i], version);
      }
    }
  }

  lemma PruneLaunches(t0: Tree, h: seq<Tree>, from: nat)
    requires AllPruned(t0, h, from)
    ensures Launches(t0).Some? ==> AllLaunch(h, from, {Launches(t0).value})
  {}

  /** `version` is new, older than the current version and newer than all others below it. */
  ghost predicate NextBelowCurrent(t: Tree, version: string) {
    && ParseVersionDir(version).Some? && version !in Versions(t) && CurrentTarget(t).Some?
    && NumberOf(version) < NumberOf(CurrentTarget(t).value)
    && forall n :: n in Lower(Versions(t).Keys, CurrentTarget(t).value) ==> NumberOf(n) < NumberOf(version)
  }

  /** An install whose archive was refused leaves its version directory without a binary.
      The launcher is not affected, but the directory is the one rollback target, for
      nothing looks inside it, and the flip onto it leaves a launcher that runs nothing. */
  lemma EmptyVersionDirBreaksRollback(t0: Tree, t1: Tree, t2: Tree, version: string, unread: set<string>)
    requires NextBelowCurrent(t0, version) && version !in unread
    requires OnlyTmpDiffers(t0, t1, version) && version in Versions(t1)
    requires Flipped(t1, t2, version)
    ensures Launches(t1) == Launches(t0) && CurrentTarget(t1) == CurrentTarget(t0)
    ensures forall pick :: IsRollbackPick(Versions(t1).Keys - unread, CurrentTarget(t1).value, pick)
                           <==> pick == Some(version)
    ensures Launches(t2) == None
  {
    BrokenTarget(t0, t1, version, unread);
    FlipTargetOfVersion(version);
  }

  /** The same on the object: whatever archive is refused, the rollback after it goes to
      that version, if no call fails, and breaks a launcher that worked. */
  method RollbackAfterRefusedInstall(store: Store, version: string, members: seq<Member>, unread: set<string>)
    returns (installed: Result<string, InstallError>, rolled: Result<string, InstallError>)
    requires store.Valid() && NextBelowCurrent(store.tree, version) && version !in unread
    modifies store
    ensures store.Valid()
    ensures installed.Err? && Refused(installed.error) ==>
              if store.faults == old(store.faults) then rolled == Ok(version) && Launches(store.tree) == None
              else rolled == Err(Io)
  {
    ghost var t0 := store.tree;
    ghost var payload;
    installed, payload := store.InstallVersionBytes(version, members);
    ghost var t1 := store.tree;
    rolled := store.Rollback(unread);
    if installed.Err? && Refused(installed.error) {
      BrokenTarget(t0, t1, version, unread);
    }
  }

  /** After a refused install the version is the only pick and holds no binary. */
  lemma BrokenTarget(t0: Tree, t1: Tree, version: string, unread: set<string>)
    requires NextBelowCurrent(t0, version) && version !in unread
    requires OnlyTmpDiffers(t0, t1, version) && version in Versions(t1)
    ensures CurrentTarget(t1) == CurrentTarget(t0) && CanRollBack(t1, unread)
    ensures forall pick :: IsRollbackPick(Versions(t1).Keys - unread, CurrentTarget(t1).value, pick)
                           <==> pick == Some(version)
    ensures Lookup(t1, version, BINARY) == None
  {
    var current, listed := CurrentTarget(t0).value, Versions(t0).Keys - unread;
    assert Versions(t1).Keys - unread == listed + {version};
    assert Lower(listed, current) <= Lower(Versions(t0).Keys, current);
    assert Lower(listed + {version}, current) == Lower(listed, current) + {version};
    assert Lookup(t1, version, BINARY) == Lookup(t0, version, BINARY) == None;
  }
}
