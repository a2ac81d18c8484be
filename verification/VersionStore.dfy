/** The managed version store of src/managed_install.rs: version directories, the
    launcher symlink, install, flip, prune and rollback. Every file-system call is one
    recorded step that may fail, so a property of `history` is a property of every
    state a crash could leave behind. */
module VersionStore {
  import opened Options
  import opened Strings
  import opened VersionNames

  type Bytes = seq<nat>

  const MODE_0755: nat := 493
  const MODE_DEFAULT: nat := 420
  const TMP := ".oxios.tmp"
  const BINARY := "oxios"

  datatype Node = File(bytes: Bytes, mode: nat) | Link(target: seq<string>)

  type Dir = map<string, Node>

  /** `<home>/versions/<v>/<name>` and `<home>/bin/<name>`; a directory may be missing. */
  datatype Tree = Tree(versions: Option<map<string, Dir>>, bin: Option<Dir>)

  function Versions(t: Tree): map<string, Dir> {
    if t.versions.Some? then t.versions.value else map[]
  }

  function Lookup(t: Tree, v: string, name: string): Option<Node> {
    if v in Versions(t) && name in Versions(t)[v] then Some(Versions(t)[v][name]) else None
  }

  function BinLookup(t: Tree, name: string): Option<Node> {
    if t.bin.Some? && name in t.bin.value then Some(t.bin.value[name]) else None
  }

  /** The bytes an `execve` of the launcher runs: the symlink leads to a regular file
      of mode 0755 inside the store. */
  function Launches(t: Tree): Option<Bytes> {
    match BinLookup(t, BINARY)
    case Some(Link(target)) =>
      if |target| == 4 && target[0] == ".." && target[1] == "versions" && target[3] == BINARY then
        match Lookup(t, target[2], BINARY)
        case Some(File(bytes, mode)) => if mode == MODE_0755 then Some(bytes) else None
        case _ => None
      else None
    case _ => None
  }

  function CurrentTarget(t: Tree): Option<string> {
    match BinLookup(t, BINARY)
    case Some(Link(target)) =>
      if |target| == 4 && ParseVersionDir(target[2]).Some? then Some(target[2]) else None
    case _ => None
  }

  /** `Path::components` of a joined piece: empty and `.` parts disappear. */
  function Components(parts: seq<string>): seq<string> {
    if parts == [] then []
    else (if parts[0] == "" || parts[0] == "." then [] else [parts[0]]) + Components(parts[1..])
  }

  /** Components of `Path::new("../versions").join(version).join("oxios")`. */
  function FlipTarget(version: string): seq<string> {
    var pieces := Components(Split(version, '/'));
    if StartsWith(version, "/") then ["/"] + pieces + [BINARY]
    else ["..", "versions"] + pieces + [BINARY]
  }

  lemma FlipTargetOfVersion(version: string)
    requires ParseVersionDir(version).Some?
    ensures FlipTarget(version) == ["..", "versions", version, BINARY]
  {
    ParsedNameIsComponent(version);
    SplitWithout(version, '/');
    assert Components([version]) == [version] + Components([]);
  }

  /** One member of the release tarball. `CutOff` has a header but its contents do not
      decode; of `Unreadable` not even the header does. */
  datatype Member = Member(path: seq<string>, data: Bytes) | CutOff(path: seq<string>) | Unreadable

  /** macOS AppleDouble noise, skipped by the extractor. */
  predicate IsNoise(m: Member) {
    !m.Unreadable? && |m.path| == 1 && StartsWith(m.path[0], "._")
  }

  predicate IsBinary(m: Member) {
    !m.Unreadable? && m.path == [BINARY]
  }

  /** Exactly one member is the binary, holding `payload`, and all others are noise. */
  ghost predicate SoleBinary(members: seq<Member>, payload: Bytes) {
    exists k :: 0 <= k < |members| && members[k] == Member([BINARY], payload)
      && forall j :: 0 <= j < |members| && j != k ==> IsNoise(members[j])
  }

  /** Member `j` is no noise, and not the binary or not the first one. */
  ghost predicate Intrudes(members: seq<Member>, j: nat)
    requires j < |members|
  {
    && !members[j].Unreadable? && !IsNoise(members[j])
    && (IsBinary(members[j]) ==> exists i :: 0 <= i < j && IsBinary(members[i]))
  }

  /** Member `j` cannot be read although it would have to be. */
  ghost predicate Undecodable(members: seq<Member>, j: nat)
    requires j < |members|
  {
    members[j].Unreadable? || (members[j].CutOff? && IsBinary(members[j]) && !Intrudes(members, j))
  }

  datatype InstallError = BadVersion | Io | BadArchive | UnexpectedMember | NoBinary | NoPrevious

  /** The first member that breaks the archive is `j`. */
  ghost predicate BreaksAt(members: seq<Member>, j: nat)
    requires j < |members|
  {
    && (Intrudes(members, j) || Undecodable(members, j))
    && forall i :: 0 <= i < j ==> !Intrudes(members, i) && !Undecodable(members, i)
  }

  /** What an error says about the archive. */
  ghost predicate Explains(e: InstallError, members: seq<Member>) {
    match e
    case NoBinary => forall m :: m in members ==> IsNoise(m)
    case UnexpectedMember => exists j :: 0 <= j < |members| && BreaksAt(members, j) && Intrudes(members, j)
    case BadArchive => exists j :: 0 <= j < |members| && BreaksAt(members, j) && Undecodable(members, j)
    case _ => true
  }

  /** The archive was at fault. */
  predicate Refused(e: InstallError) {
    e == BadArchive || e == UnexpectedMember || e == NoBinary
  }

  /** An archive has a sole binary or one of the three faults, and never two of these. */
  lemma OneVerdict(members: seq<Member>, payload: Bytes, e: InstallError, e': InstallError)
    requires Refused(e) && Refused(e') && Explains(e, members)
    ensures !SoleBinary(members, payload)
    ensures Explains(e', members) ==> e == e'
  {
    if e != NoBinary {
      BrokenIsNoNoise(members, e);
    }
    if Explains(e', members) && e' != NoBinary {
      BrokenIsNoNoise(members, e');
    }
    if SoleBinary(members, payload) {
      SoleBinaryIsWhole(members, payload);
    }
  }

  lemma BrokenIsNoNoise(members: seq<Member>, e: InstallError)
    requires e == UnexpectedMember || e == BadArchive
    requires Explains(e, members)
    ensures !Explains(NoBinary, members)
  {
    var j :| 0 <= j < |members| && BreaksAt(members, j) && (e == UnexpectedMember <==> Intrudes(members, j));
    NoiseIsNoBinary(members[j]);
    assert members[j] in members && !IsNoise(members[j]);
  }

  lemma NoiseIsNoBinary(m: Member)
    ensures !(IsNoise(m) && IsBinary(m))
  {
    assert BINARY[..2] == "ox" && "ox"[0] != "._"[0];
  }

  lemma SoleBinaryIsWhole(members: seq<Member>, payload: Bytes)
    requires SoleBinary(members, payload)
    ensures forall j :: 0 <= j < |members| ==> !Intrudes(members, j) && !Undecodable(members, j)
    ensures !Explains(NoBinary, members)
  {
    var k :| 0 <= k < |members| && members[k] == Member([BINARY], payload)
      && forall j :: 0 <= j < |members| && j != k ==> IsNoise(members[j]);
    forall m | m in members
      ensures !(IsNoise(m) && IsBinary(m))
    {
      NoiseIsNoBinary(m);
    }
    assert members[k] in members;
  }

  // ---- what each operation may leave behind ----

  /** Only the temp file of version directory `v` (and the directory itself) differs. */
  ghost predicate OnlyTmpDiffers(t0: Tree, t: Tree, v: string) {
    && t.bin == t0.bin
    && Versions(t0).Keys <= Versions(t).Keys <= Versions(t0).Keys + {v}
    && forall u, name :: (u, name) != (v, TMP) ==> Lookup(t, u, name) == Lookup(t0, u, name)
  }

  /** The payload sits at `versions/<v>/oxios`, executable, and nothing else changed. */
  ghost predicate InstalledAt(t0: Tree, t: Tree, v: string, payload: Bytes) {
    && t.bin == t0.bin
    && Versions(t).Keys == Versions(t0).Keys + {v}
    && Lookup(t, v, BINARY) == Some(File(payload, MODE_0755))
    && Lookup(t, v, TMP) == None
    && forall u, name :: (u, name) != (v, TMP) && (u, name) != (v, BINARY) ==> Lookup(t, u, name) == Lookup(t0, u, name)
  }

  ghost predicate OnlyBinTmpDiffers(t0: Tree, t: Tree) {
    && t.versions == t0.versions
    && forall name :: name != TMP ==> BinLookup(t, name) == BinLookup(t0, name)
  }

  ghost predicate Flipped(t0: Tree, t: Tree, version: string) {
    && t.versions == t0.versions
    && BinLookup(t, BINARY) == Some(Link(FlipTarget(version)))
    && BinLookup(t, TMP) == None
    && forall name :: name != TMP && name != BINARY ==> BinLookup(t, name) == BinLookup(t0, name)
  }

  /** Prune may touch a version directory only if its name parses and the launcher
      does not point at it. */
  predicate Prunable(t: Tree, v: string) {
    ParseVersionDir(v).Some? && CurrentTarget(t) != Some(v)
  }

  ghost predicate OnlyPruned(t0: Tree, t: Tree) {
    && t.bin == t0.bin
    && Versions(t).Keys <= Versions(t0).Keys
    && forall u :: u in Versions(t0) && !Prunable(t0, u) ==> u in Versions(t) && Versions(t)[u] == Versions(t0)[u]
  }

  // ---- the launcher across those changes ----

  lemma InstallKeepsLauncher(t0: Tree, t: Tree, v: string, payload: Bytes)
    requires InstalledAt(t0, t, v, payload)
    ensures Launches(t) == Launches(t0) || Launches(t) == Some(payload)
    ensures CurrentTarget(t) == CurrentTarget(t0)
  {}

  lemma FlipLaunchesTarget(t0: Tree, t: Tree, version: string)
    requires Flipped(t0, t, version) && ParseVersionDir(version).Some?
    ensures CurrentTarget(t) == Some(version)
    ensures Launches(t).Some? <==>
            exists bytes :: Lookup(t0, version, BINARY) == Some(File(bytes, MODE_0755))
    ensures forall bytes :: Lookup(t0, version, BINARY) == Some(File(bytes, MODE_0755)) ==> Launches(t) == Some(bytes)
  {
    FlipTargetOfVersion(version);
  }

  lemma PruneKeepsLauncher(t0: Tree, t: Tree)
    requires OnlyPruned(t0, t)
    ensures Launches(t0).Some? ==> Launches(t) == Launches(t0)
    ensures CurrentTarget(t) == CurrentTarget(t0)
  {}

  /** After a flip the launcher reports exactly the version asked for, for every
      string that parses and for no other. */
  lemma CurrentTargetAfterFlip(t0: Tree, t: Tree, version: string)
    requires Flipped(t0, t, version)
    ensures CurrentTarget(t) == Some(version) <==> ParseVersionDir(version).Some?
  {
    if ParseVersionDir(version).Some? {
      FlipTargetOfVersion(version);
    }
  }

  // ---- rollback ----

  /** Installed versions strictly older than version directory `current`. */
  function Lower(installed: set<string>, current: string): set<string>
    requires ParseVersionDir(current).Some?
  {
    set n | n in installed && ParseVersionDir(n).Some? && NumberOf(n) < NumberOf(current)
  }

  /** `pick` is a greatest installed version strictly below `current`. */
  ghost predicate IsRollbackPick(installed: set<string>, current: string, pick: Option<string>)
    requires ParseVersionDir(current).Some?
  {
    match pick
    case None => Lower(installed, current) == {}
    case Some(p) =>
      && p in Lower(installed, current)
      && forall n :: n in Lower(installed, current) ==> NumberOf(n) <= NumberOf(p)
  }

  /** No two installed names spell the same version. */
  ghost predicate DistinctVersions(installed: set<string>) {
    forall a, b :: a in installed && b in installed
                   && ParseVersionDir(a).Some? && ParseVersionDir(a) == ParseVersionDir(b)
                   ==> a == b
  }

  lemma RollbackPickUnique(installed: set<string>, current: string, p: Option<string>, q: Option<string>)
    requires ParseVersionDir(current).Some? && DistinctVersions(installed)
    requires IsRollbackPick(installed, current, p) && IsRollbackPick(installed, current, q)
    ensures p == q
  {
    if p.Some? && q.Some? {
      VersionLessIsNumeric(ParseVersionDir(p.value).value, ParseVersionDir(q.value).value);
    }
  }

  /** Consecutive rollbacks: each entry is the pick of the one before, the last has none. */
  ghost predicate RollbackChain(installed: set<string>, chain: seq<string>) {
    && |chain| >= 1
    && (forall i :: 0 <= i < |chain| ==> ParseVersionDir(chain[i]).Some?)
    && (forall i :: 0 <= i < |chain| - 1 ==> IsRollbackPick(installed, chain[i], Some(chain[i + 1])))
    && IsRollbackPick(installed, chain[|chain| - 1], None)
  }

  lemma LowerAfterPick(installed: set<string>, current: string, p: string)
    requires ParseVersionDir(current).Some? && DistinctVersions(installed)
    requires IsRollbackPick(installed, current, Some(p))
    ensures ParseVersionDir(p).Some? && p !in Lower(installed, p)
    ensures Lower(installed, current) == Lower(installed, p) + {p}
  {
    forall n | n in Lower(installed, current) && n !in Lower(installed, p)
      ensures n == p
    {
      VersionLessIsNumeric(ParseVersionDir(n).value, ParseVersionDir(p).value);
    }
  }

  lemma ChainTail(installed: set<string>, chain: seq<string>)
    requires RollbackChain(installed, chain) && |chain| > 1
    ensures RollbackChain(installed, chain[1..]) && IsRollbackPick(installed, chain[0], Some(chain[1]))
  {
    var rest := chain[1..];
    assert IsRollbackPick(installed, chain[0], Some(chain[0 + 1]));
    forall i | 0 <= i < |rest| - 1
      ensures IsRollbackPick(installed, rest[i], Some(rest[i + 1]))
    {
      assert IsRollbackPick(installed, chain[i + 1], Some(chain[i + 1 + 1]));
    }
  }

  /** Rolling back over and over visits each lower version once, in descending order,
      and stops after as many steps as there are lower versions. */
  lemma {:induction false} RollbackDescent(installed: set<string>, chain: seq<string>)
    requires RollbackChain(installed, chain) && DistinctVersions(installed)
    ensures |chain| - 1 == |Lower(installed, chain[0])|
    ensures forall i :: 1 <= i < |chain| ==> chain[i] in Lower(installed, chain[i - 1])
  {
    if |chain| > 1 {
      ChainTail(installed, chain);
      RollbackDescent(installed, chain[1..]);
      LowerAfterPick(installed, chain[0], chain[1]);
    }
    ChainDescends(installed, chain);
  }

  lemma ChainDescends(installed: set<string>, chain: seq<string>)
    requires RollbackChain(installed, chain)
    ensures forall i :: 1 <= i < |chain| ==> chain[i] in Lower(installed, chain[i - 1])
  {
    forall i | 1 <= i < |chain|
      ensures chain[i] in Lower(installed, chain[i - 1])
    {
      assert IsRollbackPick(installed, chain[i - 1], Some(chain[i - 1 + 1]));
    }
  }
}
