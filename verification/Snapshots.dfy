/** Source snapshots and rollback (minit/snapshots.py): a snapshot captures the
    source files of a project, a rollback writes them over the project after
    taking a safety snapshot. Hashing is a parameter. */
module Snapshots {
  import opened Results
  import opened Bytes
  import opened MemberPaths
  import opened Trees

  const MANIFEST_ENTRY: string := "_minit_snapshot.json"

  const SOURCE_EXTENSIONS: set<string> := {
    ".py", ".pyi", ".js", ".jsx", ".mjs", ".cjs", ".ts", ".tsx",
    ".html", ".htm", ".css", ".scss", ".sass", ".less", ".vue", ".svelte",
    ".go", ".rs", ".java", ".kt", ".kts", ".rb", ".php", ".swift",
    ".c", ".h", ".cc", ".cpp", ".hpp", ".cs", ".sh", ".bash", ".zsh",
    ".ps1", ".sql", ".toml", ".yaml", ".yml", ".json", ".xml", ".ini",
    ".cfg", ".conf", ".md"
  }

  const SOURCE_FILENAMES: set<string> := {
    "Dockerfile", "Containerfile", "Procfile", "Makefile", "Justfile",
    "Gemfile", "Rakefile", "Pipfile", "poetry.lock", "uv.lock",
    "package-lock.json", "pnpm-lock.yaml", "yarn.lock", ".env.example"
  }

  const EXCLUDED_DIRS: set<string> := {
    ".minit", ".git", ".hg", ".svn", ".venv", "venv", "node_modules",
    "__pycache__", ".pytest_cache", ".mypy_cache", ".ruff_cache", "dist", "build"
  }

  // ----- which files are source ---------------------------------------------

  function LastDot(name: string): (i: int)
    ensures -1 <= i < |name| && (i >= 0 ==> name[i] == '.')
  {
    if name == "" then -1
    else if name[|name| - 1] == '.' then |name| - 1
    else LastDot(name[..|name| - 1])
  }

  /** PurePath.suffix: empty for a leading or a trailing dot. */
  function Suffix(name: string): string {
    var i := LastDot(name);
    if 0 < i < |name| - 1 then name[i..] else ""
  }

  /** str.lower(), as far as it can give ASCII: the Kelvin sign becomes a k. */
  function LowerChar(c: char): char {
    if 'A' <= c <= 'Z' then (c as int + 32) as char else if c as int == 0x212A then 'k' else c
  }

  function Lower(s: string): string {
    seq(|s|, i requires 0 <= i < |s| => LowerChar(s[i]))
  }

  /** _is_source_file, by the last component. */
  predicate IsSourceName(name: string) {
    || name in SOURCE_FILENAMES
    || ("requirements" <= name && |name| >= 4 && name[|name| - 4..] == ".txt")
    || Lower(Suffix(name)) in SOURCE_EXTENSIONS
  }

  /** The paths _iter_source_files keeps, of those that are regular files. */
  predicate IsCaptured(p: Path) {
    && p != [] && IsSourceName(p[|p| - 1])
    && forall i | 0 <= i < |p| - 1 :: p[i] !in EXCLUDED_DIRS
  }

  ghost predicate IsSourceListing(t: Tree, listing: seq<Path>) {
    && (forall p :: p in listing <==> p in t && t[p].File? && IsCaptured(p))
    && (forall i, j | 0 <= i < j < |listing| :: listing[i] != listing[j])
  }

  // ----- snapshots ----------------------------------------------------------

  type Hash = bytes -> bytes

  /** The archive: its members in the order written, and the manifest entry
      written last, which lists a name and a digest per file. */
  datatype Snapshot = Snapshot(appId: string, members: seq<(string, bytes)>, files: seq<(string, bytes)>,
                               manifestBytes: bytes)

  /** ZipFile.read: of entries with one name, the last written. */
  function ReadMember(members: seq<(string, bytes)>, name: string): Option<bytes> {
    if members == [] then None
    else if members[|members| - 1].0 == name then Some(members[|members| - 1].1)
    else ReadMember(members[..|members| - 1], name)
  }

  function ReadEntry(s: Snapshot, name: string): Option<bytes> {
    if name == MANIFEST_ENTRY then Some(s.manifestBytes) else ReadMember(s.members, name)
  }

  function MembersOf(t: Tree, listing: seq<Path>): (r: seq<(string, bytes)>)
    requires forall p | p in listing :: p in t && t[p].File?
    ensures |r| == |listing|
  {
    seq(|listing|, i requires 0 <= i < |listing| => (Join(listing[i]), t[listing[i]].data))
  }

  function FilesOf(sha: Hash, t: Tree, listing: seq<Path>): (r: seq<(string, bytes)>)
    requires forall p | p in listing :: p in t && t[p].File?
    ensures |r| == |listing|
  {
    seq(|listing|, i requires 0 <= i < |listing| => (Join(listing[i]), sha(t[listing[i]].data)))
  }

  /** create_snapshot; None is the SnapshotError for a project without source. */
  function SnapshotOf(sha: Hash, appId: string, t: Tree, listing: seq<Path>, manifestBytes: bytes): Option<Snapshot>
    requires forall p | p in listing :: p in t && t[p].File?
  {
    if listing == [] then None
    else Some(Snapshot(appId, MembersOf(t, listing), FilesOf(sha, t, listing), manifestBytes))
  }

  // ----- restoring ----------------------------------------------------------

  /** destination.parent.mkdir(parents=True, exist_ok=True), then write_bytes. */
  function WriteFile(t: Tree, p: Path, data: bytes): Option<Tree>
    requires p != []
  {
    var above :- MakeDirs(t, p[..|p| - 1]);
    if p in above && above[p].Dir? then None else Some(above[p := File(data)])
  }

  /** The data one file of the manifest is checked to have. */
  function CheckedFile(sha: Hash, s: Snapshot, file: (string, bytes)): Option<(Path, bytes)> {
    var p :- SafeMemberPath(file.0);
    var data :- ReadEntry(s, file.0);
    if sha(data) == file.1 then Some((p, data)) else None
  }

  function RestoreFile(sha: Hash, t: Tree, s: Snapshot, file: (string, bytes)): Option<Tree> {
    var checked :- CheckedFile(sha, s, file);
    WriteFile(t, checked.0, checked.1)
  }

  /** An I/O failure while file number `at` is written: some directories above
      it exist by then, and the file may hold anything. */
  datatype Fault = Fault(at: nat, depth: nat, left: Option<bytes>)

  function PartialFile(sha: Hash, t: Tree, s: Snapshot, file: (string, bytes), f: Fault): Tree {
    match CheckedFile(sha, s, file)
    case None => t
    case Some(checked) =>
      match f.left
      case Some(junk) => (match WriteFile(t, checked.0, junk) case None => t case Some(t') => t')
      case None =>
        var n := if f.depth < |checked.0| then f.depth else |checked.0| - 1;
        match MakeDirs(t, checked.0[..n]) case None => t case Some(t') => t'
  }

  /** The loop of restore_snapshot: the tree it leaves, and whether it went
      through all files. */
  function RestoreFiles(sha: Hash, t: Tree, s: Snapshot, files: seq<(string, bytes)>, f: Option<Fault>): (Tree, bool)
    decreases |files|
  {
    if files == [] then (t, true)
    else if f.Some? && f.value.at == 0 then (PartialFile(sha, t, s, files[0], f.value), false)
    else match RestoreFile(sha, t, s, files[0])
      case None => (t, false)
      case Some(t') =>
        RestoreFiles(sha, t', s, files[1..], match f case None => None case Some(x) => Some(x.(at := x.at - 1)))
  }

  // ----- overlays -----------------------------------------------------------

  /** The paths the manifest can make the restore write. */
  predicate WrittenBy(files: seq<(string, bytes)>, p: Path) {
    exists i :: 0 <= i < |files| && SafeMemberPath(files[i].0) == Some(p)
  }

  /** The directories above those paths. */
  predicate AboveWritten(files: seq<(string, bytes)>, p: Path) {
    exists i :: 0 <= i < |files| && IsAbove(p, SafeMemberPath(files[i].0))
  }

  predicate IsAbove(p: Path, written: Option<Path>) {
    written.Some? && p != [] && p < written.value
  }

  /** `after` is `before` with some writes at paths the manifest names: nothing
      is removed or changes kind, other files keep their bytes, and whatever is
      new is named or is a directory above a named path. */
  ghost predicate Overlay(before: Tree, after: Tree, files: seq<(string, bytes)>) {
    && (forall p | p in before ::
          p in after && after[p].Dir? == before[p].Dir? && (!WrittenBy(files, p) ==> after[p] == before[p]))
    && (forall p | p in after && p !in before :: WrittenBy(files, p) || (after[p].Dir? && AboveWritten(files, p)))
  }

  lemma {:induction false} MakeDirsOverlay(t: Tree, p: Path)
    ensures MakeDirs(t, p).Some? ==>
              && (forall q | q in t :: q in MakeDirs(t, p).value && MakeDirs(t, p).value[q] == t[q])
              && (forall q | q in MakeDirs(t, p).value && q !in t :: MakeDirs(t, p).value[q].Dir? && q != [] && q <= p)
    decreases |p|
  {
    if p != [] { MakeDirsOverlay(t, p[..|p| - 1]); }
  }

  lemma WriteOverlay(t: Tree, p: Path, data: bytes, files: seq<(string, bytes)>)
    requires p != [] && WrittenBy(files, p) && WriteFile(t, p, data).Some?
    ensures Overlay(t, WriteFile(t, p, data).value, files)
  {
    hide SafeMemberPath;
    MakeDirsOverlay(t, p[..|p| - 1]);
    PrefixesAbove(files, p, |p| - 1);
  }

  /** What leads to a written path is above it. */
  lemma PrefixesAbove(files: seq<(string, bytes)>, p: Path, n: nat)
    requires WrittenBy(files, p) && n < |p|
    ensures forall q: Path | q != [] && q <= p[..n] :: AboveWritten(files, q)
  {
    hide SafeMemberPath;
    var i :| 0 <= i < |files| && SafeMemberPath(files[i].0) == Some(p);
    forall q: Path | q != [] && q <= p[..n] ensures AboveWritten(files, q) {
      assert IsAbove(q, SafeMemberPath(files[i].0));
    }
  }

  lemma OverlaySelf(t: Tree, files: seq<(string, bytes)>)
    ensures Overlay(t, t, files)
  {}

  lemma OverlayTransitive(a: Tree, b: Tree, c: Tree, files: seq<(string, bytes)>)
    requires Overlay(a, b, files) && Overlay(b, c, files)
    ensures Overlay(a, c, files)
  {
    hide WrittenBy, AboveWritten;
  }

  lemma OverlayMore(a: Tree, b: Tree, files: seq<(string, bytes)>, more: seq<(string, bytes)>)
    requires Overlay(a, b, files) && forall p :: WrittenBy(files, p) ==> WrittenBy(more, p)
    requires forall p :: AboveWritten(files, p) ==> AboveWritten(more, p)
    ensures Overlay(a, b, more)
  {
    hide WrittenBy, AboveWritten;
  }

  lemma WrittenByRest(files: seq<(string, bytes)>)
    requires files != []
    ensures forall p :: WrittenBy(files[1..], p) ==> WrittenBy(files, p)
    ensures forall p :: AboveWritten(files[1..], p) ==> AboveWritten(files, p)
    ensures forall p :: SafeMemberPath(files[0].0) == Some(p) ==> WrittenBy(files, p)
  {
    hide SafeMemberPath, IsAbove;
    assert forall i | 0 <= i < |files| - 1 :: files[1..][i] == files[i + 1];
  }

  /** However far a restore gets, and whatever its manifest says, the project is
      an overlay of what it was. */
  lemma {:induction false} RestoreIsOverlay(sha: Hash, t: Tree, s: Snapshot, files: seq<(string, bytes)>,
                                            f: Option<Fault>)
    ensures Overlay(t, RestoreFiles(sha, t, s, files, f).0, files)
    decreases |files|
  {
    hide SafeMemberPath, WrittenBy, AboveWritten, Overlay, WriteFile, PartialFile;
    OverlaySelf(t, files);
    if files != [] {
      WrittenByRest(files);
      var checked := CheckedFile(sha, s, files[0]);
      if checked.Some? { SafePathNotEmpty(files[0].0); }
      if f.Some? && f.value.at == 0 {
        PartialOverlay(sha, t, s, files, f.value);
      } else {
        match RestoreFile(sha, t, s, files[0])
        case None =>
        case Some(t') =>
          var f' := match f case None => None case Some(x) => Some(x.(at := x.at - 1));
          WriteOverlay(t, checked.value.0, checked.value.1, files);
          RestoreIsOverlay(sha, t', s, files[1..], f');
          var t2 := RestoreFiles(sha, t', s, files[1..], f').0;
          OverlayMore(t', t2, files[1..], files);
          OverlayTransitive(t, t', t2, files);
      }
    }
  }

  lemma SafePathNotEmpty(name: string)
    ensures SafeMemberPath(name).Some? ==> SafeMemberPath(name).value != []
  {}

  lemma PartialOverlay(sha: Hash, t: Tree, s: Snapshot, files: seq<(string, bytes)>, f: Fault)
    requires files != []
    ensures Overlay(t, PartialFile(sha, t, s, files[0], f), files)
  {
    hide SafeMemberPath, WrittenBy, AboveWritten;
    WrittenByRest(files);
    SafePathNotEmpty(files[0].0);
    OverlaySelf(t, files);
    if CheckedFile(sha, s, files[0]).None? { return; }
    var p := CheckedFile(sha, s, files[0]).value.0;
    match f.left
    case Some(junk) => if WriteFile(t, p, junk).Some? { WriteOverlay(t, p, junk, files); }
    case None =>
      var n := if f.depth < |p| then f.depth else |p| - 1;
      MakeDirsOverlay(t, p[..n]);
      PrefixesAbove(files, p, n);
  }

  /** Minit's own files and the repository's. */
  predicate IsProtected(p: Path) {
    p != [] && (p[0] == ".minit" || p[0] == ".git")
  }

  /** However far a restore gets, whatever fails, and whatever the manifest says,
      nothing below the project's .minit or .git is made, changed or removed. */
  lemma RestoreSparesProtected(sha: Hash, t: Tree, s: Snapshot, f: Option<Fault>, p: Path)
    requires IsProtected(p)
    ensures var t' := RestoreFiles(sha, t, s, s.files, f).0;
            (p in t' <==> p in t) && (p in t ==> t'[p] == t[p])
  {
    hide RestoreFiles, Parts, IsAbsolute;
    RestoreIsOverlay(sha, t, s, s.files, f);
    ProtectedNotWritten(s.files, p);
  }

  lemma ProtectedNotWritten(files: seq<(string, bytes)>, p: Path)
    requires IsProtected(p)
    ensures !WrittenBy(files, p) && !AboveWritten(files, p)
  {
    hide Parts, IsAbsolute;
    forall i | 0 <= i < |files|
      ensures SafeMemberPath(files[i].0) != Some(p) && !IsAbove(p, SafeMemberPath(files[i].0))
    {
      var w := SafeMemberPath(files[i].0);
      assert w.Some? ==> w.value != [] && w.value[0] != p[0];
    }
  }

  // ----- what create_snapshot captures --------------------------------------

  lemma FilenamesAreLong()
    ensures ".git" !in SOURCE_FILENAMES && ".minit" !in SOURCE_FILENAMES
  {}

  lemma NoEmptyExtension()
    ensures "" !in SOURCE_EXTENSIONS
  {}

  lemma RootNamesNotSource()
    ensures !IsSourceName(".git") && !IsSourceName(".minit")
  {
    hide SOURCE_FILENAMES, SOURCE_EXTENSIONS;
    FilenamesAreLong();
    NoEmptyExtension();
    LastDotAt(".git", 0);
    LastDotAt(".minit", 0);
    assert Lower("") == "";
  }

  /** Every name create_snapshot captures is accepted by restore's own check,
      as the path it was captured from. */
  lemma CapturedNameAccepted(p: Path)
    requires IsCaptured(p) && IsRealPath(p)
    ensures SafeMemberPath(Join(p)) == Some(p)
  {
    hide IsSourceName;
    RootNamesNotSource();
    PartsOfJoin(p);
  }

  lemma ManifestPath()
    ensures IsRealPath([MANIFEST_ENTRY]) && Join([MANIFEST_ENTRY]) == MANIFEST_ENTRY
  {}

  lemma TreePathsAreReal(t: Tree, p: Path)
    requires IsTree(t) && p in t
    ensures IsRealPath(p) && p != []
  {}

  /** The listing's names are distinct, so each member reads back as its file. */
  lemma {:induction false} ReadListedMember(t: Tree, listing: seq<Path>, i: nat)
    requires IsTree(t) && (forall p | p in listing :: p in t && t[p].File?)
    requires i < |listing| && forall j, k | 0 <= j < k < |listing| :: listing[j] != listing[k]
    ensures ReadMember(MembersOf(t, listing), Join(listing[i])) == Some(t[listing[i]].data)
  {
    hide Join, IsTree;
    var n := |listing| - 1;
    var m := MembersOf(t, listing);
    TreePathsAreReal(t, listing[i]);
    TreePathsAreReal(t, listing[n]);
    if i < n {
      if m[n].0 == Join(listing[i]) { JoinInjective(listing[i], listing[n]); }
      assert m[..n] == MembersOf(t, listing[..n]);
      ReadListedMember(t, listing[..n], i);
    }
  }

  // ----- restoring a snapshot over an overlay of its own tree ---------------

  /** Everything of the first tree is in the second, files as files. */
  ghost predicate KeepsKinds(a: Tree, b: Tree) {
    forall p | p in a :: p in b && b[p].Dir? == a[p].Dir?
  }

  lemma {:induction false} MakeDirsExisting(t: Tree, p: Path)
    requires forall n | 0 < n <= |p| :: p[..n] in t && t[p[..n]].Dir?
    ensures MakeDirs(t, p) == Some(t)
    decreases |p|
  {
    if p != [] {
      var q := p[..|p| - 1];
      forall n | 0 < n <= |q| ensures q[..n] in t && t[q[..n]].Dir? { assert q[..n] == p[..n]; }
      MakeDirsExisting(t, q);
      assert p[..|p|] == p;
    }
  }

  /** Writing back a file of the tree never finds an obstacle. */
  lemma WriteBack(a: Tree, t: Tree, p: Path, data: bytes)
    requires IsTree(a) && KeepsKinds(a, t) && p in a && a[p].File?
    ensures p != [] && WriteFile(t, p, data) == Some(t[p := File(data)]) && KeepsKinds(a, t[p := File(data)])
  {
    var q := p[..|p| - 1];
    forall n | 0 < n <= |q| ensures q[..n] in t && t[q[..n]].Dir? { assert q[..n] == p[..n]; }
    MakeDirsExisting(t, q);
  }

  /** What restoring file number i of a tree's snapshot finds. */
  lemma ListedFile(sha: Hash, appId: string, a: Tree, listing: seq<Path>, manifestBytes: bytes, i: nat)
    requires IsTree(a) && IsSourceListing(a, listing) && i < |listing|
    ensures var s := SnapshotOf(sha, appId, a, listing, manifestBytes).value;
            var p := listing[i];
            CheckedFile(sha, s, s.files[i])
            == if p == [MANIFEST_ENTRY] then
                 (if sha(manifestBytes) == sha(a[p].data) then Some((p, manifestBytes)) else None)
               else Some((p, a[p].data))
  {
    hide SafeMemberPath, IsCaptured, Join;
    var s := SnapshotOf(sha, appId, a, listing, manifestBytes).value;
    var p := listing[i];
    assert p in listing;
    CapturedNameAccepted(p);
    ManifestPath();
    ReadListedMember(a, listing, i);
    if Join(p) == MANIFEST_ENTRY { JoinInjective(p, [MANIFEST_ENTRY]); }
    assert s.files[i] == (Join(p), sha(a[p].data));
  }

  /** One round of that restore. */
  lemma RestoreListedFile(sha: Hash, appId: string, a: Tree, t: Tree, listing: seq<Path>, manifestBytes: bytes, i: nat)
    requires IsTree(a) && IsSourceListing(a, listing) && KeepsKinds(a, t) && i < |listing|
    requires [MANIFEST_ENTRY] in listing ==> sha(manifestBytes) != sha(a[[MANIFEST_ENTRY]].data)
    ensures var s := SnapshotOf(sha, appId, a, listing, manifestBytes).value;
            var p := listing[i];
            && p in a && |s.files| == |listing|
            && RestoreFile(sha, t, s, s.files[i]) == (if p == [MANIFEST_ENTRY] then None else Some(t[p := a[p]]))
            && KeepsKinds(a, t[p := a[p]])
  {
    hide SafeMemberPath, IsCaptured, Join, MakeDirs, WriteFile, CheckedFile;
    var p := listing[i];
    assert p in listing;
    ListedFile(sha, appId, a, listing, manifestBytes, i);
    WriteBack(a, t, p, a[p].data);
  }

  /** From file i on, the restore writes every remaining file back, unless one
      of them carries the manifest's own name. */
  lemma {:induction false} RestoreFrom(sha: Hash, appId: string, a: Tree, t: Tree, listing: seq<Path>,
                                       manifestBytes: bytes, i: nat)
    requires IsTree(a) && IsSourceListing(a, listing) && listing != [] && KeepsKinds(a, t) && i <= |listing|
    requires [MANIFEST_ENTRY] in listing ==> sha(manifestBytes) != sha(a[[MANIFEST_ENTRY]].data)
    ensures var s := SnapshotOf(sha, appId, a, listing, manifestBytes).value;
            var (t', done) := RestoreFiles(sha, t, s, s.files[i..], None);
            && (done <==> [MANIFEST_ENTRY] !in listing[i..])
            && (done ==> forall j | i <= j < |listing| :: listing[j] in t' && t'[listing[j]] == a[listing[j]])
            && (done ==> forall p | p in t && p !in listing[i..] :: p in t' && t'[p] == t[p])
    decreases |listing| - i
  {
    hide IsCaptured, RestoreFile, IsTree, SnapshotOf, KeepsKinds;
    SnapshotSize(sha, appId, a, listing, manifestBytes);
    var s := SnapshotOf(sha, appId, a, listing, manifestBytes).value;
    if i < |listing| {
      var p := listing[i];
      assert s.files[i..][0] == s.files[i] && s.files[i..][1..] == s.files[i + 1..];
      assert listing[i..] == [p] + listing[i + 1..];
      RestoreListedFile(sha, appId, a, t, listing, manifestBytes, i);
      if p != [MANIFEST_ENTRY] {
        RestoreFrom(sha, appId, a, t[p := a[p]], listing, manifestBytes, i + 1);
        DistinctAfter(listing, i);
      }
    }
  }

  lemma SnapshotSize(sha: Hash, appId: string, t: Tree, listing: seq<Path>, manifestBytes: bytes)
    requires (forall p | p in listing :: p in t && t[p].File?) && listing != []
    ensures var s := SnapshotOf(sha, appId, t, listing, manifestBytes); s.Some? && |s.value.files| == |listing|
  {}

  lemma DistinctAfter(listing: seq<Path>, i: nat)
    requires i < |listing| && forall j, k | 0 <= j < k < |listing| :: listing[j] != listing[k]
    ensures listing[i] !in listing[i + 1..]
  {}

  lemma OverlayKeepsKinds(a: Tree, b: Tree, files: seq<(string, bytes)>)
    requires Overlay(a, b, files)
    ensures KeepsKinds(a, b)
  {}

  /** The project has a root file of the manifest entry's name; a directory of
      that name is no obstacle. */
  predicate HasManifestFile(t: Tree) {
    [MANIFEST_ENTRY] in t && t[[MANIFEST_ENTRY]].File?
  }

  /** Rollback can be undone. A restore of any snapshot, complete or aborted
      after any prefix of its writes by any failure, and then a restore of the
      safety snapshot taken before it: the second goes through, and every
      source file, and every file the first could not write, has the bytes it
      had before the rollback. */
  lemma RollbackUndone(sha: Hash, appId: string, before: Tree, listing: seq<Path>, manifestBytes: bytes,
                       target: Snapshot, f: Option<Fault>)
    requires IsTree(before) && IsSourceListing(before, listing) && listing != [] && !HasManifestFile(before)
    ensures var safety := SnapshotOf(sha, appId, before, listing, manifestBytes).value;
            var rolled := RestoreFiles(sha, before, target, target.files, f).0;
            var (undone, done) := RestoreFiles(sha, rolled, safety, safety.files, None);
            && done
            && forall p | p in before && (IsCaptured(p) || !WrittenBy(target.files, p)) ::
                 p in undone && undone[p] == before[p]
  {
    hide SafeMemberPath, IsCaptured, WrittenBy, CheckedFile, WriteFile, MakeDirs;
    var safety := SnapshotOf(sha, appId, before, listing, manifestBytes).value;
    var rolled := RestoreFiles(sha, before, target, target.files, f).0;
    RestoreIsOverlay(sha, before, target, target.files, f);
    OverlayKeepsKinds(before, rolled, target.files);
    RestoreFrom(sha, appId, before, rolled, listing, manifestBytes, 0);
    assert safety.files[0..] == safety.files && listing[0..] == listing;
    var (undone, done) := RestoreFiles(sha, rolled, safety, safety.files, None);
    forall p | p in before && (IsCaptured(p) || !WrittenBy(target.files, p))
      ensures p in undone && undone[p] == before[p]
    {
      if p in listing {
        var j :| 0 <= j < |listing| && listing[j] == p;
      } else if !WrittenBy(target.files, p) {
        assert rolled[p] == before[p];
      } else {
        assert before[p].Dir? && rolled[p] == Dir;
      }
    }
  }

  /** A target made by create_snapshot, from any tree, writes captured paths
      only, so then every file is put back. */
  lemma SnapshotsWriteCaptured(sha: Hash, appId: string, t: Tree, listing: seq<Path>, manifestBytes: bytes, p: Path)
    requires IsTree(t) && IsSourceListing(t, listing) && listing != []
    requires WrittenBy(SnapshotOf(sha, appId, t, listing, manifestBytes).value.files, p)
    ensures IsCaptured(p) && p in listing
  {
    hide IsCaptured, Join, SafeMemberPath;
    var files := SnapshotOf(sha, appId, t, listing, manifestBytes).value.files;
    var i :| 0 <= i < |files| && SafeMemberPath(files[i].0) == Some(p);
    assert listing[i] in listing;
    CapturedNameAccepted(listing[i]);
  }

  lemma RollbackFullyUndone(sha: Hash, appId: string, before: Tree, listing: seq<Path>, manifestBytes: bytes,
                            earlier: Tree, earlierListing: seq<Path>, earlierManifest: bytes, f: Option<Fault>)
    requires IsTree(before) && IsSourceListing(before, listing) && listing != [] && !HasManifestFile(before)
    requires IsTree(earlier) && IsSourceListing(earlier, earlierListing) && earlierListing != []
    ensures var target := SnapshotOf(sha, appId, earlier, earlierListing, earlierManifest).value;
            var safety := SnapshotOf(sha, appId, before, listing, manifestBytes).value;
            var rolled := RestoreFiles(sha, before, target, target.files, f).0;
            var (undone, done) := RestoreFiles(sha, rolled, safety, safety.files, None);
            done && forall p | p in before :: p in undone && undone[p] == before[p]
  {
    hide IsCaptured, WrittenBy, RestoreFiles;
    var target := SnapshotOf(sha, appId, earlier, earlierListing, earlierManifest).value;
    RollbackUndone(sha, appId, before, listing, manifestBytes, target, f);
    forall p | WrittenBy(target.files, p) ensures IsCaptured(p) {
      SnapshotsWriteCaptured(sha, appId, earlier, earlierListing, earlierManifest, p);
    }
  }

  /** A project with a root file named like the manifest is where the undo
      breaks: restoring the safety snapshot goes through exactly when there is
      no such file. */
  lemma UndoCompletesExactly(sha: Hash, appId: string, before: Tree, listing: seq<Path>, manifestBytes: bytes,
                             target: Snapshot, f: Option<Fault>)
    requires IsTree(before) && IsSourceListing(before, listing) && listing != []
    requires HasManifestFile(before) ==> sha(manifestBytes) != sha(before[[MANIFEST_ENTRY]].data)
    ensures var safety := SnapshotOf(sha, appId, before, listing, manifestBytes).value;
            var rolled := RestoreFiles(sha, before, target, target.files, f).0;
            RestoreFiles(sha, rolled, safety, safety.files, None).1
            <==> !HasManifestFile(before)
  {
    hide SafeMemberPath, WrittenBy, CheckedFile, WriteFile, MakeDirs;
    var safety := SnapshotOf(sha, appId, before, listing, manifestBytes).value;
    var rolled := RestoreFiles(sha, before, target, target.files, f).0;
    RestoreIsOverlay(sha, before, target, target.files, f);
    OverlayKeepsKinds(before, rolled, target.files);
    ManifestIsCaptured();
    RestoreFrom(sha, appId, before, rolled, listing, manifestBytes, 0);
    assert safety.files[0..] == safety.files && listing[0..] == listing;
  }

  /** With that file first in the listing, as its name sorts before lower-case
      ones, the undo stops at once and the rollback stays in place whole. */
  lemma ManifestFileBlocksUndo(sha: Hash, appId: string, before: Tree, listing: seq<Path>, manifestBytes: bytes,
                               target: Snapshot, f: Option<Fault>)
    requires IsTree(before) && IsSourceListing(before, listing) && listing != [] && listing[0] == [MANIFEST_ENTRY]
    requires sha(manifestBytes) != sha(before[listing[0]].data)
    ensures var safety := SnapshotOf(sha, appId, before, listing, manifestBytes).value;
            var rolled := RestoreFiles(sha, before, target, target.files, f).0;
            RestoreFiles(sha, rolled, safety, safety.files, None) == (rolled, false)
  {
    hide IsCaptured, RestoreFile, IsTree;
    var rolled := RestoreFiles(sha, before, target, target.files, f).0;
    RestoreIsOverlay(sha, before, target, target.files, f);
    OverlayKeepsKinds(before, rolled, target.files);
    RestoreListedFile(sha, appId, before, rolled, listing, manifestBytes, 0);
  }

  function Digest(data: bytes): bytes { data }

  const LATER_TREE: Tree := map[[MANIFEST_ENTRY] := File([1]), ["a.py"] := File([2])]
  const LATER_FILES: seq<Path> := [[MANIFEST_ENTRY], ["a.py"]]
  const EARLIER_TREE: Tree := map[["a.py"] := File([3])]

  lemma TwoRootFiles(a: string, b: string, x: bytes, y: bytes)
    requires IsComponent(a) && IsComponent(b) && a != b && IsCaptured([a]) && IsCaptured([b])
    ensures var t: Tree := map[[a] := File(x), [b] := File(y)]; IsTree(t) && IsSourceListing(t, [[a], [b]])
  {
    hide IsCaptured, IsComponent;
    assert [a][0] != [b][0];
  }

  lemma PlainComponent(name: string)
    requires 2 < |name| && '/' !in name
    ensures IsComponent(name)
  {}

  lemma LaterListing()
    ensures IsTree(LATER_TREE) && IsSourceListing(LATER_TREE, LATER_FILES)
  {
    hide IsTree, IsSourceListing, IsCaptured, IsComponent;
    ManifestIsCaptured();
    PythonIsCaptured();
    PlainComponent("a.py");
    PlainComponent(MANIFEST_ENTRY);
    assert |"a.py"| == 4;
    TwoRootFiles(MANIFEST_ENTRY, "a.py", [1], [2]);
  }

  lemma EarlierListing()
    ensures IsTree(EARLIER_TREE) && IsSourceListing(EARLIER_TREE, [["a.py"]])
  {
    hide IsCaptured;
    PythonIsCaptured();
  }

  /** Such a project: its code is rolled back, and restoring the safety snapshot
      puts nothing back. */
  lemma RollbackNotUndone(appId: string)
    ensures IsSourceListing(EARLIER_TREE, [["a.py"]]) && IsSourceListing(LATER_TREE, LATER_FILES)
    ensures var target := SnapshotOf(Digest, appId, EARLIER_TREE, [["a.py"]], []).value;
            var safety := SnapshotOf(Digest, appId, LATER_TREE, LATER_FILES, [4]).value;
            var rolled := LATER_TREE[["a.py"] := File([3])];
            && RestoreFiles(Digest, LATER_TREE, target, target.files, None) == (rolled, true)
            && RestoreFiles(Digest, rolled, safety, safety.files, None) == (rolled, false)
  {
    hide SafeMemberPath, CheckedFile, IsCaptured, RestoreFiles, IsTree;
    LaterListing();
    EarlierListing();
    ListedFile(Digest, appId, EARLIER_TREE, [["a.py"]], [], 0);
    var target := SnapshotOf(Digest, appId, EARLIER_TREE, [["a.py"]], []).value;
    assert "a.py" != MANIFEST_ENTRY by { assert |"a.py"| == 4; }
    OneFile(Digest, LATER_TREE, target, ["a.py"], [3]);
    ManifestFileBlocksUndo(Digest, appId, LATER_TREE, LATER_FILES, [4], target, None);
  }

  lemma OneFile(sha: Hash, t: Tree, s: Snapshot, p: Path, data: bytes)
    requires |s.files| == 1 && CheckedFile(sha, s, s.files[0]) == Some((p, data)) && |p| == 1 && p in t && t[p].File?
    ensures RestoreFiles(sha, t, s, s.files, None) == (t[p := File(data)], true)
  {
    hide CheckedFile;
    assert p[..0] == [] && s.files[1..] == [];
  }

  lemma PythonIsCaptured()
    ensures IsCaptured(["a.py"])
  {
    assert "a.py"[1..] == ".py" && |"a.py"| == 4;
    LastDotAt("a.py", 1);
    assert Lower(".py") == ".py";
  }

  lemma ManifestIsCaptured()
    ensures IsCaptured([MANIFEST_ENTRY])
  {
    var name := MANIFEST_ENTRY;
    assert name[15..] == ".json" && |name| == 20;
    LastDotAt(name, 15);
    assert Lower(".json") == ".json";
  }

  lemma {:induction false} LastDotAt(name: string, i: nat)
    requires i < |name| && name[i] == '.' && forall j | i < j < |name| :: name[j] != '.'
    ensures LastDot(name) == i
  {
    if i < |name| - 1 { LastDotAt(name[..|name| - 1], i); }
  }

  // ----- the project --------------------------------------------------------

  datatype SnapshotError = NoSource | IndexFailed | NotFound | WrongApp | NotRestored

  class Project {
    const sha: Hash
    const appId: string
    var tree: Tree
    var archives: map<string, Snapshot>

    /** create_snapshot under a new id. The archive is in place before the index
        is read and saved, and stays when that fails. */
    method CreateSnapshot(id: string, listing: seq<Path>, manifestBytes: bytes, indexFails: bool)
      returns (r: Result<(), SnapshotError>)
      requires IsSourceListing(tree, listing) && id !in archives
      modifies this`archives
      ensures r == match SnapshotOf(sha, appId, tree, listing, manifestBytes)
                   case None => Err(NoSource)
                   case Some(_) => if indexFails then Err(IndexFailed) else Ok(())
      ensures archives == match SnapshotOf(sha, appId, tree, listing, manifestBytes)
                          case None => old(archives)
                          case Some(s) => old(archives)[id := s]
    {
      hide IsCaptured, Join;
      if listing == [] { return Err(NoSource); }
      var members: seq<(string, bytes)>, files: seq<(string, bytes)> := [], [];
      var i := 0;
      while i < |listing|
        modifies {}
        invariant 0 <= i <= |listing|
        invariant members == MembersOf(tree, listing)[..i] && files == FilesOf(sha, tree, listing)[..i]
      {
        var p := listing[i];
        assert p in listing;
        files := files + [(Join(p), sha(tree[p].data))];
        members := members + [(Join(p), tree[p].data)];
        i := i + 1;
      }
      assert members == MembersOf(tree, listing) && files == FilesOf(sha, tree, listing);
      archives := archives[id := Snapshot(appId, members, files, manifestBytes)];
      r := if indexFails then Err(IndexFailed) else Ok(());
    }

    /** restore_snapshot: a safety snapshot first, then the files one by one.
        The fault says where an I/O error strikes, if it does. */
    method RestoreSnapshot(id: string, safetyId: string, listing: seq<Path>, manifestBytes: bytes, indexFails: bool,
                           f: Option<Fault>)
      returns (r: Result<nat, SnapshotError>)
      requires IsSourceListing(tree, listing) && safetyId !in archives
      modifies this
      ensures id !in old(archives) ==> r == Err(NotFound) && archives == old(archives) && tree == old(tree)
      ensures id in old(archives) && listing == [] ==>
                r == Err(NoSource) && archives == old(archives) && tree == old(tree)
      ensures id in old(archives) && listing != [] ==>
                archives == old(archives)[safetyId := SnapshotOf(sha, appId, old(tree), listing, manifestBytes).value]
      ensures id in old(archives) && listing != [] && indexFails ==> r == Err(IndexFailed) && tree == old(tree)
      ensures id in old(archives) && listing != [] && !indexFails && old(archives)[id].appId != appId ==>
                r == Err(WrongApp) && tree == old(tree)
      ensures id in old(archives) && listing != [] && !indexFails && old(archives)[id].appId == appId ==>
                RestoreFiles(sha, old(tree), old(archives)[id], old(archives)[id].files, f) == (tree, r.Ok?)
                && r == if r.Ok? then Ok(|old(archives)[id].files|) else Err(NotRestored)
    {
      hide IsCaptured, Join, WriteFile, CheckedFile, PartialFile, SnapshotOf;
      if id !in archives { return Err(NotFound); }
      SnapshotExists(sha, appId, tree, listing, manifestBytes);
      var safety := CreateSnapshot(safetyId, listing, manifestBytes, indexFails);
      if safety.Err? { return Err(safety.error); }
      var s := archives[id];
      if s.appId != appId { return Err(WrongApp); }
      var restored := 0;
      while restored < |s.files|
        modifies this`tree
        invariant 0 <= restored <= |s.files|
        invariant f.Some? ==> f.value.at >= restored
        invariant RestoreFiles(sha, old(tree), s, s.files, f)
                  == RestoreFiles(sha, tree, s, s.files[restored..], Later(f, restored))
      {
        var file := s.files[restored];
        assert s.files[restored..][0] == file && s.files[restored..][1..] == s.files[restored + 1..];
        if f.Some? && f.value.at == restored {
          tree := PartialFile(sha, tree, s, file, Later(f, restored).value);
          return Err(NotRestored);
        }
        var written := RestoreFile(sha, tree, s, file);
        if written.None? { return Err(NotRestored); }
        tree := written.value;
        restored := restored + 1;
      }
      assert s.files[restored..] == [];
      r := Ok(restored);
    }
  }

  /** _iter_source_files, in any order. */
  method ListSources(tree: Tree) returns (listing: seq<Path>)
    ensures IsSourceListing(tree, listing)
  {
    hide IsCaptured;
    listing := [];
    var left := tree.Keys;
    while left != {}
      invariant left <= tree.Keys
      invariant forall p :: p in listing <==> p in tree && p !in left && tree[p].File? && IsCaptured(p)
      invariant forall i, j | 0 <= i < j < |listing| :: listing[i] != listing[j]
      decreases |left|
    {
      var p :| p in left;
      left := left - {p};
      if tree[p].File? && IsCaptured(p) { listing := listing + [p]; }
    }
  }

  /** Two calls of restore_snapshot, the second for the safety snapshot the first
      one took: unless the rollback was refused, it goes through, however the
      rollback ended, and every source file, and every path the rollback could
      not write, is as it was before. */
  method RollbackAndUndo(project: Project, id: string, safetyId: string, undoId: string, m1: bytes, m2: bytes,
                         indexFails: bool, f: Option<Fault>)
    returns (rolled: Result<nat, SnapshotError>, undone: Result<nat, SnapshotError>)
    requires IsTree(project.tree) && !HasManifestFile(project.tree)
    requires safetyId !in project.archives && undoId !in project.archives && undoId != safetyId
    modifies project
    ensures rolled.Ok? || rolled == Err(NotRestored) ==> undone.Ok? && id in old(project.archives)
    ensures rolled.Ok? || rolled == Err(NotRestored) ==>
              forall p | p in old(project.tree) && (IsCaptured(p) || !WrittenBy(old(project.archives)[id].files, p)) ::
                p in project.tree && project.tree[p] == old(project.tree)[p]
    ensures rolled.Err? && rolled.error in {NotFound, NoSource, IndexFailed, WrongApp} ==>
              project.tree == old(project.tree)
  {
    hide IsCaptured, WrittenBy, RestoreFiles, IsTree;
    var before := project.tree;
    var listing := ListSources(before);
    rolled := project.RestoreSnapshot(id, safetyId, listing, m1, indexFails, f);
    if rolled.Err? && rolled.error != NotRestored { return rolled, rolled; }
    ghost var target := old(project.archives)[id];
    RollbackUndone(project.sha, project.appId, before, listing, m1, target, f);
    var later := ListSources(project.tree);
    SourcesRemain(project.sha, before, target, f, listing, later);
    undone := project.RestoreSnapshot(safetyId, undoId, later, m2, false, None);
  }

  /** A rollback leaves source files where there were some. */
  lemma SourcesRemain(sha: Hash, before: Tree, target: Snapshot, f: Option<Fault>, listing: seq<Path>, later: seq<Path>)
    requires IsSourceListing(before, listing) && listing != []
    requires IsSourceListing(RestoreFiles(sha, before, target, target.files, f).0, later)
    ensures later != []
  {
    hide IsCaptured, WrittenBy, RestoreFiles;
    RestoreIsOverlay(sha, before, target, target.files, f);
    assert listing[0] in listing;
    assert listing[0] in later;
  }

  lemma SnapshotExists(sha: Hash, appId: string, t: Tree, listing: seq<Path>, manifestBytes: bytes)
    requires forall p | p in listing :: p in t && t[p].File?
    ensures SnapshotOf(sha, appId, t, listing, manifestBytes).Some? <==> listing != []
  {}

  /** The fault as it looks from file i on. */
  function Later(f: Option<Fault>, i: nat): Option<Fault>
    requires f.Some? ==> f.value.at >= i
  {
    match f case None => None case Some(x) => Some(x.(at := x.at - i))
  }
}
