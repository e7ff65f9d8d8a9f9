/** The sync engine (src/core/project-sync.ts): diff, push and pull between a project
    (or the user's `~/.claude`) and its mirror in the library.

    The filesystem is passed in and handed back as a `World` value. Each tracked root
    is a field of its own (the project's `CLAUDE.md` and `.claude/`, each library project
    mirror `projects/<name>`, `~/.claude` and the library's `global/`), so the roots are
    distinct by construction and the path helpers that name them are not needed. */
module ProjectSync {
  import opened Wrappers
  import opened Strings
  import opened Seqs
  import opened FileTree
  import Paths

  /** One side of the project boundary: `CLAUDE.md` and the `.claude/` tree. */
  datatype ProjectFiles = ProjectFiles(claudeMd: Option<Content>, claudeDir: Option<Tree>)

  /** The project directory at `path`: the `name` fields of its `package.json` and
      `composer.json` (`None` when the file is absent, does not parse, or has no string
      name) and its tracked files. */
  datatype LocalProject = LocalProject(
    path: string,
    packageName: Option<string>,
    composerName: Option<string>,
    files: ProjectFiles)

  /** `~/.claude` or the library's `global/`: whether the directory exists, its `CLAUDE.md`,
      and its `rules/` and `skills/` trees. */
  datatype GlobalFiles = GlobalFiles(
    present: bool,
    claudeMd: Option<Content>,
    rules: Option<Tree>,
    skills: Option<Tree>)

  /** Everything the sync engine reads or writes. A key of `mirrors` is present exactly
      when the library directory `projects/<key>` exists. */
  datatype World = World(
    project: LocalProject,
    mirrors: map<string, ProjectFiles>,
    user: GlobalFiles,
    libraryGlobal: GlobalFiles)

  const NO_FILES: ProjectFiles := ProjectFiles(None, None)

  const CLAUDE_PREFIX: string := ".claude/"
  const RULES_PREFIX: string := "rules/"
  const SKILLS_PREFIX: string := "skills/"

  /** What the library holds for project `name` (nothing when its directory is missing). */
  function MirrorOf(w: World, name: string): ProjectFiles {
    if name in w.mirrors then w.mirrors[name] else NO_FILES
  }

  // === PROJECT NAME ===

  /** `n.includes('/') ? n.split('/')[1] : n`: the second `/`-segment of a scoped name. */
  function ScopedName(n: string): (r: string)
    ensures '/' !in n ==> r == n
    ensures '/' !in r
  {
    if '/' in n then BeforeFirstSlash(n[|BeforeFirstSlash(n)| + 1..]) else n
  }

  lemma BeforeFirstSlashNone(s: string)
    requires '/' !in s
    ensures BeforeFirstSlash(s) == s
  {
  }

  /** `@scope/name` and `vendor/name/...` both give `name`; a name without `/` is kept. */
  lemma ScopedNameOf(scope: string, name: string, rest: string)
    requires '/' !in scope && '/' !in name
    ensures ScopedName(name) == name
    ensures ScopedName(scope + "/" + name) == name
    ensures ScopedName(scope + "/" + name + "/" + rest) == name
  {
    BeforeFirstSlashOf(scope, name);
    assert (scope + "/" + name)[|scope| + 1..] == name;
    BeforeFirstSlashNone(name);
    assert scope + "/" + name + "/" + rest == scope + "/" + (name + "/" + rest);
    BeforeFirstSlashOf(scope, name + "/" + rest);
    assert (scope + "/" + (name + "/" + rest))[|scope| + 1..] == name + "/" + rest;
    BeforeFirstSlashOf(name, rest);
  }

  /** Drops the trailing `/` characters, as `path.basename` does before it takes the last segment. */
  function StripTrailingSlashes(s: string): (r: string)
    ensures HasPrefix(s, r) && (r == [] || r[|r| - 1] != '/')
    ensures forall i :: |r| <= i < |s| ==> s[i] == '/'
  {
    if s != [] && s[|s| - 1] == '/' then StripTrailingSlashes(s[..|s| - 1]) else s
  }

  /** `path.basename` (POSIX). */
  function Basename(p: string): (r: string)
    ensures '/' !in r
    ensures HasPrefix(p, StripTrailingSlashes(p)) && HasSuffix(StripTrailingSlashes(p), r)
  {
    AfterLastSlash(StripTrailingSlashes(p))
  }

  /** `getProjectName`: the `package.json` name, else the `composer.json` name, else the
      directory's base name; an empty name counts as missing (it is falsy). Whichever
      source it comes from, the name holds no `/`. It may still be empty (`@scope/` gives
      the empty scoped name) or be `.` or `..`, names that `path.join` would resolve to the
      library's project directory itself or to its parent; the model keeps each name as a
      `mirrors` key of its own. */
  function GetProjectName(p: LocalProject): (r: string)
    ensures '/' !in r
  {
    if p.packageName.Some? && p.packageName.value != [] then ScopedName(p.packageName.value)
    else if p.composerName.Some? && p.composerName.value != [] then ScopedName(p.composerName.value)
    else Basename(p.path)
  }

  // === DIFF ===

  datatype DiffResult = DiffResult(
    hasDiff: bool,
    localOnly: seq<string>,
    libraryOnly: seq<string>,
    different: seq<string>,
    identical: seq<string>)

  /** The four lists of a `DiffResult`. */
  datatype Kind = LocalOnly | LibraryOnly | Different | Identical

  function Bucket(d: DiffResult, k: Kind): seq<string> {
    match k
    case LocalOnly => d.localOnly
    case LibraryOnly => d.libraryOnly
    case Different => d.different
    case Identical => d.identical
  }

  /** Appends `name` to list `k`. */
  function Record(d: DiffResult, name: string, k: Kind): (r: DiffResult)
    ensures r.hasDiff == d.hasDiff
    ensures forall k' :: Bucket(r, k') == if k' == k then Bucket(d, k') + [name] else Bucket(d, k')
  {
    match k
    case LocalOnly => d.(localOnly := d.localOnly + [name])
    case LibraryOnly => d.(libraryOnly := d.libraryOnly + [name])
    case Different => d.(different := d.different + [name])
    case Identical => d.(identical := d.identical + [name])
  }

  /** `compareFiles`: both files exist and their contents are equal. */
  function CompareFiles(a: Option<Content>, b: Option<Content>): (r: bool)
    ensures r <==> a.Some? && b.Some? && a.value == b.value
  {
    if a.None? || b.None? then false else a.value == b.value
  }

  /** How one path is classified from its content on each side (absent: `None`). */
  function Classify(local: Option<Content>, library: Option<Content>): Option<Kind> {
    if local.Some? && library.Some? then
      (if CompareFiles(local, library) then Some(Identical) else Some(Different))
    else if local.Some? then Some(LocalOnly)
    else if library.Some? then Some(LibraryOnly)
    else None
  }

  /** The class of display name `p` within the tree shown under `prefix`. */
  function TreeKind(prefix: string, local: Option<Tree>, library: Option<Tree>, p: string): Option<Kind> {
    if HasPrefix(p, prefix) then Classify(Lookup(local, p[|prefix|..]), Lookup(library, p[|prefix|..]))
    else None
  }

  /** The class of display name `p` across the project boundary. */
  function ProjectKind(local: ProjectFiles, library: ProjectFiles, p: string): Option<Kind> {
    if p == Paths.CLAUDE_MD_FILE then Classify(local.claudeMd, library.claudeMd)
    else TreeKind(CLAUDE_PREFIX, local.claudeDir, library.claudeDir, p)
  }

  /** The class of display name `p` across the global boundary. */
  function GlobalKind(local: GlobalFiles, library: GlobalFiles, p: string): Option<Kind> {
    if p == Paths.CLAUDE_MD_FILE then Classify(local.claudeMd, library.claudeMd)
    else if HasPrefix(p, RULES_PREFIX) then TreeKind(RULES_PREFIX, local.rules, library.rules, p)
    else TreeKind(SKILLS_PREFIX, local.skills, library.skills, p)
  }

  /** Every list is free of duplicates and `hasDiff` is set as the source sets it. */
  predicate WellFormed(d: DiffResult) {
    (forall k :: Distinct(Bucket(d, k))) &&
    d.hasDiff == (|d.localOnly| > 0 || |d.libraryOnly| > 0 || |d.different| > 0)
  }

  /** `d` is the diff of two project sides: name `p` is in list `k` exactly when `p` has class `k`. */
  ghost predicate DescribesProject(d: DiffResult, local: ProjectFiles, library: ProjectFiles) {
    WellFormed(d) && forall k, p :: p in Bucket(d, k) <==> ProjectKind(local, library, p) == Some(k)
  }

  /** `d` is the diff of two global sides. */
  ghost predicate DescribesGlobal(d: DiffResult, local: GlobalFiles, library: GlobalFiles) {
    WellFormed(d) && forall k, p :: p in Bucket(d, k) <==> GlobalKind(local, library, p) == Some(k)
  }

  /** `getRelativeFiles`: the files below a root, relative to it; none when it is absent. */
  method GetRelativeFiles(root: Option<Tree>) returns (files: seq<Path>)
    ensures IsListing(files, FilesOf(root))
  {
    if root.None? {
      files := [];
    } else {
      files := ListFiles(root.value);
    }
  }

  /** The single-file step of `diffProject`/`diffGlobal`: `name` goes to the list of its
      class, and nowhere when neither side has the file. */
  function DiffFile(name: string, local: Option<Content>, library: Option<Content>, d: DiffResult): (r: DiffResult)
    requires forall k :: Distinct(Bucket(d, k)) && name !in Bucket(d, k)
    ensures forall k :: Distinct(Bucket(r, k))
    ensures forall k, p :: p in Bucket(r, k) <==> p in Bucket(d, k) || (p == name && Classify(local, library) == Some(k))
    ensures r.hasDiff == d.hasDiff
  {
    var r :=
      if local.Some? && library.Some? then
        (if CompareFiles(local, library) then Record(d, name, Identical) else Record(d, name, Different))
      else if local.Some? then Record(d, name, LocalOnly)
      else if library.Some? then Record(d, name, LibraryOnly)
      else d;
    assert forall k :: Distinct(Bucket(r, k)) by {
      forall k ensures Distinct(Bucket(r, k)) {
        if Bucket(r, k) != Bucket(d, k) {
          DistinctSnoc(Bucket(d, k), name);
        }
      }
    }
    r
  }

  /** The files of `localFiles` followed by those of `libFiles` not already listed:
      `new Set([...localFiles, ...libFiles])` in its iteration order. */
  method UnionListing(localFiles: seq<Path>, libFiles: seq<Path>) returns (all: seq<Path>)
    requires Distinct(localFiles)
    ensures Distinct(all)
    ensures forall f :: f in all <==> f in localFiles || f in libFiles
  {
    all := localFiles;
    var j := 0;
    while j < |libFiles|
      invariant 0 <= j <= |libFiles|
      invariant Distinct(all)
      invariant forall f :: f in all <==> f in localFiles || f in libFiles[..j]
    {
      assert libFiles[..j + 1] == libFiles[..j] + [libFiles[j]];
      if libFiles[j] !in all {
        DistinctSnoc(all, libFiles[j]);
        all := all + [libFiles[j]];
      }
      j := j + 1;
    }
    assert libFiles[..j] == libFiles;
  }

  /** After the files `done` of a directory loop: `d` holds what `d0` held, plus the
      display name of every file in `done`, in the list of its class, and nothing else. */
  ghost predicate Covers(d: DiffResult, d0: DiffResult, prefix: string, local: Option<Tree>, library: Option<Tree>, done: seq<Path>) {
    (forall k, p :: p in Bucket(d0, k) ==> p in Bucket(d, k)) &&
    (forall k, f :: f in done && TreeKind(prefix, local, library, prefix + f) == Some(k) ==> prefix + f in Bucket(d, k)) &&
    (forall k, p :: p in Bucket(d, k) ==>
      p in Bucket(d0, k) ||
      (HasPrefix(p, prefix) && p[|prefix|..] in done && TreeKind(prefix, local, library, p) == Some(k)))
  }

  lemma CoversStep(d: DiffResult, d': DiffResult, d0: DiffResult, prefix: string, local: Option<Tree>, library: Option<Tree>,
                   done: seq<Path>, file: Path)
    requires Covers(d, d0, prefix, local, library, done)
    requires forall k, p :: p in Bucket(d', k) <==>
      p in Bucket(d, k) || (p == prefix + file && Classify(Lookup(local, file), Lookup(library, file)) == Some(k))
    ensures Covers(d', d0, prefix, local, library, done + [file])
  {
    PrefixedHasPrefix(prefix, file);
    forall k, f | f in done + [file] && TreeKind(prefix, local, library, prefix + f) == Some(k)
      ensures prefix + f in Bucket(d', k)
    {
      PrefixedHasPrefix(prefix, f);
      if f != file {
        assert f in done;
      }
    }
    forall k, p | p in Bucket(d', k)
      ensures p in Bucket(d0, k) ||
        (HasPrefix(p, prefix) && p[|prefix|..] in done + [file] && TreeKind(prefix, local, library, p) == Some(k))
    {
    }
  }

  /** A file not yet done has no entry in the lists. */
  lemma Unlisted(d: DiffResult, d0: DiffResult, prefix: string, local: Option<Tree>, library: Option<Tree>,
                 done: seq<Path>, file: Path)
    requires Covers(d, d0, prefix, local, library, done)
    requires forall k, p :: p in Bucket(d0, k) ==> !HasPrefix(p, prefix)
    requires file !in done
    ensures forall k :: prefix + file !in Bucket(d, k)
  {
    PrefixedHasPrefix(prefix, file);
  }

  /** One file of the directory loop keeps the lists duplicate-free and covered. */
  lemma DiffStep(d: DiffResult, d0: DiffResult, prefix: string, local: Option<Tree>, library: Option<Tree>,
                 done: seq<Path>, file: Path)
    requires Covers(d, d0, prefix, local, library, done)
    requires forall k :: Distinct(Bucket(d, k)) && prefix + file !in Bucket(d, k)
    ensures var d' := DiffFile(prefix + file, Lookup(local, file), Lookup(library, file), d);
      d'.hasDiff == d.hasDiff && (forall k :: Distinct(Bucket(d', k))) &&
      Covers(d', d0, prefix, local, library, done + [file])
  {
    var d' := DiffFile(prefix + file, Lookup(local, file), Lookup(library, file), d);
    CoversStep(d, d', d0, prefix, local, library, done, file);
  }

  /** The invariant of the directory loop after the files `done`. */
  ghost predicate DiffLoop(d: DiffResult, d0: DiffResult, prefix: string, local: Option<Tree>, library: Option<Tree>,
                           done: seq<Path>) {
    d.hasDiff == d0.hasDiff && (forall k :: Distinct(Bucket(d, k))) && Covers(d, d0, prefix, local, library, done)
  }

  /** The next file of the union is new to the lists, and diffing it keeps the invariant. */
  lemma DiffLoopStep(d: DiffResult, d0: DiffResult, prefix: string, local: Option<Tree>, library: Option<Tree>,
                     all: seq<Path>, i: nat)
    requires i < |all| && Distinct(all)
    requires forall k, p :: p in Bucket(d0, k) ==> !HasPrefix(p, prefix)
    requires DiffLoop(d, d0, prefix, local, library, all[..i])
    ensures forall k :: Distinct(Bucket(d, k)) && prefix + all[i] !in Bucket(d, k)
    ensures DiffLoop(DiffFile(prefix + all[i], Lookup(local, all[i]), Lookup(library, all[i]), d),
                     d0, prefix, local, library, all[..i + 1])
  {
    var file := all[i];
    assert file !in all[..i];
    Unlisted(d, d0, prefix, local, library, all[..i], file);
    DiffStep(d, d0, prefix, local, library, all[..i], file);
    assert all[..i + 1] == all[..i] + [file];
  }

  /** The per-directory loop of `diffProject`/`diffGlobal`: every file of the union of the
      two listings is appended, as `prefix + rel`, to the list of its class. */
  method DiffTree(prefix: string, local: Option<Tree>, library: Option<Tree>, d0: DiffResult)
    returns (d: DiffResult)
    requires forall k, p :: p in Bucket(d0, k) ==> !HasPrefix(p, prefix)
    requires forall k :: Distinct(Bucket(d0, k))
    ensures d.hasDiff == d0.hasDiff
    ensures forall k :: Distinct(Bucket(d, k))
    ensures forall k, p :: p in Bucket(d, k) ==> p in Bucket(d0, k) || TreeKind(prefix, local, library, p) == Some(k)
    ensures forall k, p :: p in Bucket(d0, k) ==> p in Bucket(d, k)
    ensures forall k, p :: TreeKind(prefix, local, library, p) == Some(k) ==> p in Bucket(d, k)
  {
    var localFiles := GetRelativeFiles(local);
    var libFiles := GetRelativeFiles(library);
    var all := UnionListing(localFiles, libFiles);
    d := d0;
    var i := 0;
    while i < |all|
      invariant 0 <= i <= |all|
      invariant DiffLoop(d, d0, prefix, local, library, all[..i])
    {
      var file := all[i];
      DiffLoopStep(d, d0, prefix, local, library, all, i);
      d := DiffFile(prefix + file, Lookup(local, file), Lookup(library, file), d);
      i := i + 1;
    }
    assert all[..i] == all;
    DiffLoopDone(d, d0, prefix, local, library, localFiles, libFiles, all);
  }

  /** The invariant over every file of either side gives the loop's postcondition. */
  lemma DiffLoopDone(d: DiffResult, d0: DiffResult, prefix: string, local: Option<Tree>, library: Option<Tree>,
                     localFiles: seq<Path>, libFiles: seq<Path>, all: seq<Path>)
    requires DiffLoop(d, d0, prefix, local, library, all)
    requires IsListing(localFiles, FilesOf(local)) && IsListing(libFiles, FilesOf(library))
    requires forall f :: f in all <==> f in localFiles || f in libFiles
    ensures d.hasDiff == d0.hasDiff
    ensures forall k :: Distinct(Bucket(d, k))
    ensures forall k, p :: p in Bucket(d, k) ==> p in Bucket(d0, k) || TreeKind(prefix, local, library, p) == Some(k)
    ensures forall k, p :: p in Bucket(d0, k) ==> p in Bucket(d, k)
    ensures forall k, p :: TreeKind(prefix, local, library, p) == Some(k) ==> p in Bucket(d, k)
  {
    CoversAll(d, d0, prefix, local, library, all);
  }

  /** Once every file of either side is done, the lists hold exactly the classified files. */
  lemma CoversAll(d: DiffResult, d0: DiffResult, prefix: string, local: Option<Tree>, library: Option<Tree>, all: seq<Path>)
    requires Covers(d, d0, prefix, local, library, all)
    requires forall f :: f in all <==> f in FilesOf(local) || f in FilesOf(library)
    ensures forall k, p :: p in Bucket(d, k) ==> p in Bucket(d0, k) || TreeKind(prefix, local, library, p) == Some(k)
    ensures forall k, p :: TreeKind(prefix, local, library, p) == Some(k) ==> p in Bucket(d, k)
  {
    forall k, p | TreeKind(prefix, local, library, p) == Some(k) ensures p in Bucket(d, k) {
      var rel := p[|prefix|..];
      assert rel in FilesOf(local) || rel in FilesOf(library);
      assert rel in all;
      PrefixSplit(p, prefix);
    }
  }

  function SetHasDiff(d: DiffResult): (r: DiffResult)
    ensures forall k :: Bucket(r, k) == Bucket(d, k)
    ensures r.hasDiff == (|d.localOnly| > 0 || |d.libraryOnly| > 0 || |d.different| > 0)
  {
    d.(hasDiff := |d.localOnly| > 0 || |d.libraryOnly| > 0 || |d.different| > 0)
  }

  const EMPTY_DIFF: DiffResult := DiffResult(false, [], [], [], [])

  /** `diffProject`: the project's `CLAUDE.md` and `.claude/` against the library mirror of
      the project's name (an absent mirror has no files). */
  method DiffProject(w: World) returns (d: DiffResult)
    ensures DescribesProject(d, w.project.files, MirrorOf(w, GetProjectName(w.project)))
  {
    var local := w.project.files;
    var library := MirrorOf(w, GetProjectName(w.project));
    d := DiffFile(Paths.CLAUDE_MD_FILE, local.claudeMd, library.claudeMd, EMPTY_DIFF);
    assert !HasPrefix(Paths.CLAUDE_MD_FILE, CLAUDE_PREFIX) by {
      PrefixesClash(Paths.CLAUDE_MD_FILE, Paths.CLAUDE_MD_FILE, CLAUDE_PREFIX);
    }
    var d1 := d;
    d := DiffTree(CLAUDE_PREFIX, local.claudeDir, library.claudeDir, d);
    var d2 := d;
    d := SetHasDiff(d);
    forall k, p ensures p in Bucket(d, k) <==> ProjectKind(local, library, p) == Some(k) {
      assert p in Bucket(d, k) <==> p in Bucket(d2, k);
      assert p in Bucket(d2, k) <==> p in Bucket(d1, k) || TreeKind(CLAUDE_PREFIX, local.claudeDir, library.claudeDir, p) == Some(k);
      assert p in Bucket(d1, k) <==> p == Paths.CLAUDE_MD_FILE && Classify(local.claudeMd, library.claudeMd) == Some(k);
    }
  }

  /** `diffGlobal`: `~/.claude`'s `CLAUDE.md`, `rules/` and `skills/` against the library's `global/`. */
  method DiffGlobal(w: World) returns (d: DiffResult)
    ensures DescribesGlobal(d, w.user, w.libraryGlobal)
  {
    var local, library := w.user, w.libraryGlobal;
    d := DiffFile(Paths.CLAUDE_MD_FILE, local.claudeMd, library.claudeMd, EMPTY_DIFF);
    PrefixesClash(Paths.CLAUDE_MD_FILE, Paths.CLAUDE_MD_FILE, RULES_PREFIX);
    PrefixesClash(Paths.CLAUDE_MD_FILE, Paths.CLAUDE_MD_FILE, SKILLS_PREFIX);
    var d1 := d;
    d := DiffTree(RULES_PREFIX, local.rules, library.rules, d);
    forall p ensures !(HasPrefix(p, RULES_PREFIX) && HasPrefix(p, SKILLS_PREFIX)) {
      PrefixesClash(p, RULES_PREFIX, SKILLS_PREFIX);
    }
    var d2 := d;
    forall k, p | p in Bucket(d2, k) ensures !HasPrefix(p, SKILLS_PREFIX) {
      assert p in Bucket(d1, k) || TreeKind(RULES_PREFIX, local.rules, library.rules, p) == Some(k);
    }
    d := DiffTree(SKILLS_PREFIX, local.skills, library.skills, d);
    var d3 := d;
    d := SetHasDiff(d);
    forall k, p ensures p in Bucket(d, k) <==> GlobalKind(local, library, p) == Some(k) {
      assert p in Bucket(d, k) <==> p in Bucket(d3, k);
      assert p in Bucket(d3, k) <==> p in Bucket(d2, k) || TreeKind(SKILLS_PREFIX, local.skills, library.skills, p) == Some(k);
      assert p in Bucket(d2, k) <==> p in Bucket(d1, k) || TreeKind(RULES_PREFIX, local.rules, library.rules, p) == Some(k);
      assert p in Bucket(d1, k) <==> p == Paths.CLAUDE_MD_FILE && Classify(local.claudeMd, library.claudeMd) == Some(k);
    }
  }

  // === PUSH / PULL ===

  /** The `message` of a `SyncResult`, one constructor per message the source writes. */
  datatype SyncMessage =
    | NoFilesToPush
    | Pushed(count: nat)
    | NoGlobalConfigLocally
    | PushedGlobal(count: nat)
    | ProjectNotInLibrary(projectName: string)
    | NoFilesToPull
    | Pulled(count: nat)
    | NoGlobalConfigInLibrary
    | PulledGlobal(count: nat)

  datatype SyncResult = SyncResult(success: bool, filesChanged: seq<string>, message: SyncMessage)

  /** The tracked roots of `dest` after those present in `src` were copied over it: a
      present `CLAUDE.md` overwrites, a present `.claude/` replaces the whole tree, and a
      root `src` lacks is left as it was. */
  function Overlay(src: ProjectFiles, dest: ProjectFiles): ProjectFiles {
    ProjectFiles(
      if src.claudeMd.Some? then src.claudeMd else dest.claudeMd,
      if src.claudeDir.Some? then src.claudeDir else dest.claudeDir)
  }

  /** The same for the global roots; the destination directory is created first. */
  function OverlayGlobal(src: GlobalFiles, dest: GlobalFiles): GlobalFiles {
    GlobalFiles(
      true,
      if src.claudeMd.Some? then src.claudeMd else dest.claudeMd,
      if src.rules.Some? then src.rules else dest.rules,
      if src.skills.Some? then src.skills else dest.skills)
  }

  /** `names`, the `filesChanged` of a project copy from `src`: `CLAUDE.md` first when `src`
      has one, then `.claude/<rel>` once for every file of `src`'s `.claude/`. */
  ghost predicate ReportsProjectCopy(names: seq<string>, src: ProjectFiles) {
    var h := if src.claudeMd.Some? then [Paths.CLAUDE_MD_FILE] else [];
    |h| <= |names| && names[..|h|] == h &&
    ListsTree(names[|h|..], CLAUDE_PREFIX, FilesOf(src.claudeDir))
  }

  /** The same for a global copy: `CLAUDE.md`, then the `rules/` files, then the `skills/` files. */
  ghost predicate ReportsGlobalCopy(names: seq<string>, src: GlobalFiles) {
    var h := if src.claudeMd.Some? then [Paths.CLAUDE_MD_FILE] else [];
    var nr := |FilesOf(src.rules)|;
    |h| + nr <= |names| && names[..|h|] == h &&
    ListsTree(names[|h|..|h| + nr], RULES_PREFIX, FilesOf(src.rules)) &&
    ListsTree(names[|h| + nr..], SKILLS_PREFIX, FilesOf(src.skills))
  }

  /** One directory of a push or pull: when the source directory exists, the destination is
      removed, re-created and filled with a copy of every source file. */
  method CopyRoot(prefix: string, src: Option<Tree>, dest: Option<Tree>) returns (r: Option<Tree>, written: seq<string>)
    ensures r == if src.Some? then src else dest
    ensures ListsTree(written, prefix, FilesOf(src))
  {
    if src.Some? {
      var tree;
      tree, written := CopyTree(prefix, src.value);
      r := Some(tree);
    } else {
      r, written := dest, [];
    }
  }

  /** Copies the roots of `src` present there over `dest`, as the push and pull loops do,
      and lists what was written. */
  method CopyProjectFiles(src: ProjectFiles, dest: ProjectFiles) returns (r: ProjectFiles, changed: seq<string>)
    ensures r == Overlay(src, dest)
    ensures ReportsProjectCopy(changed, src)
  {
    var h: seq<string> := [];
    var md := dest.claudeMd;
    if src.claudeMd.Some? {
      md := src.claudeMd;
      h := [Paths.CLAUDE_MD_FILE];
    }
    var dir, written := CopyRoot(CLAUDE_PREFIX, src.claudeDir, dest.claudeDir);
    r := ProjectFiles(md, dir);
    changed := h + written;
    assert changed[..|h|] == h && changed[|h|..] == written;
  }

  method CopyGlobalFiles(src: GlobalFiles, dest: GlobalFiles) returns (r: GlobalFiles, changed: seq<string>)
    ensures r == OverlayGlobal(src, dest)
    ensures ReportsGlobalCopy(changed, src)
  {
    var h: seq<string> := [];
    var md := dest.claudeMd;
    if src.claudeMd.Some? {
      md := src.claudeMd;
      h := [Paths.CLAUDE_MD_FILE];
    }
    var rules, rulesWritten := CopyRoot(RULES_PREFIX, src.rules, dest.rules);
    var skills, skillsWritten := CopyRoot(SKILLS_PREFIX, src.skills, dest.skills);
    r := GlobalFiles(true, md, rules, skills);
    changed := h + rulesWritten + skillsWritten;
    assert changed[..|h|] == h;
    assert changed[|h|..|h| + |rulesWritten|] == rulesWritten;
    assert changed[|h| + |rulesWritten|..] == skillsWritten;
  }

  /** `pushProject`: the project's `CLAUDE.md` and `.claude/` are copied into the library
      under the project's name; the mirror directory is created even when nothing is copied. */
  method PushProject(w: World) returns (w': World, r: SyncResult)
    ensures var name := GetProjectName(w.project);
      w' == w.(mirrors := w.mirrors[name := Overlay(w.project.files, MirrorOf(w, name))])
    ensures r.success && ReportsProjectCopy(r.filesChanged, w.project.files)
    ensures r.message == if r.filesChanged == [] then NoFilesToPush else Pushed(|r.filesChanged|)
  {
    var name := GetProjectName(w.project);
    var mirror, changed := CopyProjectFiles(w.project.files, MirrorOf(w, name));
    w' := w.(mirrors := w.mirrors[name := mirror]);
    if |changed| == 0 {
      r := SyncResult(true, [], NoFilesToPush);
    } else {
      r := SyncResult(true, changed, Pushed(|changed|));
    }
  }

  /** `pullProject`: fails, changing nothing, when the library has no directory for the
      project; otherwise the mirror's `CLAUDE.md` and `.claude/` are copied into the project. */
  method PullProject(w: World) returns (w': World, r: SyncResult)
    ensures var name := GetProjectName(w.project);
      name !in w.mirrors ==> w' == w && r == SyncResult(false, [], ProjectNotInLibrary(name))
    ensures var name := GetProjectName(w.project);
      name in w.mirrors ==>
        w' == w.(project := w.project.(files := Overlay(w.mirrors[name], w.project.files))) &&
        r.success && ReportsProjectCopy(r.filesChanged, w.mirrors[name]) &&
        r.message == if r.filesChanged == [] then NoFilesToPull else Pulled(|r.filesChanged|)
  {
    var name := GetProjectName(w.project);
    if name !in w.mirrors {
      return w, SyncResult(false, [], ProjectNotInLibrary(name));
    }
    var files, changed := CopyProjectFiles(w.mirrors[name], w.project.files);
    w' := w.(project := w.project.(files := files));
    if |changed| == 0 {
      r := SyncResult(true, [], NoFilesToPull);
    } else {
      r := SyncResult(true, changed, Pulled(|changed|));
    }
  }

  /** `pushGlobal`: `~/.claude`'s `CLAUDE.md`, `rules/` and `skills/` are copied into the
      library's `global/`, which is created first. */
  method PushGlobal(w: World) returns (w': World, r: SyncResult)
    ensures w' == w.(libraryGlobal := OverlayGlobal(w.user, w.libraryGlobal))
    ensures r.success && ReportsGlobalCopy(r.filesChanged, w.user)
    ensures r.message == if r.filesChanged == [] then NoGlobalConfigLocally else PushedGlobal(|r.filesChanged|)
  {
    var g, changed := CopyGlobalFiles(w.user, w.libraryGlobal);
    w' := w.(libraryGlobal := g);
    if |changed| == 0 {
      r := SyncResult(true, [], NoGlobalConfigLocally);
    } else {
      r := SyncResult(true, changed, PushedGlobal(|changed|));
    }
  }

  /** `pullGlobal`: the library's global files are copied into `~/.claude`, which is created
      first; pulling nothing counts as a failure. */
  method PullGlobal(w: World) returns (w': World, r: SyncResult)
    ensures w' == w.(user := OverlayGlobal(w.libraryGlobal, w.user))
    ensures ReportsGlobalCopy(r.filesChanged, w.libraryGlobal)
    ensures r.success <==> r.filesChanged != []
    ensures r.message == if r.filesChanged == [] then NoGlobalConfigInLibrary else PulledGlobal(|r.filesChanged|)
  {
    var g, changed := CopyGlobalFiles(w.libraryGlobal, w.user);
    w' := w.(user := g);
    if |changed| == 0 {
      r := SyncResult(false, [], NoGlobalConfigInLibrary);
    } else {
      r := SyncResult(true, changed, PulledGlobal(|changed|));
    }
  }

  // === STATUS ===

  datatype ProjectSyncStatus = ProjectSyncStatus(
    projectName: string,
    existsInLibrary: bool,
    hasDiff: bool,
    diff: Option<DiffResult>)

  /** `getProjectSyncStatus`: a project the library does not hold has no diff; otherwise the
      status carries the project's diff against its mirror. */
  method GetProjectSyncStatus(w: World) returns (st: ProjectSyncStatus)
    ensures st.projectName == GetProjectName(w.project)
    ensures st.existsInLibrary <==> GetProjectName(w.project) in w.mirrors
    ensures !st.existsInLibrary ==> !st.hasDiff && st.diff.None?
    ensures st.existsInLibrary ==>
      st.diff.Some? && st.hasDiff == st.diff.value.hasDiff &&
      DescribesProject(st.diff.value, w.project.files, w.mirrors[GetProjectName(w.project)])
  {
    var name := GetProjectName(w.project);
    if name !in w.mirrors {
      return ProjectSyncStatus(name, false, false, None);
    }
    var d := DiffProject(w);
    st := ProjectSyncStatus(name, true, d.hasDiff, Some(d));
  }

  // === PROPERTIES OF THE DIFF ===

  /** `CLAUDE.md` is never a display name under a tree prefix. */
  lemma DisplayNamesApart(rel: string)
    ensures CLAUDE_PREFIX + rel != Paths.CLAUDE_MD_FILE
    ensures RULES_PREFIX + rel != Paths.CLAUDE_MD_FILE && SKILLS_PREFIX + rel != Paths.CLAUDE_MD_FILE
    ensures !HasPrefix(RULES_PREFIX + rel, SKILLS_PREFIX)
  {
    assert (CLAUDE_PREFIX + rel)[0] == '.';
    assert (RULES_PREFIX + rel)[0] == 'r';
    assert (SKILLS_PREFIX + rel)[0] == 's';
    PrefixesClash(RULES_PREFIX + rel, RULES_PREFIX, SKILLS_PREFIX);
    PrefixedHasPrefix(RULES_PREFIX, rel);
  }

  /** Two roots with the same lookups hold the same files. */
  lemma SameFiles(a: Option<Tree>, b: Option<Tree>)
    requires forall rel :: Lookup(a, rel) == Lookup(b, rel)
    ensures FilesOf(a) == FilesOf(b)
  {
    forall rel ensures (rel in FilesOf(a) <==> rel in FilesOf(b)) && (rel in FilesOf(a) ==> FilesOf(a)[rel] == FilesOf(b)[rel]) {
      assert Lookup(a, rel) == Lookup(b, rel);
    }
    assert FilesOf(a).Keys == FilesOf(b).Keys;
  }

  /** `hasDiff` is set exactly when the two sides hold different tracked files (a file
      only one side has, or a file with different contents). */
  lemma {:induction false} ProjectHasDiffIff(d: DiffResult, local: ProjectFiles, library: ProjectFiles)
    requires DescribesProject(d, local, library)
    ensures d.hasDiff <==> local.claudeMd != library.claudeMd || FilesOf(local.claudeDir) != FilesOf(library.claudeDir)
  {
    if d.hasDiff {
      var k :| k != Identical && |Bucket(d, k)| > 0;
      var p := Bucket(d, k)[0];
      assert ProjectKind(local, library, p) == Some(k);
      if p != Paths.CLAUDE_MD_FILE {
        var rel := p[|CLAUDE_PREFIX|..];
        assert Lookup(local.claudeDir, rel) != Lookup(library.claudeDir, rel);
      }
    } else {
      forall rel ensures Lookup(local.claudeDir, rel) == Lookup(library.claudeDir, rel) {
        var p := CLAUDE_PREFIX + rel;
        DisplayNamesApart(rel);
        PrefixedHasPrefix(CLAUDE_PREFIX, rel);
        assert p !in Bucket(d, LocalOnly) && p !in Bucket(d, LibraryOnly) && p !in Bucket(d, Different);
        assert ProjectKind(local, library, p) == Classify(Lookup(local.claudeDir, rel), Lookup(library.claudeDir, rel));
        assert ProjectKind(local, library, p) != Some(LocalOnly) && ProjectKind(local, library, p) != Some(LibraryOnly);
        assert ProjectKind(local, library, p) != Some(Different);
      }
      SameFiles(local.claudeDir, library.claudeDir);
      assert Paths.CLAUDE_MD_FILE !in Bucket(d, LocalOnly) && Paths.CLAUDE_MD_FILE !in Bucket(d, LibraryOnly);
      assert Paths.CLAUDE_MD_FILE !in Bucket(d, Different);
      var c := ProjectKind(local, library, Paths.CLAUDE_MD_FILE);
      assert c == Classify(local.claudeMd, library.claudeMd);
      assert c != Some(LocalOnly) && c != Some(LibraryOnly) && c != Some(Different);
    }
  }

  /** The same for the global roots. */
  lemma {:induction false} GlobalHasDiffIff(d: DiffResult, local: GlobalFiles, library: GlobalFiles)
    requires DescribesGlobal(d, local, library)
    ensures d.hasDiff <==>
      local.claudeMd != library.claudeMd ||
      FilesOf(local.rules) != FilesOf(library.rules) ||
      FilesOf(local.skills) != FilesOf(library.skills)
  {
    if d.hasDiff {
      var k :| k != Identical && |Bucket(d, k)| > 0;
      var p := Bucket(d, k)[0];
      assert GlobalKind(local, library, p) == Some(k);
      if p != Paths.CLAUDE_MD_FILE && HasPrefix(p, RULES_PREFIX) {
        var rel := p[|RULES_PREFIX|..];
        assert Lookup(local.rules, rel) != Lookup(library.rules, rel);
      } else if p != Paths.CLAUDE_MD_FILE {
        var rel := p[|SKILLS_PREFIX|..];
        assert Lookup(local.skills, rel) != Lookup(library.skills, rel);
      }
    } else {
      forall rel ensures Lookup(local.rules, rel) == Lookup(library.rules, rel) {
        var p := RULES_PREFIX + rel;
        DisplayNamesApart(rel);
        PrefixedHasPrefix(RULES_PREFIX, rel);
        assert p !in Bucket(d, LocalOnly) && p !in Bucket(d, LibraryOnly) && p !in Bucket(d, Different);
        assert GlobalKind(local, library, p) == Classify(Lookup(local.rules, rel), Lookup(library.rules, rel));
        assert GlobalKind(local, library, p) != Some(LocalOnly) && GlobalKind(local, library, p) != Some(LibraryOnly);
        assert GlobalKind(local, library, p) != Some(Different);
      }
      forall rel ensures Lookup(local.skills, rel) == Lookup(library.skills, rel) {
        var p := SKILLS_PREFIX + rel;
        DisplayNamesApart(rel);
        PrefixedHasPrefix(SKILLS_PREFIX, rel);
        PrefixesClash(p, SKILLS_PREFIX, RULES_PREFIX);
        assert p !in Bucket(d, LocalOnly) && p !in Bucket(d, LibraryOnly) && p !in Bucket(d, Different);
        assert GlobalKind(local, library, p) == Classify(Lookup(local.skills, rel), Lookup(library.skills, rel));
        assert GlobalKind(local, library, p) != Some(LocalOnly) && GlobalKind(local, library, p) != Some(LibraryOnly);
        assert GlobalKind(local, library, p) != Some(Different);
      }
      SameFiles(local.rules, library.rules);
      SameFiles(local.skills, library.skills);
      assert Paths.CLAUDE_MD_FILE !in Bucket(d, LocalOnly) && Paths.CLAUDE_MD_FILE !in Bucket(d, LibraryOnly);
      assert Paths.CLAUDE_MD_FILE !in Bucket(d, Different);
      var c := GlobalKind(local, library, Paths.CLAUDE_MD_FILE);
      assert c == Classify(local.claudeMd, library.claudeMd);
      assert c != Some(LocalOnly) && c != Some(LibraryOnly) && c != Some(Different);
    }
  }

  /** The class seen from the other side. */
  function Mirrored(k: Kind): Kind {
    match k
    case LocalOnly => LibraryOnly
    case LibraryOnly => LocalOnly
    case Different => Different
    case Identical => Identical
  }

  /** A class, or its absence, seen from the other side. */
  function MirroredKind(c: Option<Kind>): Option<Kind> {
    if c.Some? then Some(Mirrored(c.value)) else None
  }

  lemma ClassifySwap(a: Option<Content>, b: Option<Content>)
    ensures Classify(b, a) == MirroredKind(Classify(a, b))
  {
  }

  lemma ProjectKindSwap(a: ProjectFiles, b: ProjectFiles, p: string)
    ensures ProjectKind(b, a, p) == MirroredKind(ProjectKind(a, b, p))
  {
    if p == Paths.CLAUDE_MD_FILE {
      ClassifySwap(a.claudeMd, b.claudeMd);
    } else if HasPrefix(p, CLAUDE_PREFIX) {
      ClassifySwap(Lookup(a.claudeDir, p[|CLAUDE_PREFIX|..]), Lookup(b.claudeDir, p[|CLAUDE_PREFIX|..]));
    }
  }

  lemma GlobalKindSwap(a: GlobalFiles, b: GlobalFiles, p: string)
    ensures GlobalKind(b, a, p) == MirroredKind(GlobalKind(a, b, p))
  {
    if p == Paths.CLAUDE_MD_FILE {
      ClassifySwap(a.claudeMd, b.claudeMd);
    } else if HasPrefix(p, RULES_PREFIX) {
      ClassifySwap(Lookup(a.rules, p[|RULES_PREFIX|..]), Lookup(b.rules, p[|RULES_PREFIX|..]));
    } else if HasPrefix(p, SKILLS_PREFIX) {
      ClassifySwap(Lookup(a.skills, p[|SKILLS_PREFIX|..]), Lookup(b.skills, p[|SKILLS_PREFIX|..]));
    }
  }

  /** Diffing in the other direction swaps `localOnly` and `libraryOnly` and keeps the
      `different` and `identical` names. */
  lemma {:induction false} ProjectDiffSwap(d: DiffResult, e: DiffResult, a: ProjectFiles, b: ProjectFiles)
    requires DescribesProject(d, a, b) && DescribesProject(e, b, a)
    ensures forall k, p :: p in Bucket(d, k) <==> p in Bucket(e, Mirrored(k))
  {
    forall k, p ensures p in Bucket(d, k) <==> p in Bucket(e, Mirrored(k)) {
      ProjectKindSwap(a, b, p);
      assert p in Bucket(d, k) <==> ProjectKind(a, b, p) == Some(k);
      assert p in Bucket(e, Mirrored(k)) <==> ProjectKind(b, a, p) == Some(Mirrored(k));
    }
  }

  /** The same for the global roots. */
  lemma {:induction false} GlobalDiffSwap(d: DiffResult, e: DiffResult, a: GlobalFiles, b: GlobalFiles)
    requires DescribesGlobal(d, a, b) && DescribesGlobal(e, b, a)
    ensures forall k, p :: p in Bucket(d, k) <==> p in Bucket(e, Mirrored(k))
  {
    forall k, p ensures p in Bucket(d, k) <==> p in Bucket(e, Mirrored(k)) {
      GlobalKindSwap(a, b, p);
      assert p in Bucket(d, k) <==> GlobalKind(a, b, p) == Some(k);
      assert p in Bucket(e, Mirrored(k)) <==> GlobalKind(b, a, p) == Some(Mirrored(k));
    }
  }

  /** After a push the mirror holds everything the project has: nothing is local-only or
      different, and a library-only name lies in a root the project does not have. When the
      project has both roots the diff is empty. */
  lemma {:induction false} PushConverges(d: DiffResult, local: ProjectFiles, mirror: ProjectFiles)
    requires DescribesProject(d, local, Overlay(local, mirror))
    ensures |d.localOnly| == 0 && |d.different| == 0
    ensures forall p :: p in d.libraryOnly ==>
      (p == Paths.CLAUDE_MD_FILE && local.claudeMd.None?) || (HasPrefix(p, CLAUDE_PREFIX) && local.claudeDir.None?)
    ensures local.claudeMd.Some? && local.claudeDir.Some? ==> !d.hasDiff
  {
    assert |d.localOnly| == 0 || ProjectKind(local, Overlay(local, mirror), d.localOnly[0]) == Some(LocalOnly);
    assert |d.different| == 0 || ProjectKind(local, Overlay(local, mirror), d.different[0]) == Some(Different);
    assert |d.libraryOnly| == 0 || ProjectKind(local, Overlay(local, mirror), d.libraryOnly[0]) == Some(LibraryOnly);
    forall p | p in d.libraryOnly
      ensures (p == Paths.CLAUDE_MD_FILE && local.claudeMd.None?) || (HasPrefix(p, CLAUDE_PREFIX) && local.claudeDir.None?)
    {
      assert ProjectKind(local, Overlay(local, mirror), p) == Some(LibraryOnly);
    }
  }

  /** After a pull the project holds everything the mirror has. */
  lemma {:induction false} PullConverges(d: DiffResult, local: ProjectFiles, mirror: ProjectFiles)
    requires DescribesProject(d, Overlay(mirror, local), mirror)
    ensures |d.libraryOnly| == 0 && |d.different| == 0
    ensures forall p :: p in d.localOnly ==>
      (p == Paths.CLAUDE_MD_FILE && mirror.claudeMd.None?) || (HasPrefix(p, CLAUDE_PREFIX) && mirror.claudeDir.None?)
    ensures mirror.claudeMd.Some? && mirror.claudeDir.Some? ==> !d.hasDiff
  {
    assert |d.libraryOnly| == 0 || ProjectKind(Overlay(mirror, local), mirror, d.libraryOnly[0]) == Some(LibraryOnly);
    assert |d.different| == 0 || ProjectKind(Overlay(mirror, local), mirror, d.different[0]) == Some(Different);
    assert |d.localOnly| == 0 || ProjectKind(Overlay(mirror, local), mirror, d.localOnly[0]) == Some(LocalOnly);
    forall p | p in d.localOnly
      ensures (p == Paths.CLAUDE_MD_FILE && mirror.claudeMd.None?) || (HasPrefix(p, CLAUDE_PREFIX) && mirror.claudeDir.None?)
    {
      assert ProjectKind(Overlay(mirror, local), mirror, p) == Some(LocalOnly);
    }
  }

  /** After `push --global` the library's global files hold everything `~/.claude` has. */
  lemma {:induction false} PushGlobalConverges(d: DiffResult, user: GlobalFiles, lib: GlobalFiles)
    requires DescribesGlobal(d, user, OverlayGlobal(user, lib))
    ensures |d.localOnly| == 0 && |d.different| == 0
    ensures forall p :: p in d.libraryOnly ==>
      (p == Paths.CLAUDE_MD_FILE && user.claudeMd.None?) ||
      (HasPrefix(p, RULES_PREFIX) && user.rules.None?) ||
      (HasPrefix(p, SKILLS_PREFIX) && user.skills.None?)
    ensures user.claudeMd.Some? && user.rules.Some? && user.skills.Some? ==> !d.hasDiff
  {
    assert |d.localOnly| == 0 || GlobalKind(user, OverlayGlobal(user, lib), d.localOnly[0]) == Some(LocalOnly);
    assert |d.different| == 0 || GlobalKind(user, OverlayGlobal(user, lib), d.different[0]) == Some(Different);
    assert |d.libraryOnly| == 0 || GlobalKind(user, OverlayGlobal(user, lib), d.libraryOnly[0]) == Some(LibraryOnly);
    forall p | p in d.libraryOnly
      ensures (p == Paths.CLAUDE_MD_FILE && user.claudeMd.None?) ||
        (HasPrefix(p, RULES_PREFIX) && user.rules.None?) ||
        (HasPrefix(p, SKILLS_PREFIX) && user.skills.None?)
    {
      assert GlobalKind(user, OverlayGlobal(user, lib), p) == Some(LibraryOnly);
    }
  }

  /** After `pull --global` `~/.claude` holds everything the library's global files have. */
  lemma {:induction false} PullGlobalConverges(d: DiffResult, user: GlobalFiles, lib: GlobalFiles)
    requires DescribesGlobal(d, OverlayGlobal(lib, user), lib)
    ensures |d.libraryOnly| == 0 && |d.different| == 0
    ensures forall p :: p in d.localOnly ==>
      (p == Paths.CLAUDE_MD_FILE && lib.claudeMd.None?) ||
      (HasPrefix(p, RULES_PREFIX) && lib.rules.None?) ||
      (HasPrefix(p, SKILLS_PREFIX) && lib.skills.None?)
    ensures lib.claudeMd.Some? && lib.rules.Some? && lib.skills.Some? ==> !d.hasDiff
  {
    assert |d.libraryOnly| == 0 || GlobalKind(OverlayGlobal(lib, user), lib, d.libraryOnly[0]) == Some(LibraryOnly);
    assert |d.different| == 0 || GlobalKind(OverlayGlobal(lib, user), lib, d.different[0]) == Some(Different);
    assert |d.localOnly| == 0 || GlobalKind(OverlayGlobal(lib, user), lib, d.localOnly[0]) == Some(LocalOnly);
    forall p | p in d.localOnly
      ensures (p == Paths.CLAUDE_MD_FILE && lib.claudeMd.None?) ||
        (HasPrefix(p, RULES_PREFIX) && lib.rules.None?) ||
        (HasPrefix(p, SKILLS_PREFIX) && lib.skills.None?)
    {
      assert GlobalKind(OverlayGlobal(lib, user), lib, p) == Some(LocalOnly);
    }
  }

  /** Pulling right after a push gives the project back unchanged exactly when every root
      the mirror held is also in the project (otherwise the pull brings that root in). */
  lemma PushPullRoundTrip(local: ProjectFiles, mirror: ProjectFiles)
    ensures Overlay(Overlay(local, mirror), local) == local <==>
      (local.claudeMd.Some? || mirror.claudeMd.None?) && (local.claudeDir.Some? || mirror.claudeDir.None?)
  {
  }

  /** The commands' reading of a diff as "the project is not in the library": no
      difference and nothing identical either. */
  predicate ReportsNotInLibrary(d: DiffResult) {
    !d.hasDiff && |d.identical| == 0
  }

  /** That reading holds exactly when neither side tracks any file, so it cannot tell an
      absent mirror from an empty project with an empty mirror. */
  lemma {:induction false} NotInLibraryIff(d: DiffResult, local: ProjectFiles, library: ProjectFiles)
    requires DescribesProject(d, local, library)
    ensures ReportsNotInLibrary(d) <==>
      local.claudeMd.None? && library.claudeMd.None? &&
      |FilesOf(local.claudeDir)| == 0 && |FilesOf(library.claudeDir)| == 0
  {
    if ReportsNotInLibrary(d) {
      assert forall k :: |Bucket(d, k)| == 0;
      var c := ProjectKind(local, library, Paths.CLAUDE_MD_FILE);
      assert c == Classify(local.claudeMd, library.claudeMd);
      assert forall k :: Paths.CLAUDE_MD_FILE !in Bucket(d, k);
      assert forall k :: c != Some(k);
      forall rel ensures rel !in FilesOf(local.claudeDir) && rel !in FilesOf(library.claudeDir) {
        var p := CLAUDE_PREFIX + rel;
        DisplayNamesApart(rel);
        PrefixedHasPrefix(CLAUDE_PREFIX, rel);
        var q := ProjectKind(local, library, p);
        assert q == Classify(Lookup(local.claudeDir, rel), Lookup(library.claudeDir, rel));
        assert forall k :: p !in Bucket(d, k);
        assert forall k :: q != Some(k);
      }
      EmptyTree(FilesOf(local.claudeDir));
      EmptyTree(FilesOf(library.claudeDir));
    } else {
      var k :| |Bucket(d, k)| > 0;
      var p := Bucket(d, k)[0];
      assert ProjectKind(local, library, p) == Some(k);
      if p != Paths.CLAUDE_MD_FILE {
        var rel := p[|CLAUDE_PREFIX|..];
        assert rel in FilesOf(local.claudeDir) || rel in FilesOf(library.claudeDir);
      }
    }
  }

  lemma EmptyTree(t: Tree)
    requires forall rel :: rel !in t
    ensures |t| == 0
  {
    assert t.Keys == {};
  }
}
