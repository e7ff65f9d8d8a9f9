/** Discovering initialised projects below the home directory (src/core/projects.ts), and
    the two display helpers beside it.

    `find` runs as a subprocess: its output, already trimmed and split into lines, is
    the parameter `lines` (`None` when the command fails or times out), and the set of
    directories that exist stands for `existsSync`. */
module Projects {
  import opened Wrappers
  import opened Strings
  import Paths

  /** `getProjectName`: the text after the last `/`, or the whole path when that is empty. */
  function GetProjectName(projectPath: string): (r: string)
    ensures HasSuffix(projectPath, r)
    ensures '/' !in projectPath ==> r == projectPath
    ensures r == projectPath || ('/' !in r && r != [] && projectPath[|projectPath| - |r| - 1] == '/')
  {
    var last := AfterLastSlash(projectPath);
    if last != [] then last else projectPath
  }

  /** The name of `dir/name` is `name` for a non-empty `name` without `/`; a path ending in
      `/` is its own name. */
  lemma ProjectNameOf(dir: string, name: string)
    requires '/' !in name
    ensures name != [] ==> GetProjectName(dir + "/" + name) == name
    ensures GetProjectName(dir + "/") == dir + "/"
  {
    AfterLastSlashOf(dir, name);
    AfterLastSlashOf(dir, "");
    assert dir + "/" + "" == dir + "/";
  }

  /** `shortenPath`: the first occurrence of the home directory becomes `~`. */
  function ShortenPath(home: string, path: string): (r: string)
    ensures !Contains(path, home) ==> r == path
  {
    ReplaceFirst(path, home, "~")
  }

  /** A path below the home directory is shown relative to `~`. */
  lemma ShortenHomePath(home: string, rest: string)
    ensures ShortenPath(home, home + rest) == "~" + rest
  {
    ReplaceLeading(home, rest, "~");
  }

  const CONFIG_SUFFIX: string := "/" + Paths.LOCAL_CONFIG_FILE
  const LIBRARY_MARK: string := ".contextmark"

  /** The directory a found configuration file names: the first `/.contextmark.yml` removed. */
  function Candidate(file: string): (r: string)
    ensures |r| <= |file|
    ensures !Contains(file, CONFIG_SUFFIX) ==> r == file
  {
    ReplaceFirst(file, CONFIG_SUFFIX, "")
  }

  /** A candidate is kept when it is not inside the library and the directory exists. */
  predicate Accepted(candidate: string, existing: set<string>) {
    !Contains(candidate, LIBRARY_MARK) && candidate in existing
  }

  /** The projects `findAllProjects` collects from the lines of `find`, in order: empty
      lines are skipped and each remaining line contributes its accepted candidate. */
  function ProjectsFrom(lines: seq<string>, existing: set<string>): (r: seq<string>)
    ensures |r| <= |lines|
    ensures forall p :: p in r ==> Accepted(p, existing)
    ensures forall p :: p in r <==> exists i :: 0 <= i < |lines| && lines[i] != [] && Candidate(lines[i]) == p && Accepted(p, existing)
  {
    if lines == [] then []
    else
      var init := lines[..|lines| - 1];
      var line := lines[|lines| - 1];
      var rest := ProjectsFrom(init, existing);
      assert forall i :: 0 <= i < |init| ==> init[i] == lines[i];
      if line != [] && Accepted(Candidate(line), existing) then rest + [Candidate(line)] else rest
  }

  /** `findAllProjects`: nothing when `find` fails; otherwise every non-empty line's
      candidate directory that is not inside the library and exists, in the order found. */
  method FindAllProjects(lines: Option<seq<string>>, existing: set<string>) returns (projects: seq<string>)
    ensures lines.None? ==> projects == []
    ensures lines.Some? ==> projects == ProjectsFrom(lines.value, existing)
  {
    projects := [];
    if lines.None? {
      return;
    }
    var files := lines.value;
    var i := 0;
    while i < |files|
      invariant 0 <= i <= |files|
      invariant projects == ProjectsFrom(files[..i], existing)
    {
      var file := files[i];
      assert files[..i + 1][..i] == files[..i];
      if file != [] {
        var projectPath := ReplaceFirst(file, CONFIG_SUFFIX, "");
        if !Contains(projectPath, LIBRARY_MARK) && projectPath in existing {
          projects := projects + [projectPath];
        }
      }
      i := i + 1;
    }
    assert files[..i] == files;
  }

  /** No occurrence of `/.contextmark.yml` starts inside a directory path that does not mention
      `.contextmark`, so the configuration file's own suffix is the first one. */
  lemma SuffixNotEarlier(dir: string, j: nat)
    requires !Contains(dir, LIBRARY_MARK) && j < |dir|
    ensures !OccursAt(dir + CONFIG_SUFFIX, CONFIG_SUFFIX, j)
  {
    var s := dir + CONFIG_SUFFIX;
    ContainsIff(dir, LIBRARY_MARK);
    if j + 13 <= |dir| {
      OccursAtSlice(s, CONFIG_SUFFIX, j, 1, 13);
      assert CONFIG_SUFFIX[1..13] == LIBRARY_MARK;
      OccursAtLeft(dir, CONFIG_SUFFIX, LIBRARY_MARK, j + 1);
    } else {
      var d := |dir| - j;
      assert forall k :: 1 <= k < 13 ==> CONFIG_SUFFIX[k] != '/';
      assert s[|dir|] == '/';
      OccursAtChar(s, CONFIG_SUFFIX, j, d);
    }
  }

  /** The configuration file of a directory outside the library is found as that directory. */
  lemma CandidateOf(dir: string)
    requires !Contains(dir, LIBRARY_MARK)
    ensures Candidate(dir + CONFIG_SUFFIX) == dir
  {
    var s := dir + CONFIG_SUFFIX;
    forall j | 0 <= j < |dir| ensures !OccursAt(s, CONFIG_SUFFIX, j) {
      SuffixNotEarlier(dir, j);
    }
    assert OccursAt(s, CONFIG_SUFFIX, |dir|) by { assert s[|dir|..|dir| + 17] == CONFIG_SUFFIX; }
    assert IndexOf(s, CONFIG_SUFFIX) == Some(|dir|);
    assert s[..|dir|] == dir;
    assert s[|dir| + 17..] == [];
  }

  /** Every existing directory outside the library whose configuration file `find` lists
      is found. */
  lemma FoundProject(lines: seq<string>, existing: set<string>, dir: string)
    requires !Contains(dir, LIBRARY_MARK) && dir in existing
    requires dir + CONFIG_SUFFIX in lines
    ensures dir in ProjectsFrom(lines, existing)
  {
    CandidateOf(dir);
    var i :| 0 <= i < |lines| && lines[i] == dir + CONFIG_SUFFIX;
    assert lines[i] != [];
  }
}
