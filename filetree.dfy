/** Directory trees as the sync engine sees them: the files below a root, keyed by their
    path relative to that root (src/lib/fs.ts `listFilesRecursive` only yields files, so
    empty sub-directories play no part). */
module FileTree {
  import opened Strings
  import opened Wrappers
  import opened Seqs

  type Path = string
  type Content = string

  /** Relative path to file content. */
  type Tree = map<Path, Content>

  /** The files of a root that may be absent; an absent root lists nothing
      (`getRelativeFiles` returns `[]` when the directory does not exist). */
  function FilesOf(root: Option<Tree>): Tree {
    if root.Some? then root.value else map[]
  }

  /** The content of `rel` below `root`, if that file exists. */
  function Lookup(root: Option<Tree>, rel: Path): Option<Content> {
    if root.Some? && rel in root.value then Some(root.value[rel]) else None
  }

  /** `files` lists every key of `t` exactly once, in some order. */
  ghost predicate IsListing(files: seq<Path>, t: Tree) {
    Distinct(files) && |files| == |t| && (forall f :: f in files <==> f in t)
  }

  /** `names` lists `prefix + rel` exactly once for every file `rel` of `t`, and nothing else. */
  ghost predicate ListsTree(names: seq<string>, prefix: string, t: Tree) {
    Distinct(names) && |names| == |t| &&
    (forall i :: 0 <= i < |names| ==> HasPrefix(names[i], prefix) && names[i][|prefix|..] in t) &&
    (forall f :: f in t ==> prefix + f in names)
  }

  lemma PrefixInjective(prefix: string, a: string, b: string)
    ensures (prefix + a == prefix + b) <==> a == b
  {
    if prefix + a == prefix + b {
      assert (prefix + a)[|prefix|..] == a;
      assert (prefix + b)[|prefix|..] == b;
    }
  }

  lemma PrefixedHasPrefix(prefix: string, a: string)
    ensures HasPrefix(prefix + a, prefix) && (prefix + a)[|prefix|..] == a
  {
    assert (prefix + a)[..|prefix|] == prefix;
  }

  /** `listFilesRecursive(dir)` made relative to `dir`: every file once, in the
      filesystem's own order, which the model leaves open. */
  method ListFiles(t: Tree) returns (files: seq<Path>)
    ensures IsListing(files, t)
  {
    files := [];
    var rest := t.Keys;
    while rest != {}
      invariant Distinct(files)
      invariant forall f :: f in files ==> f in t && f !in rest
      invariant forall f :: f in t ==> f in files || f in rest
      invariant rest <= t.Keys
      invariant |files| + |rest| == |t.Keys|
      decreases |rest|
    {
      var f :| f in rest;
      files := files + [f];
      rest := rest - {f};
    }
  }

  /** Copy every file of `src` into a freshly emptied destination, one `copyFile` at a
      time, naming each copied file `prefix + rel` in the order it was written. */
  method CopyTree(prefix: string, src: Tree) returns (dest: Tree, written: seq<string>)
    ensures dest == src
    ensures ListsTree(written, prefix, src)
  {
    var files := ListFiles(src);
    dest := map[];
    written := [];
    var i := 0;
    while i < |files|
      invariant 0 <= i <= |files|
      invariant forall f :: f in dest <==> f in files[..i]
      invariant forall f :: f in dest ==> f in src && dest[f] == src[f]
      invariant |written| == i
      invariant forall k :: 0 <= k < i ==> written[k] == prefix + files[k]
    {
      var rel := files[i];
      dest := dest[rel := src[rel]];
      written := written + [prefix + rel];
      i := i + 1;
    }
    assert files[..i] == files;
    assert dest.Keys == src.Keys;
    WrittenLists(prefix, src, files, written);
  }

  /** Naming each listed file `prefix + rel`, in listing order, lists the tree under `prefix`. */
  lemma WrittenLists(prefix: string, src: Tree, files: seq<Path>, written: seq<string>)
    requires IsListing(files, src)
    requires |written| == |files| && forall k :: 0 <= k < |files| ==> written[k] == prefix + files[k]
    ensures ListsTree(written, prefix, src)
  {
    forall a, b | 0 <= a < b < |written| ensures written[a] != written[b] {
      PrefixInjective(prefix, files[a], files[b]);
    }
    forall k | 0 <= k < |written|
      ensures HasPrefix(written[k], prefix) && written[k][|prefix|..] in src
    {
      PrefixedHasPrefix(prefix, files[k]);
    }
    forall f | f in src ensures prefix + f in written {
      var k :| 0 <= k < |files| && files[k] == f;
      assert written[k] == prefix + f;
    }
  }
}
