/** Blocks (src/core/block.ts): Markdown files under `~/.contextmark/blocks/`, each with a
    YAML front matter, a trimmed body and a content hash.

    The blocks directory is a map from full path to raw file content. The md5 digest and
    the YAML parser are foreign and are passed in as functions (`Parsers`); gray-matter's
    split of a file into front matter and body is written out. */
module Blocks {
  import opened Wrappers
  import opened Strings
  import opened Seqs
  import opened Errors
  import opened Validators
  import Paths

  type Md5Hex = s: string | |s| == 32 witness "00000000000000000000000000000000"

  /** The front matter of a block as the YAML parser returns it. */
  datatype Frontmatter = Frontmatter(name: string, description: string, version: string, tags: seq<string>)

  /** The foreign calls: `createHash('md5')…digest('hex')` and YAML parsing of the front
      matter text (`None` when it does not parse). */
  datatype Parsers = Parsers(md5Hex: string -> Md5Hex, yaml: string -> Option<Frontmatter>)

  datatype Block = Block(path: string, slug: string, frontmatter: Frontmatter, content: string, hash: string)

  datatype BlockCategory = BlockCategory(name: string, blocks: seq<Block>)

  /** Full path to raw file content. */
  type Files = map<string, string>

  // === FRONT MATTER ===

  const DELIMITER: string := "---"
  const CLOSE: string := "\n---"

  /** A file split into its raw front matter and its body. */
  datatype Split = Split(matter: string, body: string)

  /** After the closing delimiter gray-matter drops one `\r` and then one `\n`. */
  function DropLineBreak(s: string): (r: string)
    ensures HasSuffix(s, r) && |s| - 2 <= |r|
  {
    var t := if s != [] && s[0] == '\r' then s[1..] else s;
    if t != [] && t[0] == '\n' then t[1..] else t
  }

  const BOM: char := '\U{FEFF}'

  /** gray-matter reads the file with one leading byte order mark removed. */
  function StripBom(s: string): (r: string)
    ensures s != [] && s[0] == BOM ==> r == s[1..]
    ensures s == [] || s[0] != BOM ==> r == s
  {
    if s != [] && s[0] == BOM then s[1..] else s
  }

  /** gray-matter, once a leading byte order mark is removed: a file that opens with `---`
      (not followed by a fourth `-`) has front matter up to the first `\n---`, and the body
      is what follows that delimiter less one line break; when the delimiter never comes,
      the front matter runs to the end of the file and the body is empty. Any other file
      is all body. */
  function SplitMatter(s: string): (r: Split)
    ensures var c := StripBom(s);
      !HasPrefix(c, DELIMITER) || (|c| > 3 && c[3] == '-') ==> r == Split("", c)
    ensures var c := StripBom(s);
      HasPrefix(c, DELIMITER) && !(|c| > 3 && c[3] == '-') ==>
        HasPrefix(c[3..], r.matter) && !Contains(r.matter, CLOSE)
    ensures var c := StripBom(s);
      HasPrefix(c, DELIMITER) && !(|c| > 3 && c[3] == '-') ==>
        if Contains(c[3..], CLOSE) then
          OccursAt(c[3..], CLOSE, |r.matter|) && r.body == DropLineBreak(c[3..][|r.matter| + 4..])
        else r == Split(c[3..], "")
  {
    var c := StripBom(s);
    if !HasPrefix(c, DELIMITER) || (|c| > 3 && c[3] == '-') then Split("", c)
    else
      var str := c[3..];
      match IndexOf(str, CLOSE)
      case None => Split(str, "")
      case Some(i) =>
        assert !Contains(str[..i], CLOSE) by {
          forall j: nat | OccursAt(str[..i], CLOSE, j) ensures j < i && OccursAt(str, CLOSE, j) {
            assert str[j..j + 4] == str[..i][j..j + 4];
          }
        }
        Split(str[..i], DropLineBreak(str[i + 4..]))
  }

  /** A byte order mark in front of a file changes nothing about its split. */
  lemma SplitMatterBom(s: string)
    requires s == [] || s[0] != BOM
    ensures SplitMatter([BOM] + s) == SplitMatter(s)
  {
    assert ([BOM] + s)[1..] == s;
  }

  /** No line break in `s` is directly followed by `-`, so no closing delimiter starts in `s`. */
  predicate NoDashAfterBreak(s: string) {
    forall j :: 0 <= j < |s| - 1 && s[j] == '\n' ==> s[j + 1] != '-'
  }

  /** Text whose line breaks are never followed by `-` holds no closing delimiter. */
  lemma NoDashNoClose(m: string)
    requires NoDashAfterBreak(m)
    ensures !Contains(m, CLOSE)
  {
    ContainsIff(m, CLOSE);
    forall j: nat ensures !OccursAt(m, CLOSE, j) {
      OccursAtChar(m, CLOSE, j, 0);
      OccursAtChar(m, CLOSE, j, 1);
    }
  }

  /** When `m` holds no `\n---`, the first one in `m + "\n---" + rest` is the appended one:
      an occurrence reaching past the end of `m` would need a `-` where the delimiter's
      own line break stands. */
  lemma FirstCloseAt(m: string, rest: string)
    requires !Contains(m, CLOSE)
    ensures IndexOf(m + CLOSE + rest, CLOSE) == Some(|m|)
  {
    var s := m + CLOSE + rest;
    ContainsIff(m, CLOSE);
    assert s == m + (CLOSE + rest);
    forall j | 0 <= j < |m| ensures !OccursAt(s, CLOSE, j) {
      if j + 4 <= |m| {
        OccursAtLeft(m, CLOSE + rest, CLOSE, j);
      } else {
        assert s[|m|] == '\n';
        OccursAtChar(s, CLOSE, j, |m| - j);
      }
    }
    assert OccursAt(s, CLOSE, |m|) by {
      assert s[|m|..|m| + 4] == CLOSE;
    }
  }

  /** A file written as `---`, front matter `m`, `\n---` and then `rest` splits back into
      `m` and `rest` less its leading line break, for every `m` that holds no `\n---` and
      does not open with a fourth `-`. */
  lemma SplitMatterOf(m: string, rest: string)
    requires !Contains(m, CLOSE) && (m == [] || m[0] != '-')
    ensures SplitMatter(DELIMITER + m + CLOSE + rest) == Split(m, DropLineBreak(rest))
  {
    var t := m + CLOSE + rest;
    var s := DELIMITER + t;
    assert s == DELIMITER + m + CLOSE + rest;
    assert s[..3] == DELIMITER && s[3..] == t && s[3] == t[0];
    assert StripBom(s) == s;
    FirstCloseAt(m, rest);
    assert t[..|m|] == m;
    assert t[|m| + 4..] == rest;
  }

  // === BLOCKS ===

  /** `getBlockSlug`: the first `BLOCKS_DIR/` and then the first `.md` are removed. */
  function GetBlockSlug(home: string, path: string): (r: string)
    ensures |r| <= |path|
    ensures !Contains(path, Paths.BlocksDir(home) + "/") && !Contains(path, ".md") ==> r == path
  {
    ReplaceFirst(ReplaceFirst(path, Paths.BlocksDir(home) + "/", ""), ".md", "")
  }

  /** Extracting the slug from `getBlockPath(slug)` gives the slug back for every valid block name. */
  lemma BlockSlugRoundTrip(home: string, slug: string)
    requires IsValidBlockName(slug)
    ensures GetBlockSlug(home, Paths.GetBlockPath(home, slug)) == slug
  {
    var dir := Paths.BlocksDir(home) + "/";
    assert Paths.GetBlockPath(home, slug) == dir + (slug + ".md");
    ReplaceLeading(dir, slug + ".md", "");
    assert "" + (slug + ".md") == slug + ".md";
    ReplaceTrailing(slug, ".md", "");
    assert slug + "" == slug;
  }

  /** The hash: the first 8 hex digits of the md5 of the whole raw file, front matter included. */
  function Hash(parsers: Parsers, raw: string): (r: string)
    ensures |r| == 8 && HasPrefix(parsers.md5Hex(raw), r)
  {
    parsers.md5Hex(raw)[..8]
  }

  /** `parseBlock` of the file at `path` with raw text `raw`: the hash is taken over the
      raw text and the content is the trimmed body; a front matter that does not parse
      fails. */
  function ParseBlock(home: string, parsers: Parsers, path: string, raw: string): (r: Result<Block, Error>)
    ensures r.Failure? <==> parsers.yaml(SplitMatter(raw).matter).None?
    ensures r.Failure? ==> r.error == MalformedFile(path)
    ensures r.Success? ==>
      r.value.path == path && r.value.slug == GetBlockSlug(home, path) &&
      Some(r.value.frontmatter) == parsers.yaml(SplitMatter(raw).matter) &&
      r.value.hash == Hash(parsers, raw)
  {
    var split := SplitMatter(raw);
    match parsers.yaml(split.matter)
    case None => Failure(MalformedFile(path))
    case Some(fm) => Success(Block(path, GetBlockSlug(home, path), fm, Trim(split.body), Hash(parsers, raw)))
  }

  /** The hash and the content of a block depend on the raw file text alone, not on where
      the file lies: two files with the same text have the same hash and the same content. */
  lemma SameTextSameBlock(home: string, parsers: Parsers, p1: string, p2: string, raw: string)
    requires ParseBlock(home, parsers, p1, raw).Success?
    ensures ParseBlock(home, parsers, p2, raw).Success?
    ensures ParseBlock(home, parsers, p1, raw).value.hash == ParseBlock(home, parsers, p2, raw).value.hash
    ensures ParseBlock(home, parsers, p1, raw).value.content == ParseBlock(home, parsers, p2, raw).value.content
  {
  }

  /** `loadBlock`: `BlockNotFound` when no file lies at `getBlockPath(slug)`. */
  function LoadBlock(home: string, parsers: Parsers, files: Files, slug: string): (r: Result<Block, Error>)
    ensures Paths.GetBlockPath(home, slug) !in files ==> r == Failure(BlockNotFound(slug))
    ensures Paths.GetBlockPath(home, slug) in files ==>
      r == ParseBlock(home, parsers, Paths.GetBlockPath(home, slug), files[Paths.GetBlockPath(home, slug)])
  {
    var path := Paths.GetBlockPath(home, slug);
    if path !in files then Failure(BlockNotFound(slug))
    else ParseBlock(home, parsers, path, files[path])
  }

  /** A block loaded under a valid name carries that name as its slug. */
  lemma LoadedSlug(home: string, parsers: Parsers, files: Files, slug: string)
    requires IsValidBlockName(slug)
    ensures LoadBlock(home, parsers, files, slug).Success? ==> LoadBlock(home, parsers, files, slug).value.slug == slug
  {
    BlockSlugRoundTrip(home, slug);
  }

  /** `blockExists`. */
  predicate BlockExists(home: string, files: Files, slug: string) {
    Paths.GetBlockPath(home, slug) in files
  }

  /** A block exists exactly when loading it does not report it missing; a file that is
      there but malformed is still reported as existing. */
  lemma BlockExistsIff(home: string, parsers: Parsers, files: Files, slug: string)
    ensures BlockExists(home, files, slug) <==> LoadBlock(home, parsers, files, slug) != Failure(BlockNotFound(slug))
  {
  }

  /** `getBlockContent`: the trimmed body of the loaded block. */
  function GetBlockContent(home: string, parsers: Parsers, files: Files, slug: string): (r: Result<string, Error>)
    ensures r.Success? <==> LoadBlock(home, parsers, files, slug).Success?
    ensures r.Success? ==> r.value == LoadBlock(home, parsers, files, slug).value.content
    ensures r.Failure? ==> r.error == LoadBlock(home, parsers, files, slug).error
  {
    match LoadBlock(home, parsers, files, slug)
    case Success(b) => Success(b.content)
    case Failure(e) => Failure(e)
  }

  // === WRITES ===

  /** The file `createBlock` writes: `---`, the front matter lines, `---`, an empty line,
      the content and an empty line. */
  function BlockTemplate(name: string, description: string): string {
    DELIMITER + TemplateMatter(name, description) + "\n---\n\n" + TemplateContent(name) + "\n\n"
  }

  /** The front matter text of the template. */
  function TemplateMatter(name: string, description: string): string {
    FieldLine("name: " + name) + FieldLine("description: " + description) +
    FieldLine("version: 1.0.0") + FieldLine("tags: []")
  }

  /** The block content of a fresh block: its heading and the placeholder comment. */
  function TemplateContent(name: string): string {
    "## " + name + "\n\n<!-- Add your content here -->"
  }

  /** The template is the delimiter, the front matter, the closing delimiter, and the body. */
  lemma TemplateLayout(name: string, description: string)
    ensures BlockTemplate(name, description) ==
      DELIMITER + TemplateMatter(name, description) + CLOSE + ("\n" + ("\n" + TemplateContent(name) + "\n\n"))
  {
    var m, c := TemplateMatter(name, description), TemplateContent(name);
    assert "\n---\n\n" == CLOSE + "\n" + "\n";
    assert DELIMITER + m + "\n---\n\n" + c + "\n\n" == DELIMITER + m + CLOSE + ("\n" + ("\n" + c + "\n\n"));
  }

  /** One line of the template's front matter: a line break and the line. */
  function FieldLine(line: string): string {
    "\n" + line
  }

  /** A line that does not open with `-`, put after a line break and before text that
      is empty or starts a new line, adds no `\n-`. */
  lemma LinePrepend(line: string, rest: string)
    requires '\n' !in line && line != [] && line[0] != '-'
    requires NoDashAfterBreak(rest) && (rest == [] || rest[0] == '\n')
    ensures NoDashAfterBreak(FieldLine(line) + rest)
  {
    var s := FieldLine(line) + rest;
    forall j | 1 <= j <= |line| ensures s[j] != '\n' {
      assert s[j] == line[j - 1];
    }
    forall j | 0 <= j < |s| - 1 && s[j] == '\n' ensures s[j + 1] != '-' {
      if j == 0 {
        assert s[1] == line[0];
      } else if j > |line| {
        assert s[j] == rest[j - 1 - |line|] && s[j + 1] == rest[j - |line|];
      }
    }
  }

  /** No line of the template's front matter opens with `-` when the name and description are one line each. */
  lemma TemplateMatterOpen(name: string, description: string)
    requires '\n' !in name && '\n' !in description
    ensures NoDashAfterBreak(TemplateMatter(name, description))
  {
    var a, b, c, d := FieldLine("name: " + name), FieldLine("description: " + description),
                      FieldLine("version: 1.0.0"), FieldLine("tags: []");
    LinePrepend("tags: []", []);
    assert d + [] == d;
    LinePrepend("version: 1.0.0", d);
    LinePrepend("description: " + description, c + d);
    assert b + (c + d) == FieldLine("description: " + description) + (c + d);
    LinePrepend("name: " + name, b + (c + d));
    assert TemplateMatter(name, description) == a + (b + (c + d));
  }

  /** For a one-line name and description, the template's front matter is the four
      fields `name`, `description`, `version: 1.0.0` and `tags: []`, and its content is the
      heading and the placeholder. */
  lemma TemplateParses(name: string, description: string)
    requires '\n' !in name && '\n' !in description
    ensures SplitMatter(BlockTemplate(name, description)).matter == TemplateMatter(name, description)
    ensures Trim(SplitMatter(BlockTemplate(name, description)).body) == TemplateContent(name)
  {
    var c := TemplateContent(name);
    TemplateSplit(name, description);
    TrimOf("\n", c, "\n\n");
    assert "\n" + c + "\n\n" == SplitMatter(BlockTemplate(name, description)).body;
  }

  /** The template splits into its front matter and the body after the closing line break. */
  lemma TemplateSplit(name: string, description: string)
    requires '\n' !in name && '\n' !in description
    ensures SplitMatter(BlockTemplate(name, description)) ==
      Split(TemplateMatter(name, description), "\n" + TemplateContent(name) + "\n\n")
  {
    var m := TemplateMatter(name, description);
    var body := "\n" + TemplateContent(name) + "\n\n";
    TemplateLayout(name, description);
    TemplateMatterOpen(name, description);
    NoDashNoClose(m);
    SplitMatterOf(m, "\n" + body);
    DropOneBreak(body);
  }

  lemma DropOneBreak(b: string)
    ensures DropLineBreak("\n" + b) == b
  {
    assert ("\n" + b)[1..] == b;
  }

  /** `createBlock`: writes the template at `getBlockPath(slug)`, replacing any file there,
      and parses it back. */
  function CreateBlock(home: string, parsers: Parsers, files: Files, slug: string, name: string, description: string)
    : (r: (Files, Result<Block, Error>))
    ensures r.0 == files[Paths.GetBlockPath(home, slug) := BlockTemplate(name, description)]
    ensures r.1 == LoadBlock(home, parsers, r.0, slug)
  {
    var path := Paths.GetBlockPath(home, slug);
    var files' := files[path := BlockTemplate(name, description)];
    (files', ParseBlock(home, parsers, path, files'[path]))
  }

  /** A block created under a valid name with a one-line name and description loads with
      that slug and the template's content. */
  lemma CreatedBlock(home: string, parsers: Parsers, files: Files, slug: string, name: string, description: string)
    requires IsValidBlockName(slug) && '\n' !in name && '\n' !in description
    requires parsers.yaml(TemplateMatter(name, description)).Some?
    ensures CreateBlock(home, parsers, files, slug, name, description).1.Success?
    ensures CreateBlock(home, parsers, files, slug, name, description).1.value.slug == slug
    ensures CreateBlock(home, parsers, files, slug, name, description).1.value.content == TemplateContent(name)
  {
    TemplateParses(name, description);
    BlockSlugRoundTrip(home, slug);
  }

  /** `updateBlockContent`: `BlockNotFound`, writing nothing, when the block is absent;
      otherwise the file is replaced by `content` and parsed back. */
  function UpdateBlockContent(home: string, parsers: Parsers, files: Files, slug: string, content: string)
    : (r: (Files, Result<Block, Error>))
    ensures !BlockExists(home, files, slug) ==> r == (files, Failure(BlockNotFound(slug)))
    ensures BlockExists(home, files, slug) ==>
      r.0 == files[Paths.GetBlockPath(home, slug) := content] && r.1 == LoadBlock(home, parsers, r.0, slug)
  {
    var path := Paths.GetBlockPath(home, slug);
    if path !in files then (files, Failure(BlockNotFound(slug)))
    else
      var files' := files[path := content];
      (files', ParseBlock(home, parsers, path, content))
  }

  /** After an update the block's content is the trimmed body of the new text. */
  lemma UpdateThenContent(home: string, parsers: Parsers, files: Files, slug: string, content: string)
    requires BlockExists(home, files, slug)
    requires parsers.yaml(SplitMatter(content).matter).Some?
    ensures var r := UpdateBlockContent(home, parsers, files, slug, content);
      GetBlockContent(home, parsers, r.0, slug) == Success(Trim(SplitMatter(content).body))
  {
  }

  /** `deleteBlock`: `BlockNotFound` when absent, otherwise the file is removed. */
  function DeleteBlock(home: string, files: Files, slug: string): (r: Result<Files, Error>)
    ensures !BlockExists(home, files, slug) <==> r == Failure(BlockNotFound(slug))
    ensures r.Success? ==> r.value == files - {Paths.GetBlockPath(home, slug)}
  {
    var path := Paths.GetBlockPath(home, slug);
    if path !in files then Failure(BlockNotFound(slug)) else Success(files - {path})
  }

  /** A deleted block is no longer found, and deleting it again fails. */
  lemma DeleteThenLoad(home: string, parsers: Parsers, files: Files, slug: string)
    requires DeleteBlock(home, files, slug).Success?
    ensures LoadBlock(home, parsers, DeleteBlock(home, files, slug).value, slug) == Failure(BlockNotFound(slug))
    ensures DeleteBlock(home, DeleteBlock(home, files, slug).value, slug) == Failure(BlockNotFound(slug))
  {
  }

  // === LISTING ===

  /** A file at any depth below `dir` whose name ends in `.md` (what
      `listFilesRecursive(dir, '.md')` yields). */
  predicate MarkdownUnder(f: string, dir: string) {
    HasPrefix(f, dir + "/") && HasSuffix(f, ".md")
  }

  predicate HasMarkdown(files: Files, dir: string) {
    exists f :: f in files && MarkdownUnder(f, dir)
  }

  /** The test `blocks.length > 0` of `listBlocksByCategory`, as a filter on directories. */
  function Kept(files: Files): string -> bool {
    d => HasMarkdown(files, d)
  }

  /** `listFilesRecursive(dir, '.md')`: each Markdown file below `dir` once, in an order
      the model leaves open. */
  method MarkdownFiles(files: Files, dir: string) returns (r: seq<string>)
    ensures Distinct(r)
    ensures forall f :: f in r <==> f in files && MarkdownUnder(f, dir)
  {
    r := [];
    var rest := files.Keys;
    while rest != {}
      invariant rest <= files.Keys
      invariant Distinct(r)
      invariant forall f :: f in r ==> f !in rest
      invariant forall f :: f in r <==> f in files && f !in rest && MarkdownUnder(f, dir)
      decreases |rest|
    {
      var f :| f in rest;
      if MarkdownUnder(f, dir) {
        DistinctSnoc(r, f);
        r := r + [f];
      }
      rest := rest - {f};
    }
  }

  /** `parseBlock` on a file of the blocks directory. */
  function ParseIn(home: string, parsers: Parsers, files: Files): string --> Result<Block, Error> {
    p requires p in files => ParseBlock(home, parsers, p, files[p])
  }

  /** `blocks` are the parsed Markdown files below `dir`, each once. */
  ghost predicate BlocksOfDir(blocks: seq<Block>, home: string, parsers: Parsers, files: Files, dir: string) {
    exists paths: seq<string> ::
      Distinct(paths) && (forall f :: f in paths <==> f in files && MarkdownUnder(f, dir)) &&
      MapAll(paths, ParseIn(home, parsers, files)) == Success(blocks)
  }

  /** A directory's last segment is the name it was joined with. */
  lemma LastSegmentOfChild(p: string, dir: string)
    requires Paths.DirectChild(p, dir)
    ensures Paths.Join(dir, AfterLastSlash(p)) == p
  {
    PrefixSplit(p, dir + "/");
    assert p == dir + "/" + p[|dir| + 1..];
    AfterLastSlashOf(dir, p[|dir| + 1..]);
  }

  /** `c` is the category that `listBlocksByCategory` builds for directory `dir`. */
  ghost predicate CategoryFor(c: BlockCategory, home: string, parsers: Parsers, files: Files, dir: string) {
    Paths.Join(Paths.BlocksDir(home), c.name) == dir &&
    c.blocks != [] &&
    BlocksOfDir(c.blocks, home, parsers, files, dir)
  }

  /** Parsing the Markdown files of `dir` fails only with the error of one of them. */
  lemma ParseFailureIn(home: string, parsers: Parsers, files: Files, dir: string, paths: seq<string>)
    requires forall f :: f in paths <==> f in files && MarkdownUnder(f, dir)
    requires MapAll(paths, ParseIn(home, parsers, files)).Failure?
    ensures exists f :: f in files && MarkdownUnder(f, dir) &&
                        ParseBlock(home, parsers, f, files[f]) == Failure(MapAll(paths, ParseIn(home, parsers, files)).error)
  {
    MapAllFails(paths, ParseIn(home, parsers, files));
    var parsed := MapAll(paths, ParseIn(home, parsers, files));
    var k :| 0 <= k < |paths| && ParseIn(home, parsers, files)(paths[k]) == Failure(parsed.error);
    assert paths[k] in files && MarkdownUnder(paths[k], dir);
  }

  /** The blocks parsed from the Markdown files of `dir`, named after its last segment. */
  lemma CategoryOfBlocks(home: string, parsers: Parsers, files: Files, dir: string, paths: seq<string>, blocks: seq<Block>)
    requires Paths.DirectChild(dir, Paths.BlocksDir(home))
    requires Distinct(paths) && forall f :: f in paths <==> f in files && MarkdownUnder(f, dir)
    requires MapAll(paths, ParseIn(home, parsers, files)) == Success(blocks) && blocks != []
    ensures CategoryFor(BlockCategory(AfterLastSlash(dir), blocks), home, parsers, files, dir)
  {
    LastSegmentOfChild(dir, Paths.BlocksDir(home));
  }

  /** One directory of `listBlocksByCategory`: its category when it holds a block, none
      when it holds none, or the error of a block that fails to parse. */
  method CategoryOf(home: string, parsers: Parsers, files: Files, dir: string)
    returns (r: Result<Option<BlockCategory>, Error>)
    requires Paths.DirectChild(dir, Paths.BlocksDir(home))
    ensures r.Success? && r.value.None? <==> r.Success? && !HasMarkdown(files, dir)
    ensures r.Success? && r.value.Some? ==> CategoryFor(r.value.value, home, parsers, files, dir)
    ensures r.Failure? ==>
      exists f :: f in files && MarkdownUnder(f, dir) && ParseBlock(home, parsers, f, files[f]) == Failure(r.error)
  {
    var paths := MarkdownFiles(files, dir);
    var parsed := MapAll(paths, ParseIn(home, parsers, files));
    if parsed.Failure? {
      ParseFailureIn(home, parsers, files, dir, paths);
      return Failure(parsed.error);
    }
    if |parsed.value| > 0 {
      CategoryOfBlocks(home, parsers, files, dir, paths, parsed.value);
      assert paths[0] in files && MarkdownUnder(paths[0], dir);
      r := Success(Some(BlockCategory(AfterLastSlash(dir), parsed.value)));
    } else {
      assert forall f :: f in files && MarkdownUnder(f, dir) ==> f in paths;
      r := Success(None);
    }
  }

  /** One more directory either joins the kept ones or does not. */
  lemma KeptStep(files: Files, dirs: seq<string>, i: nat)
    requires i < |dirs|
    ensures Filter(dirs[..i + 1], Kept(files)) ==
      Filter(dirs[..i], Kept(files)) + (if HasMarkdown(files, dirs[i]) then [dirs[i]] else [])
  {
    assert dirs[..i + 1][..i] == dirs[..i];
  }

  /** `listBlocksByCategory`: one category per sub-directory of the blocks directory (listed
      by `dirs`, in readdir order) that holds at least one block, named by its last path
      segment and holding the parsed blocks below it. A block that fails to parse makes
      the whole listing fail. */
  method ListBlocksByCategory(home: string, parsers: Parsers, files: Files, dirs: seq<string>)
    returns (r: Result<seq<BlockCategory>, Error>)
    requires forall i :: 0 <= i < |dirs| ==> Paths.DirectChild(dirs[i], Paths.BlocksDir(home))
    ensures r.Success? ==>
      |r.value| == |Filter(dirs, Kept(files))| &&
      forall i :: 0 <= i < |r.value| ==> CategoryFor(r.value[i], home, parsers, files, Filter(dirs, Kept(files))[i])
    ensures r.Failure? ==>
      exists f, d :: d in dirs && f in files && MarkdownUnder(f, d) && ParseBlock(home, parsers, f, files[f]) == Failure(r.error)
  {
    var cats: seq<BlockCategory> := [];
    ghost var kept: seq<string> := [];
    var i := 0;
    while i < |dirs|
      invariant 0 <= i <= |dirs|
      invariant kept == Filter(dirs[..i], Kept(files))
      invariant |cats| == |kept|
      invariant forall j :: 0 <= j < |cats| ==> CategoryFor(cats[j], home, parsers, files, kept[j])
    {
      var dir := dirs[i];
      var c := CategoryOf(home, parsers, files, dir);
      if c.Failure? {
        return Failure(c.error);
      }
      KeptStep(files, dirs, i);
      if c.value.Some? {
        cats := cats + [c.value.value];
        kept := kept + [dir];
      }
      i := i + 1;
    }
    assert dirs[..i] == dirs;
    r := Success(cats);
  }
}
