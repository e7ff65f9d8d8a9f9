# contextmark, modelled in Dafny

contextmark keeps a library of reusable context for coding assistants under
`~/.contextmark/`: Markdown *blocks* with YAML front matter, YAML *profiles* that list
blocks, and a mirror of each project's `CLAUDE.md` and `.claude/` directory (and of the
user's global `~/.claude`). A project records the blocks it uses in `.contextmark.yml`.

This model covers:

- the sync engine (`ProjectSync`, over `FileTree`). Diffs between a project and its
  library mirror split every tracked file into local-only, library-only, different and
  identical. Push and pull replace each tracked root wholesale and report every file
  they wrote. The proofs cover the partition, the meaning of `hasDiff`, swap symmetry,
  convergence of a diff after a push or a pull, and the name a project is mirrored under;
- the block-tracking ledger (`Tracking`): drift classification and edits of the ordered
  block list;
- blocks and profiles (`Blocks`, `Profiles`): slugs that round-trip with the path
  helpers, the hash and trimmed body of a block, the block template, listing by
  category, and the profile block-list edits;
- the validators, path helpers and project discovery (`Validators`, `Paths`, `Projects`).

The filesystem is a value. Directory trees are maps from relative path to content. The
blocks directory maps a full path to the file's text; the profiles directory maps a full
path to its parsed configuration. Operations that
write take the state and return the new state. The md5 digest and the YAML parser are
function-valued parameters (`Blocks.Parsers`). The clock, the output of `find` and
`existsSync` are parameters too.

`Wrappers`, `Seqs` and `Strings` hold the JavaScript operations the core relies on:
`filter`, `Array.prototype.map` with a throwing callback (the first failure, in order,
aborts), `startsWith`, `indexOf`, first-occurrence
`replace`, `split('/')` and `trim`.

## Model

| member | source | states |
|---|---|---|
| Strings.ReplaceFirst | src/core/block.ts:11 | `replace` with a string pattern changes only the first occurrence, and leaves a string without it unchanged |
| Strings.Trim | src/core/block.ts:20 | the trimmed text neither starts nor ends with whitespace |
| Strings.TrimParts | src/core/block.ts:20 | the input is leading whitespace, then the trimmed text, then trailing whitespace |
| Strings.TrimOf | src/core/block.ts:20 | trimming whitespace margins around text with non-whitespace ends gives that text back |
| Strings.AfterLastSlash | src/core/projects.ts:42 | `split('/').pop()` has no `/` and is a suffix that follows a `/` unless it is the whole string |
| Strings.AfterLastSlashOf | src/core/block.ts:52 | the last segment of `dir/name` is `name` |
| Strings.BeforeFirstSlashOf | src/core/project-sync.ts:46 | the first segment of `a/rest` is `a` |
| Seqs.Filter | src/core/tracking.ts:100 | `filter` keeps exactly the elements that pass the test |
| Seqs.FilterAppend | src/core/profile.ts:97 | filtering keeps relative order: it distributes over concatenation |
| Seqs.FilterAll | src/core/profile.ts:97 | a list all of whose elements pass is left unchanged |
| Seqs.MapAll | src/core/block.ts:54 | mapping a throwing function over a list succeeds with one result per element, in order |
| Seqs.MapAllFails | src/core/block.ts:54 | the mapping fails exactly when some element fails, and with that element's error |
| Validators.IsValidBlockName | src/utils/validators.ts:3-6 | an accepted name holds a `/` and no dot |
| Validators.IsValidProfileName | src/utils/validators.ts:8-11 | an accepted name is non-empty and holds neither `/` nor a dot |
| Validators.IsValidVersion | src/utils/validators.ts:13-16 | an accepted version has at least five characters and starts with a digit |
| Validators.BlockNameMatchesPattern | src/utils/validators.ts:3-6 | the check accepts exactly the strings of `^[a-z0-9-]+\/[a-z0-9-]+$` |
| Validators.VersionMatchesPattern | src/utils/validators.ts:13-16 | the check accepts exactly `digits.digits.digits`, optionally followed by `-` and a non-empty `[a-zA-Z0-9.]` run |
| Validators.PatternIsValidVersion | src/utils/validators.ts:13-16 | every string built from the version pattern's parts is accepted |
| Validators.ValidateBlockSlug | src/utils/validators.ts:26-39 | an empty slug is reported as required before the format check; valid iff the block-name pattern matches; an error is present iff invalid |
| Validators.ValidateProfileSlug | src/utils/validators.ts:41-54 | the same as `validateBlockSlug`, with the kebab-case pattern and its own messages |
| Paths.LibraryLayout | src/lib/paths.ts:5-11 | blocks, profiles, agents, commands, global and config.yml are distinct direct children of the library directory |
| Paths.GetBlockPath | src/lib/paths.ts:22-24 | the path is `BLOCKS_DIR/`, then the slug, then `.md` |
| Paths.GetProfilePath | src/lib/paths.ts:26-28 | the path is `PROFILES_DIR/`, then the slug, then `.yml` |
| Paths.GetAgentPath | src/lib/paths.ts:30-32 | the path is `AGENTS_DIR/`, then the name, then `.md` |
| Paths.GetCommandPath | src/lib/paths.ts:34-36 | the path is `COMMANDS_DIR/`, then the name, then `.md` |
| Paths.ProjectLayout | src/lib/paths.ts:38-48 | `CLAUDE.md`, `.contextmark.yml` and `.claude` are distinct direct children of the project directory |
| FileTree.ListFiles | src/lib/fs.ts:60-81 | the recursive listing names every file of the tree exactly once |
| FileTree.CopyTree | src/core/project-sync.ts:99-108 | the cleared destination ends up equal to the source, and each copied file is reported under the prefix |
| ProjectSync.ScopedNameOf | src/core/project-sync.ts:46 | `name`, `scope/name` and `scope/name/rest` all give `name` |
| ProjectSync.Basename | src/core/project-sync.ts:68 | the directory name has no `/` and ends the path once trailing slashes are removed |
| ProjectSync.GetProjectName | src/core/project-sync.ts:36-69 | the `package.json` name wins over the `composer.json` name, which wins over the basename; the result never contains `/` |
| ProjectSync.CompareFiles | src/core/project-sync.ts:313-320 | true iff both files exist with equal content |
| ProjectSync.GetRelativeFiles | src/core/project-sync.ts:322-328 | every file below the root once, relative to it; none when the root is absent |
| ProjectSync.Record | src/core/project-sync.ts:346-356 | pushing a name onto one of the four lists leaves the other three unchanged |
| ProjectSync.DiffFile | src/core/project-sync.ts:372-382 | a path lands in exactly the list its two sides call for, or in none when neither side has it |
| ProjectSync.UnionListing | src/core/project-sync.ts:362 | `new Set([...local, ...lib])` holds every path of either side once |
| ProjectSync.DiffTree | src/core/project-sync.ts:359-383 | after the loop, each prefixed path of the union is in exactly the list its two sides call for |
| ProjectSync.SetHasDiff | src/core/project-sync.ts:385-391 | `hasDiff` is whether `localOnly`, `libraryOnly` or `different` is non-empty |
| ProjectSync.DiffProject | src/core/project-sync.ts:330-392 | each of `CLAUDE.md` and `.claude/<rel>` is in the one list its two sides call for, and the lists hold nothing else |
| ProjectSync.DiffGlobal | src/core/project-sync.ts:394-478 | the same for `CLAUDE.md`, `rules/<rel>` and `skills/<rel>` between `~/.claude` and the library's `global/` |
| ProjectSync.ProjectHasDiffIff | src/core/project-sync.ts:386 | `hasDiff` holds iff the two `CLAUDE.md` files or the two `.claude` trees differ |
| ProjectSync.GlobalHasDiffIff | src/core/project-sync.ts:472 | `hasDiff` holds iff some tracked global root differs between the two sides |
| ProjectSync.ClassifySwap | src/core/project-sync.ts:372-382 | seen from the other side a local-only file is library-only and the reverse, while different and identical files stay so |
| ProjectSync.ProjectDiffSwap | src/core/project-sync.ts:313-320 | swapping the sides swaps `localOnly` with `libraryOnly` and keeps `different` and `identical` |
| ProjectSync.GlobalDiffSwap | src/core/project-sync.ts:394-478 | diffing the global roots the other way swaps `localOnly` with `libraryOnly` and keeps `different` and `identical` |
| ProjectSync.CopyRoot | src/core/project-sync.ts:94-109 | a root present at the source replaces the destination's, and an absent one leaves it; the report names every copied file |
| ProjectSync.CopyProjectFiles | src/core/project-sync.ts:86-109 | copies `CLAUDE.md` iff it exists, then `.claude/` wholesale; reports `CLAUDE.md` first, then `.claude/<rel>` for each file |
| ProjectSync.CopyGlobalFiles | src/core/project-sync.ts:132-171 | the same for `CLAUDE.md`, `rules/` and `skills/` |
| ProjectSync.PushProject | src/core/project-sync.ts:73-124 | the mirror becomes the project's roots laid over the old mirror and always exists afterwards; success is always reported, with the informational message when nothing was written |
| ProjectSync.PullProject | src/core/project-sync.ts:190-246 | with no mirror: failure, no files, nothing changed; otherwise the mirror's roots laid over the project, and success even when nothing was written |
| ProjectSync.PushGlobal | src/core/project-sync.ts:126-186 | the library's `global/` becomes `~/.claude`'s roots laid over it and exists afterwards; success is always reported |
| ProjectSync.PullGlobal | src/core/project-sync.ts:248-309 | `~/.claude` gets the library's roots laid over it; success iff some file was written |
| ProjectSync.PushConverges | src/core/project-sync.ts:87-109 | after a push the diff has no `localOnly` or `different` entry, and `libraryOnly` entries only for a root the project lacked |
| ProjectSync.PullConverges | src/core/project-sync.ts:208-231 | after a pull the diff has no `libraryOnly` or `different` entry, and `localOnly` entries only for a root the mirror lacked |
| ProjectSync.PushGlobalConverges | src/core/project-sync.ts:132-171 | after a global push there is no `localOnly` or `different` entry, `libraryOnly` entries only for a root `~/.claude` lacked, and no difference when all three roots exist |
| ProjectSync.PullGlobalConverges | src/core/project-sync.ts:254-294 | after a global pull there is no `libraryOnly` or `different` entry, `localOnly` entries only for a root the library lacked, and no difference when all three roots exist |
| ProjectSync.PushPullRoundTrip | src/core/project-sync.ts:94-109 | a pull right after a push restores the project iff every root the mirror held is also in the project |
| ProjectSync.NotInLibraryIff | src/commands/diff.ts:38 | "no diff and nothing identical" holds iff neither side tracks any file |
| Paths.GetProjectClaudePath | src/lib/paths.ts:38-40 | the path is `CLAUDE.md` directly inside the project directory |
| Paths.GetProjectConfigPath | src/lib/paths.ts:42-44 | the path is `.contextmark.yml` directly inside the project directory |
| Paths.GetProjectClaudeDir | src/lib/paths.ts:46-48 | the path is `.claude` directly inside the project directory |
| ProjectSync.GetProjectSyncStatus | src/core/project-sync.ts:489-510 | with no mirror: no diff and none attached; otherwise the project diff and its `hasDiff` |
| Blocks.SplitMatter | src/core/block.ts:17 | once a leading byte order mark is removed, a file not opening with `---` is all body; otherwise the front matter is the text up to the first `\n---` and the body is what follows that delimiter less one line break, or, with no `\n---`, the front matter is the rest of the file and the body is empty |
| Blocks.SplitMatterBom | src/core/block.ts:17 | a leading byte order mark does not change the split |
| Blocks.SplitMatterOf | src/core/block.ts:17 | `---`, a front matter holding no `\n---` and not opening with `-`, `\n---`, rest splits back into that front matter and the rest less one line break |
| Blocks.GetBlockSlug | src/core/block.ts:9-13 | never longer than the path; a path holding neither `BLOCKS_DIR/` nor `.md` is its own slug |
| Blocks.BlockSlugRoundTrip | src/core/block.ts:9-13 | for every valid block name, the slug of `getBlockPath(slug)` is `slug` |
| Blocks.Hash | src/core/block.ts:21 | the hash is the first 8 characters of the md5 hex digest of the raw file |
| Blocks.ParseBlock | src/core/block.ts:15-30 | fails iff the front matter does not parse; otherwise keeps the path, the slug of the path, the parsed front matter and the hash of the whole raw text |
| Blocks.SameTextSameBlock | src/core/block.ts:21 | two files with the same raw text get the same hash and content, wherever they lie |
| Blocks.LoadBlock | src/core/block.ts:32-40 | `BlockNotFound` iff no file lies at `getBlockPath(slug)`; otherwise that file parsed |
| Blocks.LoadedSlug | src/core/block.ts:32-40 | a block loaded under a valid name carries that name as its slug |
| Blocks.BlockExistsIff | src/core/block.ts:67-69 | a block exists iff loading it does not report `BlockNotFound`; a malformed file still exists |
| Blocks.GetBlockContent | src/core/block.ts:112-115 | the loaded block's content, or the load error |
| Blocks.TemplateParses | src/core/block.ts:74-85 | the template's front matter is exactly the name, description, `version: 1.0.0` and `tags: []` lines, and its body trims to the heading and placeholder |
| Blocks.CreateBlock | src/core/block.ts:71-89 | writes the template at the block's path and returns it loaded back |
| Blocks.CreatedBlock | src/core/block.ts:71-89 | a created block loads with its slug and the template's content |
| Blocks.UpdateBlockContent | src/core/block.ts:91-100 | `BlockNotFound` writing nothing when absent; otherwise the file is replaced and parsed back |
| Blocks.UpdateThenContent | src/core/block.ts:91-100 | after an update the block's content is the trimmed body of the new text |
| Blocks.DeleteBlock | src/core/block.ts:102-110 | `BlockNotFound` iff absent; otherwise exactly that file is removed |
| Blocks.DeleteThenLoad | src/core/block.ts:102-110 | a deleted block is not found again |
| Blocks.MarkdownFiles | src/lib/fs.ts:60-81 | every `.md` file at any depth below the directory, once |
| Blocks.LastSegmentOfChild | src/core/block.ts:52 | a directory's last segment is the name it was joined under |
| Blocks.CategoryOf | src/core/block.ts:52-61 | a directory with no Markdown file gives no category; otherwise its name and its parsed blocks, or the error of a block that does not parse |
| Blocks.ListBlocksByCategory | src/core/block.ts:47-65 | one category per directory holding a block, in directory order, named by its last segment; a parse error fails the listing |
| Profiles.GetProfileSlug | src/core/profile.ts:8-11 | never longer than the path; a path holding neither `PROFILES_DIR/` nor `.yml` is its own slug |
| Profiles.ParseProfile | src/core/profile.ts:13-22 | keeps the path and the configuration stored there; a file stored under a valid profile name gets that name as its slug |
| Profiles.ProfileSlugRoundTrip | src/core/profile.ts:8-11 | for every valid profile name, the slug of `getProfilePath(slug)` is `slug` |
| Profiles.LoadProfile | src/core/profile.ts:24-32 | `ProfileNotFound` iff no file lies at `getProfilePath(slug)`; otherwise the stored configuration |
| Profiles.ProfileExistsIff | src/core/profile.ts:39-41 | a profile exists iff loading it succeeds |
| Profiles.LoadedProfileSlug | src/core/profile.ts:13-22 | a profile loaded under a valid name carries that name as its slug |
| Profiles.CreateProfile | src/core/profile.ts:43-61 | stores exactly the given blocks with empty agent and command lists, and loads back as what it returned |
| Profiles.UpdateProfile | src/core/profile.ts:63-72 | `ProfileNotFound` writing nothing when absent; otherwise the file holds the new configuration |
| Profiles.DeleteProfile | src/core/profile.ts:74-82 | `ProfileNotFound` iff absent; otherwise exactly that file is removed |
| Profiles.DeleteThenLoadProfile | src/core/profile.ts:74-82 | a deleted profile is not found again |
| Profiles.WithBlock | src/core/profile.ts:87-89 | the slug is appended at the end iff absent; the old list is a prefix of the new one |
| Profiles.WithoutBlock | src/core/profile.ts:97 | no occurrence of the slug remains and every other entry does |
| Profiles.AddBlockToProfile | src/core/profile.ts:84-93 | propagates the load error; returns the profile unwritten when it lists the block; otherwise writes it with the block appended |
| Profiles.AddBlockResult | src/core/profile.ts:84-93 | after the call the profile lists the block, earlier entries in place, and only the block list has changed |
| Profiles.AddBlockIdempotent | src/core/profile.ts:87-92 | adding a block a second time writes nothing and returns what is stored |
| Profiles.RemoveBlockFromProfile | src/core/profile.ts:95-99 | propagates the load error; otherwise always writes the list without the slug |
| Profiles.AddThenRemove | src/core/profile.ts:84-99 | adding a block the profile lacked and removing it restores the stored configuration |
| Profiles.RemoveBlockIdempotent | src/core/profile.ts:95-99 | removing a block twice has the effect of removing it once |
| Tracking.StatusOf | src/core/tracking.ts:26-49 | carries the reference's name, version and hash; `missing` with `-` placeholders iff loading throws, otherwise `current` iff the hashes are equal, whatever the versions say |
| Tracking.StatusesOf | src/core/tracking.ts:25-50 | one status per reference, in ledger order |
| Tracking.GetProjectStatus | src/core/tracking.ts:16-53 | `ProjectNotInitialized` without a configuration; otherwise the statuses of all references, in order |
| Tracking.NeedsUpdate | src/core/tracking.ts:55-58 | true iff some reference's block is missing or has another hash |
| Tracking.GetOutdatedBlocks | src/core/tracking.ts:60-63 | the `outdated` statuses in ledger order |
| Tracking.OutdatedAre | src/core/tracking.ts:60-63 | every kept status is outdated with differing hashes, so `missing` is excluded; every reference whose block loads with another hash is kept |
| Tracking.AddBlockToProject | src/core/tracking.ts:65-91 | `ProjectNotInitialized` without a configuration; unchanged and unsaved when the name is tracked; the load error when the block is missing; otherwise one reference appended and the timestamp set |
| Tracking.AddBlockIdempotent | src/core/tracking.ts:73-75 | a second add of the same block changes nothing |
| Tracking.AddedIsCurrent | src/core/tracking.ts:78-85 | a block just added is reported current, and the earlier entries keep their statuses |
| Tracking.RemoveBlockFromProject | src/core/tracking.ts:93-105 | `ProjectNotInitialized` without a configuration; otherwise drops every reference with the name, keeps the rest, and always sets the timestamp and saves |
| Tracking.AddThenRemove | src/core/tracking.ts:65-105 | adding an untracked block and removing it restores the block list |
| Projects.GetProjectName | src/core/projects.ts:41-43 | the text after the last `/`, or the whole path when that text is empty or there is no `/` |
| Projects.ProjectNameOf | src/core/projects.ts:42 | `dir/name` gives `name`, and a path ending in `/` gives itself |
| Projects.ShortenPath | src/core/projects.ts:45-48 | a path not containing the home directory is unchanged |
| Projects.ShortenHomePath | src/core/projects.ts:47 | a path starting with the home directory is shown from `~` |
| Projects.ProjectsFrom | src/core/projects.ts:18-33 | the projects found hold exactly the accepted candidates of the non-empty lines, none inside the library, all existing |
| Projects.FindAllProjects | src/core/projects.ts:7-39 | nothing when `find` fails; otherwise the accepted candidates in the order found |
| Projects.Candidate | src/core/projects.ts:22 | never longer than the line; a line without `/.contextmark.yml` is kept whole |
| Projects.CandidateOf | src/core/projects.ts:22 | the configuration file of a directory outside the library gives that directory back |
| Projects.FoundProject | src/core/projects.ts:20-33 | every existing directory outside the library whose configuration file is listed is found |

## Left out

- I/O: node `fs` calls, `readdir` order, `find` (with its `head -100` and 30-second timeout), `existsSync` and the clock are values or parameters. Listing order is left open.
- The md5 digest and YAML parse/stringify are foreign. The digest is an uninterpreted function of the raw text. The YAML parser is a partial function on the front matter text. Profiles and local configurations are stored as their parsed values, so stringify and parse are taken to round-trip.
- Blocks.SplitMatter: gray-matter is reduced to its `---` / `\n---` split. Not modelled: its language tag after the opening delimiter, its excerpt and comment handling, and its cache. gray-matter gives a file without front matter, or with a blank one, the data `{}` without calling the YAML parser; the model hands the empty front matter text to `parsers.yaml` like any other, so such a file is `MalformedFile` exactly when the parser rejects the empty text. A front matter that does not parse is the error `MalformedFile`.
- Blocks.ParseBlock: the `as BlockFrontmatter` cast is unchecked in the source. The model takes whatever record the parser yields.
- Blocks.ParseBlock: its contract leaves out the content. `GetBlockContent`, `UpdateThenContent` and `CreatedBlock` state it instead.
- Paths.Join: node `path.join` normalisation (collapsing `//`, `.` and `..`) is not modelled. Joining is `dir + "/" + name`.
- The library paths that `src/core/project-sync.ts` imports but `src/lib/paths.ts` does not define (`PROJECTS_DIR`, `USER_CLAUDE_*`, `getLibraryProject*`) are separate roots of `ProjectSync.World`.
- ProjectSync.GetProjectName: the names `""` (from `@scope/`), `.` and `..` make the source's mirror path `path.join(PROJECTS_DIR, name)` the project directory itself or its parent; the model keeps each as a separate `mirrors` key.
- ProjectSync.GetProjectName: a `package.json` or `composer.json` whose `name` is not a string (an array, say) is treated as having no name.
- `listLibraryProjects`, `listAllBlocks`, `listAllProfiles` and `ProfileConfig.settings` are not modelled. The agent and command modules, `src/core/generator.ts` and `src/core/sync.ts` (git) are not part of this model.
- ProjectSync.DiffProject, ProjectSync.DiffGlobal: trees hold files only. A path that is a file on one side and a directory on the other (where `compareFiles` reads a directory and the source throws) is not modelled; such a path is classified from the files alone. Symbolic links are not modelled either: `listFilesRecursive` keeps only entries that are plain files, while `existsSync` follows links.
- Projects.FindAllProjects: takes `find`'s output already trimmed and split into lines.
- Messages are datatype values (`ProjectSync.SyncMessage`) rather than formatted strings. Errors are `Errors.Error` values rather than thrown classes.
- In-place mutation of a loaded profile or configuration object is modelled as building a new value. Nothing else holds a reference to that object.
- Non-atomic partial copies after a crash, and concurrent invocations, are not modelled. The source guards against neither.
