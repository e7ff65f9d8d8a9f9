/** Library and project path layout (src/lib/paths.ts). The home directory, which the
    source reads from the operating system, is a parameter. */
module Paths {
  import opened Strings
  import Seqs

  /** `path.join(dir, name)` for two segments; `join`'s normalisation is not modelled. */
  function Join(dir: string, name: string): string {
    dir + "/" + name
  }

  /** `p` is `dir/name` for a single non-empty segment `name`. */
  predicate DirectChild(p: string, dir: string) {
    HasPrefix(p, dir + "/") && |p| > |dir| + 1 && '/' !in p[|dir| + 1..]
  }

  const LOCAL_CONFIG_FILE: string := ".contextmark.yml"
  const CLAUDE_MD_FILE: string := "CLAUDE.md"
  const CLAUDE_DIR: string := ".claude"

  function LibraryDir(home: string): string { Join(home, ".contextmark") }
  function BlocksDir(home: string): string { Join(LibraryDir(home), "blocks") }
  function ProfilesDir(home: string): string { Join(LibraryDir(home), "profiles") }
  function AgentsDir(home: string): string { Join(LibraryDir(home), "agents") }
  function CommandsDir(home: string): string { Join(LibraryDir(home), "commands") }
  function GlobalDir(home: string): string { Join(LibraryDir(home), "global") }
  function ConfigFile(home: string): string { Join(LibraryDir(home), "config.yml") }

  /** Two different names give two different paths in the same directory. */
  lemma JoinInjective(dir: string, a: string, b: string)
    requires a != b
    ensures Join(dir, a) != Join(dir, b)
  {
    assert Join(dir, a)[|dir| + 1..] == a;
    assert Join(dir, b)[|dir| + 1..] == b;
  }

  lemma JoinIsDirectChild(dir: string, name: string)
    requires name != [] && '/' !in name
    ensures DirectChild(Join(dir, name), dir) && Join(dir, name)[|dir| + 1..] == name
  {
    assert Join(dir, name)[..|dir| + 1] == dir + "/";
    assert Join(dir, name)[|dir| + 1..] == name;
  }

  /** The six library entries are distinct direct children of the library directory. */
  lemma LibraryLayout(home: string)
    ensures DirectChild(BlocksDir(home), LibraryDir(home))
    ensures DirectChild(ProfilesDir(home), LibraryDir(home))
    ensures DirectChild(AgentsDir(home), LibraryDir(home))
    ensures DirectChild(CommandsDir(home), LibraryDir(home))
    ensures DirectChild(GlobalDir(home), LibraryDir(home))
    ensures DirectChild(ConfigFile(home), LibraryDir(home))
    ensures Seqs.Distinct([BlocksDir(home), ProfilesDir(home), AgentsDir(home),
                           CommandsDir(home), GlobalDir(home), ConfigFile(home)])
  {
    var lib := LibraryDir(home);
    var names := ["blocks", "profiles", "agents", "commands", "global", "config.yml"];
    forall i | 0 <= i < |names| ensures DirectChild(Join(lib, names[i]), lib) {
      JoinIsDirectChild(lib, names[i]);
    }
    var paths := [BlocksDir(home), ProfilesDir(home), AgentsDir(home),
                  CommandsDir(home), GlobalDir(home), ConfigFile(home)];
    forall i, j | 0 <= i < j < |paths| ensures paths[i] != paths[j] {
      assert paths[i] == Join(lib, names[i]) && paths[j] == Join(lib, names[j]);
      JoinInjective(lib, names[i], names[j]);
    }
  }

  /** `getBlockPath`: the file lies directly under the blocks directory path, ends in `.md`,
      and the slug is exactly what lies between. */
  function GetBlockPath(home: string, slug: string): (r: string)
    ensures HasPrefix(r, BlocksDir(home) + "/") && HasSuffix(r, ".md")
    ensures |r| == |BlocksDir(home)| + |slug| + 4
    ensures r[|BlocksDir(home)| + 1..|r| - 3] == slug
  {
    Join(BlocksDir(home), slug + ".md")
  }

  /** `getProfilePath`: `PROFILES_DIR/<slug>.yml`. */
  function GetProfilePath(home: string, slug: string): (r: string)
    ensures HasPrefix(r, ProfilesDir(home) + "/") && HasSuffix(r, ".yml")
    ensures |r| == |ProfilesDir(home)| + |slug| + 5
    ensures r[|ProfilesDir(home)| + 1..|r| - 4] == slug
  {
    Join(ProfilesDir(home), slug + ".yml")
  }

  /** `getAgentPath`: `AGENTS_DIR/<name>.md`. */
  function GetAgentPath(home: string, name: string): (r: string)
    ensures HasPrefix(r, AgentsDir(home) + "/") && HasSuffix(r, ".md")
    ensures |r| == |AgentsDir(home)| + |name| + 4
    ensures r[|AgentsDir(home)| + 1..|r| - 3] == name
  {
    Join(AgentsDir(home), name + ".md")
  }

  /** `getCommandPath`: `COMMANDS_DIR/<name>.md`. */
  function GetCommandPath(home: string, name: string): (r: string)
    ensures HasPrefix(r, CommandsDir(home) + "/") && HasSuffix(r, ".md")
    ensures |r| == |CommandsDir(home)| + |name| + 4
    ensures r[|CommandsDir(home)| + 1..|r| - 3] == name
  {
    Join(CommandsDir(home), name + ".md")
  }

  /** `getProjectClaudePath`: the project's `CLAUDE.md`, directly inside it. */
  function GetProjectClaudePath(projectPath: string): (r: string)
    ensures DirectChild(r, projectPath) && r[|projectPath| + 1..] == CLAUDE_MD_FILE
  {
    JoinIsDirectChild(projectPath, CLAUDE_MD_FILE);
    Join(projectPath, CLAUDE_MD_FILE)
  }

  /** `getProjectConfigPath`: the project's `.contextmark.yml`, directly inside it. */
  function GetProjectConfigPath(projectPath: string): (r: string)
    ensures DirectChild(r, projectPath) && r[|projectPath| + 1..] == LOCAL_CONFIG_FILE
  {
    JoinIsDirectChild(projectPath, LOCAL_CONFIG_FILE);
    Join(projectPath, LOCAL_CONFIG_FILE)
  }

  /** `getProjectClaudeDir`: the project's `.claude` directory, directly inside it. */
  function GetProjectClaudeDir(projectPath: string): (r: string)
    ensures DirectChild(r, projectPath) && r[|projectPath| + 1..] == CLAUDE_DIR
  {
    JoinIsDirectChild(projectPath, CLAUDE_DIR);
    Join(projectPath, CLAUDE_DIR)
  }

  /** The generated context file, the tracking file and the `.claude` directory are
      distinct direct children of the project directory. */
  lemma ProjectLayout(projectPath: string)
    ensures DirectChild(GetProjectClaudePath(projectPath), projectPath)
    ensures DirectChild(GetProjectConfigPath(projectPath), projectPath)
    ensures DirectChild(GetProjectClaudeDir(projectPath), projectPath)
    ensures Seqs.Distinct([GetProjectClaudePath(projectPath), GetProjectConfigPath(projectPath),
                           GetProjectClaudeDir(projectPath)])
  {
    JoinInjective(projectPath, CLAUDE_MD_FILE, LOCAL_CONFIG_FILE);
    JoinInjective(projectPath, CLAUDE_MD_FILE, CLAUDE_DIR);
    JoinInjective(projectPath, LOCAL_CONFIG_FILE, CLAUDE_DIR);
  }
}
