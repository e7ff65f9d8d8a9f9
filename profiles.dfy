/** Profiles (src/core/profile.ts): named lists of blocks, agents and commands stored as
    YAML files under `~/.contextmark/profiles/`.

    The profiles directory is a map from full path to the configuration its YAML file
    holds; YAML stringify and parse are taken to round-trip, so a file is its parsed
    value. */
module Profiles {
  import opened Wrappers
  import opened Strings
  import opened Seqs
  import opened Errors
  import opened Validators
  import Paths

  /** `ProfileConfig` (src/types/profile.ts); `agents` and `commands` are optional keys. */
  datatype ProfileConfig = ProfileConfig(
    name: string,
    description: string,
    blocks: seq<string>,
    agents: Option<seq<string>>,
    commands: Option<seq<string>>)

  datatype Profile = Profile(path: string, slug: string, config: ProfileConfig)

  /** Full path of each profile file to the configuration it holds. */
  type Store = map<string, ProfileConfig>

  /** `getProfileSlug`: the first `PROFILES_DIR/` and then the first `.yml` are removed. */
  function GetProfileSlug(home: string, path: string): (r: string)
    ensures |r| <= |path|
    ensures !Contains(path, Paths.ProfilesDir(home) + "/") && !Contains(path, ".yml") ==> r == path
  {
    ReplaceFirst(ReplaceFirst(path, Paths.ProfilesDir(home) + "/", ""), ".yml", "")
  }

  /** Extracting the slug from `getProfilePath(slug)` gives the slug back for every valid profile name. */
  lemma ProfileSlugRoundTrip(home: string, slug: string)
    requires IsValidProfileName(slug)
    ensures GetProfileSlug(home, Paths.GetProfilePath(home, slug)) == slug
  {
    var dir := Paths.ProfilesDir(home) + "/";
    assert Paths.GetProfilePath(home, slug) == dir + (slug + ".yml");
    ReplaceLeading(dir, slug + ".yml", "");
    assert "" + (slug + ".yml") == slug + ".yml";
    ReplaceTrailing(slug, ".yml", "");
    assert slug + "" == slug;
  }

  /** `parseProfile` of a stored file: its path, the configuration stored there, and the
      slug that a valid profile name was stored under. */
  function ParseProfile(home: string, store: Store, path: string): (r: Profile)
    requires path in store
    ensures r.path == path && r.config == store[path]
    ensures forall slug :: IsValidProfileName(slug) && path == Paths.GetProfilePath(home, slug) ==> r.slug == slug
  {
    assert forall slug | IsValidProfileName(slug) && path == Paths.GetProfilePath(home, slug) ::
        GetProfileSlug(home, path) == slug by {
      forall slug | IsValidProfileName(slug) && path == Paths.GetProfilePath(home, slug)
        ensures GetProfileSlug(home, path) == slug
      {
        ProfileSlugRoundTrip(home, slug);
      }
    }
    Profile(path, GetProfileSlug(home, path), store[path])
  }

  /** `profileExists`. */
  predicate ProfileExists(home: string, store: Store, slug: string) {
    Paths.GetProfilePath(home, slug) in store
  }

  /** A profile exists exactly when loading it succeeds. */
  lemma ProfileExistsIff(home: string, store: Store, slug: string)
    ensures ProfileExists(home, store, slug) <==> LoadProfile(home, store, slug).Success?
  {
  }

  /** `loadProfile`: `ProfileNotFound` when no file lies at `getProfilePath(slug)`, otherwise
      the stored configuration at that path. */
  function LoadProfile(home: string, store: Store, slug: string): (r: Result<Profile, Error>)
    ensures !ProfileExists(home, store, slug) <==> r == Failure(ProfileNotFound(slug))
    ensures r.Success? ==>
      r.value.path == Paths.GetProfilePath(home, slug) && r.value.config == store[Paths.GetProfilePath(home, slug)]
  {
    var path := Paths.GetProfilePath(home, slug);
    if path !in store then Failure(ProfileNotFound(slug)) else Success(ParseProfile(home, store, path))
  }

  /** A profile loaded under a valid name carries that name as its slug. */
  lemma LoadedProfileSlug(home: string, store: Store, slug: string)
    requires IsValidProfileName(slug)
    ensures LoadProfile(home, store, slug).Success? ==> LoadProfile(home, store, slug).value.slug == slug
  {
    ProfileSlugRoundTrip(home, slug);
  }

  /** `createProfile`: writes (or overwrites) the file with exactly the given blocks and
      empty agent and command lists, and returns it parsed back. */
  function CreateProfile(home: string, store: Store, slug: string, name: string, description: string, blocks: seq<string>)
    : (r: (Store, Profile))
    ensures r.0 == store[Paths.GetProfilePath(home, slug) := r.1.config]
    ensures r.1.config == ProfileConfig(name, description, blocks, Some([]), Some([]))
    ensures LoadProfile(home, r.0, slug) == Success(r.1)
  {
    var path := Paths.GetProfilePath(home, slug);
    var store' := store[path := ProfileConfig(name, description, blocks, Some([]), Some([]))];
    (store', ParseProfile(home, store', path))
  }

  /** `updateProfile`: `ProfileNotFound`, writing nothing, when the file is absent;
      otherwise the file is replaced by `config` and parsed back. */
  function UpdateProfile(home: string, store: Store, slug: string, config: ProfileConfig): (r: (Store, Result<Profile, Error>))
    ensures !ProfileExists(home, store, slug) ==> r == (store, Failure(ProfileNotFound(slug)))
    ensures ProfileExists(home, store, slug) ==>
      r.0 == store[Paths.GetProfilePath(home, slug) := config] && r.1 == LoadProfile(home, r.0, slug) &&
      r.1.Success? && r.1.value.config == config
  {
    var path := Paths.GetProfilePath(home, slug);
    if path !in store then (store, Failure(ProfileNotFound(slug)))
    else
      var store' := store[path := config];
      (store', Success(ParseProfile(home, store', path)))
  }

  /** `deleteProfile`: `ProfileNotFound` when absent, otherwise the file is removed. */
  function DeleteProfile(home: string, store: Store, slug: string): (r: Result<Store, Error>)
    ensures !ProfileExists(home, store, slug) <==> r == Failure(ProfileNotFound(slug))
    ensures r.Success? ==> r.value == store - {Paths.GetProfilePath(home, slug)}
  {
    var path := Paths.GetProfilePath(home, slug);
    if path !in store then Failure(ProfileNotFound(slug)) else Success(store - {path})
  }

  /** A deleted profile is no longer found. */
  lemma DeleteThenLoadProfile(home: string, store: Store, slug: string)
    requires DeleteProfile(home, store, slug).Success?
    ensures LoadProfile(home, DeleteProfile(home, store, slug).value, slug) == Failure(ProfileNotFound(slug))
  {
  }

  /** The block list after `addBlockToProfile`: the slug appended at the end unless present. */
  function WithBlock(blocks: seq<string>, blockSlug: string): (r: seq<string>)
    ensures blockSlug in r
    ensures blocks <= r
    ensures blockSlug in blocks <==> r == blocks
    ensures blockSlug !in blocks <==> r == blocks + [blockSlug]
  {
    if blockSlug in blocks then blocks else blocks + [blockSlug]
  }

  /** The test `b !== blockSlug` of `removeBlockFromProfile`. */
  function Other(blockSlug: string): string -> bool {
    b => b != blockSlug
  }

  /** The block list after `removeBlockFromProfile`: every occurrence of the slug dropped. */
  function WithoutBlock(blocks: seq<string>, blockSlug: string): (r: seq<string>)
    ensures blockSlug !in r
    ensures forall b :: b in r <==> b in blocks && b != blockSlug
    ensures blockSlug !in blocks ==> r == blocks
  {
    var r := Filter(blocks, Other(blockSlug));
    if blockSlug in blocks then r else FilterAll(blocks, Other(blockSlug)); r
  }

  /** `addBlockToProfile`: the load error when the profile is absent; the loaded profile,
      writing nothing, when it already lists the block; otherwise the block is appended
      and the profile written. */
  function AddBlockToProfile(home: string, store: Store, profileSlug: string, blockSlug: string): (r: (Store, Result<Profile, Error>))
    ensures LoadProfile(home, store, profileSlug).Failure? ==> r == (store, LoadProfile(home, store, profileSlug))
    ensures LoadProfile(home, store, profileSlug).Success? ==>
      var cfg := LoadProfile(home, store, profileSlug).value.config;
      (blockSlug in cfg.blocks ==> r == (store, LoadProfile(home, store, profileSlug))) &&
      (blockSlug !in cfg.blocks ==> r == UpdateProfile(home, store, profileSlug, cfg.(blocks := cfg.blocks + [blockSlug])))
  {
    match LoadProfile(home, store, profileSlug)
    case Failure(e) => (store, Failure(e))
    case Success(p) =>
      if blockSlug !in p.config.blocks then
        UpdateProfile(home, store, profileSlug, p.config.(blocks := WithBlock(p.config.blocks, blockSlug)))
      else (store, Success(p))
  }

  /** After `addBlockToProfile` the profile lists the block, keeping every prior entry in
      its place, and nothing but the block list changes. */
  lemma AddBlockResult(home: string, store: Store, profileSlug: string, blockSlug: string)
    requires ProfileExists(home, store, profileSlug)
    ensures var cfg := LoadProfile(home, store, profileSlug).value.config;
      var r := AddBlockToProfile(home, store, profileSlug, blockSlug);
      r.1.Success? && LoadProfile(home, r.0, profileSlug) == r.1 &&
      r.1.value.config == cfg.(blocks := WithBlock(cfg.blocks, blockSlug))
  {
  }

  /** Adding the same block twice is the same as adding it once. */
  lemma AddBlockIdempotent(home: string, store: Store, profileSlug: string, blockSlug: string)
    ensures var r := AddBlockToProfile(home, store, profileSlug, blockSlug);
      AddBlockToProfile(home, r.0, profileSlug, blockSlug) == (r.0, LoadProfile(home, r.0, profileSlug))
    ensures var r := AddBlockToProfile(home, store, profileSlug, blockSlug);
      LoadProfile(home, r.0, profileSlug) == r.1
  {
  }

  /** `removeBlockFromProfile`: the load error when the profile is absent; otherwise the
      block list without the slug is written, even when the slug was not there. */
  function RemoveBlockFromProfile(home: string, store: Store, profileSlug: string, blockSlug: string): (r: (Store, Result<Profile, Error>))
    ensures LoadProfile(home, store, profileSlug).Failure? ==> r == (store, LoadProfile(home, store, profileSlug))
    ensures LoadProfile(home, store, profileSlug).Success? ==>
      var cfg := LoadProfile(home, store, profileSlug).value.config;
      r == UpdateProfile(home, store, profileSlug, cfg.(blocks := WithoutBlock(cfg.blocks, blockSlug)))
  {
    match LoadProfile(home, store, profileSlug)
    case Failure(e) => (store, Failure(e))
    case Success(p) => UpdateProfile(home, store, profileSlug, p.config.(blocks := WithoutBlock(p.config.blocks, blockSlug)))
  }

  /** Filtering out a slug removes the one appended at the end. */
  lemma {:induction false} WithoutAppended(blocks: seq<string>, blockSlug: string)
    requires blockSlug !in blocks
    ensures WithoutBlock(blocks + [blockSlug], blockSlug) == blocks
  {
    FilterAppend(blocks, [blockSlug], Other(blockSlug));
    FilterAll(blocks, Other(blockSlug));
    assert [blockSlug][..0] == [];
  }

  /** What `addBlockToProfile` stores for a block the profile does not list. */
  lemma AddStores(home: string, store: Store, profileSlug: string, blockSlug: string)
    requires ProfileExists(home, store, profileSlug)
    requires blockSlug !in store[Paths.GetProfilePath(home, profileSlug)].blocks
    ensures var path := Paths.GetProfilePath(home, profileSlug);
      AddBlockToProfile(home, store, profileSlug, blockSlug).0 ==
        store[path := store[path].(blocks := store[path].blocks + [blockSlug])]
  {
  }

  /** What `removeBlockFromProfile` stores for an existing profile. */
  lemma RemoveStores(home: string, store: Store, profileSlug: string, blockSlug: string)
    requires ProfileExists(home, store, profileSlug)
    ensures var path := Paths.GetProfilePath(home, profileSlug);
      var cfg := store[path].(blocks := WithoutBlock(store[path].blocks, blockSlug));
      RemoveBlockFromProfile(home, store, profileSlug, blockSlug) ==
        (store[path := cfg], Success(Profile(path, GetProfileSlug(home, path), cfg)))
  {
  }

  /** Adding a block the profile did not list and then removing it gives back the
      original configuration. */
  lemma AddThenRemove(home: string, store: Store, profileSlug: string, blockSlug: string)
    requires ProfileExists(home, store, profileSlug)
    requires blockSlug !in LoadProfile(home, store, profileSlug).value.config.blocks
    ensures var r := AddBlockToProfile(home, store, profileSlug, blockSlug);
      var s := RemoveBlockFromProfile(home, r.0, profileSlug, blockSlug);
      s.1.Success? && s.1.value.config == LoadProfile(home, store, profileSlug).value.config &&
      s.0 == store
  {
    var path := Paths.GetProfilePath(home, profileSlug);
    var cfg := store[path];
    var store1 := store[path := cfg.(blocks := cfg.blocks + [blockSlug])];
    AddStores(home, store, profileSlug, blockSlug);
    RemoveStores(home, store1, profileSlug, blockSlug);
    WithoutAppended(cfg.blocks, blockSlug);
    Restore(store, path, cfg.(blocks := cfg.blocks + [blockSlug]));
  }

  /** Writing a file and then writing back what it held restores the directory. */
  lemma Restore(store: Store, path: string, config: ProfileConfig)
    requires path in store
    ensures store[path := config][path := store[path]] == store
  {
  }

  /** Removing a block twice is the same as removing it once. */
  lemma RemoveBlockIdempotent(home: string, store: Store, profileSlug: string, blockSlug: string)
    ensures var r := RemoveBlockFromProfile(home, store, profileSlug, blockSlug);
      RemoveBlockFromProfile(home, r.0, profileSlug, blockSlug) == r
  {
    var path := Paths.GetProfilePath(home, profileSlug);
    if path in store {
      var r := RemoveBlockFromProfile(home, store, profileSlug, blockSlug);
      var cfg := r.0[path];
      assert WithoutBlock(cfg.blocks, blockSlug) == cfg.blocks;
      assert r.0[path := cfg] == r.0;
    }
  }
}
