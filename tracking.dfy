/** The block-tracking ledger (src/core/tracking.ts): the project's `.contextmark.yml`
    records which library blocks it uses, at which version and hash, and is compared
    against the library to find drift.

    The project's configuration is passed in as it was loaded (`None` when the file is
    missing or does not parse) and the operations that save it return the new content.
    The clock (`new Date().toISOString()`) is the parameter `now`. */
module Tracking {
  import opened Wrappers
  import opened Seqs
  import opened Errors
  import Blocks

  /** `BlockReference` (src/types/config.ts). */
  datatype BlockReference = BlockReference(name: string, version: string, hash: string)

  /** `LocalConfig` (src/types/config.ts); `agents` and `commands` are optional keys. */
  datatype LocalConfig = LocalConfig(
    profile: string,
    blocks: seq<BlockReference>,
    agents: Option<seq<string>>,
    commands: Option<seq<string>>,
    generatedAt: string)

  datatype Status = Current | Outdated | Missing

  datatype UpdateStatus = UpdateStatus(
    blockSlug: string,
    localVersion: string,
    libraryVersion: string,
    localHash: string,
    libraryHash: string,
    status: Status)

  /** The placeholder shown for the library side of a missing block. */
  const NONE_MARK: string := "-"

  /** The entry `getProjectStatus` records for one reference: the library block's version
      and hash when it loads, `current` exactly when the hashes agree; `missing`, with
      placeholders, when loading throws for any reason. */
  function StatusOf(home: string, parsers: Blocks.Parsers, files: Blocks.Files, ref: BlockReference): (r: UpdateStatus)
    ensures r.blockSlug == ref.name && r.localVersion == ref.version && r.localHash == ref.hash
    ensures r.status == Missing <==> Blocks.LoadBlock(home, parsers, files, ref.name).Failure?
    ensures r.status == Missing ==> r.libraryVersion == NONE_MARK && r.libraryHash == NONE_MARK
    ensures r.status != Missing ==>
      var b := Blocks.LoadBlock(home, parsers, files, ref.name).value;
      r.libraryVersion == b.frontmatter.version && r.libraryHash == b.hash &&
      (r.status == Current <==> ref.hash == b.hash)
  {
    match Blocks.LoadBlock(home, parsers, files, ref.name)
    case Success(b) =>
      UpdateStatus(ref.name, ref.version, b.frontmatter.version, ref.hash, b.hash,
        if ref.hash == b.hash then Current else Outdated)
    case Failure(_) =>
      UpdateStatus(ref.name, ref.version, NONE_MARK, ref.hash, NONE_MARK, Missing)
  }

  /** One status per reference, in ledger order. */
  function StatusesOf(home: string, parsers: Blocks.Parsers, files: Blocks.Files, refs: seq<BlockReference>): (r: seq<UpdateStatus>)
    ensures |r| == |refs|
    ensures forall i :: 0 <= i < |refs| ==> r[i] == StatusOf(home, parsers, files, refs[i])
  {
    if refs == [] then []
    else StatusesOf(home, parsers, files, refs[..|refs| - 1]) + [StatusOf(home, parsers, files, refs[|refs| - 1])]
  }

  /** One more reference adds its status at the end. */
  lemma StatusesStep(home: string, parsers: Blocks.Parsers, files: Blocks.Files, refs: seq<BlockReference>, i: nat)
    requires i < |refs|
    ensures StatusesOf(home, parsers, files, refs[..i + 1]) ==
      StatusesOf(home, parsers, files, refs[..i]) + [StatusOf(home, parsers, files, refs[i])]
  {
    assert refs[..i + 1][..i] == refs[..i];
  }

  /** The loop step of `getProjectStatus`: appending the next reference's status keeps the
      statuses those of the references seen so far. */
  lemma StatusesExtend(home: string, parsers: Blocks.Parsers, files: Blocks.Files, refs: seq<BlockReference>, i: nat,
                       statuses: seq<UpdateStatus>, status: UpdateStatus)
    requires i < |refs|
    requires statuses == StatusesOf(home, parsers, files, refs[..i])
    requires status == StatusOf(home, parsers, files, refs[i])
    ensures statuses + [status] == StatusesOf(home, parsers, files, refs[..i + 1])
  {
    StatusesStep(home, parsers, files, refs, i);
  }

  /** `getProjectStatus`: `ProjectNotInitialized` without a configuration; otherwise the
      status of every reference in order, none of them throwing. */
  method GetProjectStatus(home: string, parsers: Blocks.Parsers, files: Blocks.Files, local: Option<LocalConfig>)
    returns (r: Result<seq<UpdateStatus>, Error>)
    ensures local.None? ==> r == Failure(ProjectNotInitialized)
    ensures local.Some? ==> r == Success(StatusesOf(home, parsers, files, local.value.blocks))
  {
    if local.None? {
      return Failure(ProjectNotInitialized);
    }
    var refs := local.value.blocks;
    var statuses: seq<UpdateStatus> := [];
    var i := 0;
    while i < |refs|
      invariant 0 <= i <= |refs|
      invariant statuses == StatusesOf(home, parsers, files, refs[..i])
    {
      var ref := refs[i];
      var loaded := Blocks.LoadBlock(home, parsers, files, ref.name);
      var status: UpdateStatus;
      match loaded {
        case Success(block) =>
          status := UpdateStatus(ref.name, ref.version, block.frontmatter.version, ref.hash, block.hash,
            if ref.hash == block.hash then Current else Outdated);
        case Failure(_) =>
          status := UpdateStatus(ref.name, ref.version, NONE_MARK, ref.hash, NONE_MARK, Missing);
      }
      assert status == StatusOf(home, parsers, files, ref);
      StatusesExtend(home, parsers, files, refs, i, statuses, status);
      statuses := statuses + [status];
      i := i + 1;
    }
    assert refs[..i] == refs;
    return Success(statuses);
  }

  /** A reference is up to date when its block loads with the recorded hash. */
  predicate UpToDate(home: string, parsers: Blocks.Parsers, files: Blocks.Files, ref: BlockReference) {
    var b := Blocks.LoadBlock(home, parsers, files, ref.name);
    b.Success? && b.value.hash == ref.hash
  }

  /** `needsUpdate`: true exactly when some recorded block is missing from the library or
      has a different hash there. */
  method NeedsUpdate(home: string, parsers: Blocks.Parsers, files: Blocks.Files, local: Option<LocalConfig>)
    returns (r: Result<bool, Error>)
    ensures local.None? ==> r == Failure(ProjectNotInitialized)
    ensures local.Some? ==> r.Success?
    ensures local.Some? ==>
      (r.value <==> exists i :: 0 <= i < |local.value.blocks| && !UpToDate(home, parsers, files, local.value.blocks[i]))
  {
    var statuses := GetProjectStatus(home, parsers, files, local);
    if statuses.Failure? {
      return Failure(statuses.error);
    }
    r := Success(exists s :: s in statuses.value && s.status != Current);
    NotCurrentIff(home, parsers, files, local.value.blocks);
  }

  /** Some status is not `current` exactly when some reference is not up to date. */
  lemma NotCurrentIff(home: string, parsers: Blocks.Parsers, files: Blocks.Files, refs: seq<BlockReference>)
    ensures (exists s :: s in StatusesOf(home, parsers, files, refs) && s.status != Current) <==>
      exists i :: 0 <= i < |refs| && !UpToDate(home, parsers, files, refs[i])
  {
    var all := StatusesOf(home, parsers, files, refs);
    if exists s :: s in all && s.status != Current {
      var s :| s in all && s.status != Current;
      var i :| 0 <= i < |all| && all[i] == s;
      StatusNotCurrent(home, parsers, files, refs[i]);
    }
    if exists i :: 0 <= i < |refs| && !UpToDate(home, parsers, files, refs[i]) {
      var i :| 0 <= i < |refs| && !UpToDate(home, parsers, files, refs[i]);
      StatusNotCurrent(home, parsers, files, refs[i]);
      assert all[i] in all;
    }
  }

  /** A reference's status is not `current` exactly when it is not up to date. */
  lemma StatusNotCurrent(home: string, parsers: Blocks.Parsers, files: Blocks.Files, ref: BlockReference)
    ensures StatusOf(home, parsers, files, ref).status != Current <==> !UpToDate(home, parsers, files, ref)
  {
  }

  /** The test `s.status === 'outdated'`. */
  function IsOutdated(): UpdateStatus -> bool {
    (s: UpdateStatus) => s.status == Outdated
  }

  /** `getOutdatedBlocks`: the outdated statuses in ledger order, leaving out missing blocks. */
  method GetOutdatedBlocks(home: string, parsers: Blocks.Parsers, files: Blocks.Files, local: Option<LocalConfig>)
    returns (r: Result<seq<UpdateStatus>, Error>)
    ensures local.None? ==> r == Failure(ProjectNotInitialized)
    ensures local.Some? ==> r == Success(Filter(StatusesOf(home, parsers, files, local.value.blocks), IsOutdated()))
  {
    var statuses := GetProjectStatus(home, parsers, files, local);
    if statuses.Failure? {
      return Failure(statuses.error);
    }
    return Success(Filter(statuses.value, IsOutdated()));
  }

  /** The outdated list holds exactly the references whose block loads with another hash. */
  lemma OutdatedAre(home: string, parsers: Blocks.Parsers, files: Blocks.Files, refs: seq<BlockReference>)
    ensures var out := Filter(StatusesOf(home, parsers, files, refs), IsOutdated());
      (forall s :: s in out ==> s.status == Outdated && s.libraryHash != s.localHash) &&
      (forall i :: 0 <= i < |refs| && Blocks.LoadBlock(home, parsers, files, refs[i].name).Success? &&
                   Blocks.LoadBlock(home, parsers, files, refs[i].name).value.hash != refs[i].hash ==>
                   StatusOf(home, parsers, files, refs[i]) in out)
  {
    var all := StatusesOf(home, parsers, files, refs);
    var out := Filter(all, IsOutdated());
    forall s | s in out ensures s.status == Outdated && s.libraryHash != s.localHash {
      var k :| 0 <= k < |out| && out[k] == s;
      var j :| 0 <= j < |all| && all[j] == s;
      assert s == StatusOf(home, parsers, files, refs[j]);
    }
    forall i | 0 <= i < |refs| && Blocks.LoadBlock(home, parsers, files, refs[i].name).Success? &&
               Blocks.LoadBlock(home, parsers, files, refs[i].name).value.hash != refs[i].hash
      ensures StatusOf(home, parsers, files, refs[i]) in out
    {
      assert all[i] == StatusOf(home, parsers, files, refs[i]);
      assert IsOutdated()(all[i]);
    }
  }

  /** Some reference carries `name`. */
  predicate Tracks(refs: seq<BlockReference>, name: string) {
    exists i :: 0 <= i < |refs| && refs[i].name == name
  }

  /** `addBlockToProject`. Returns the configuration file after the call and the result:
      `ProjectNotInitialized` without a configuration; the configuration unchanged and
      unsaved when it already tracks the block; the load error when the block is not in
      the library; otherwise the block's reference appended at the end, the timestamp set
      and the configuration saved. */
  function AddBlockToProject(home: string, parsers: Blocks.Parsers, files: Blocks.Files, local: Option<LocalConfig>, blockSlug: string, now: string)
    : (r: (Option<LocalConfig>, Result<LocalConfig, Error>))
    ensures local.None? ==> r == (local, Failure(ProjectNotInitialized))
    ensures local.Some? && Tracks(local.value.blocks, blockSlug) ==> r == (local, Success(local.value))
    ensures local.Some? && !Tracks(local.value.blocks, blockSlug) ==>
      var b := Blocks.LoadBlock(home, parsers, files, blockSlug);
      (b.Failure? ==> r == (local, Failure(b.error))) &&
      (b.Success? ==>
        var cfg := local.value.(blocks := local.value.blocks + [BlockReference(blockSlug, b.value.frontmatter.version, b.value.hash)],
                                generatedAt := now);
        r == (Some(cfg), Success(cfg)))
  {
    match local
    case None => (local, Failure(ProjectNotInitialized))
    case Some(cfg) =>
      if exists i :: 0 <= i < |cfg.blocks| && cfg.blocks[i].name == blockSlug then (local, Success(cfg))
      else
        match Blocks.LoadBlock(home, parsers, files, blockSlug)
        case Failure(e) => (local, Failure(e))
        case Success(block) =>
          var cfg' := cfg.(blocks := cfg.blocks + [BlockReference(blockSlug, block.frontmatter.version, block.hash)],
                           generatedAt := now);
          (Some(cfg'), Success(cfg'))
  }

  /** A second add of the same block changes nothing, whenever it happens. */
  lemma AddBlockIdempotent(home: string, parsers: Blocks.Parsers, files: Blocks.Files, local: Option<LocalConfig>, blockSlug: string, now: string, later: string)
    ensures var r := AddBlockToProject(home, parsers, files, local, blockSlug, now);
      r.1.Success? ==> AddBlockToProject(home, parsers, files, r.0, blockSlug, later) == (r.0, r.1)
  {
    var r := AddBlockToProject(home, parsers, files, local, blockSlug, now);
    if r.1.Success? && local.Some? && !Tracks(local.value.blocks, blockSlug) {
      var blocks := r.0.value.blocks;
      assert blocks[|blocks| - 1].name == blockSlug;
    }
  }

  /** A block just added is reported current, and every earlier entry keeps its status. */
  lemma AddedIsCurrent(home: string, parsers: Blocks.Parsers, files: Blocks.Files, cfg: LocalConfig, blockSlug: string, now: string)
    requires !Tracks(cfg.blocks, blockSlug)
    requires Blocks.LoadBlock(home, parsers, files, blockSlug).Success?
    ensures var r := AddBlockToProject(home, parsers, files, Some(cfg), blockSlug, now);
      var all := StatusesOf(home, parsers, files, r.1.value.blocks);
      |all| == |cfg.blocks| + 1 && all[|cfg.blocks|].status == Current &&
      all[..|cfg.blocks|] == StatusesOf(home, parsers, files, cfg.blocks)
  {
    var r := AddBlockToProject(home, parsers, files, Some(cfg), blockSlug, now);
    assert r.1.value.blocks[..|cfg.blocks|] == cfg.blocks;
  }

  /** The test `b.name !== blockSlug`. */
  function NotNamed(blockSlug: string): BlockReference -> bool {
    (b: BlockReference) => b.name != blockSlug
  }

  /** `removeBlockFromProject`: `ProjectNotInitialized` without a configuration; otherwise
      every reference named `blockSlug` is dropped, the rest keep their order, and the
      timestamp is set and the configuration saved even when nothing was dropped. */
  function RemoveBlockFromProject(local: Option<LocalConfig>, blockSlug: string, now: string)
    : (r: (Option<LocalConfig>, Result<LocalConfig, Error>))
    ensures local.None? ==> r == (local, Failure(ProjectNotInitialized))
    ensures local.Some? ==>
      r.1.Success? && r.0 == Some(r.1.value) &&
      r.1.value == local.value.(blocks := Filter(local.value.blocks, NotNamed(blockSlug)), generatedAt := now)
    ensures local.Some? ==> !Tracks(r.1.value.blocks, blockSlug)
    ensures local.Some? ==> forall b :: b in r.1.value.blocks <==> b in local.value.blocks && b.name != blockSlug
  {
    match local
    case None => (local, Failure(ProjectNotInitialized))
    case Some(cfg) =>
      var cfg' := cfg.(blocks := Filter(cfg.blocks, NotNamed(blockSlug)), generatedAt := now);
      (Some(cfg'), Success(cfg'))
  }

  /** Adding a block the project did not track and then removing it restores the ledger. */
  lemma AddThenRemove(home: string, parsers: Blocks.Parsers, files: Blocks.Files, cfg: LocalConfig, blockSlug: string, now: string, later: string)
    requires !Tracks(cfg.blocks, blockSlug)
    ensures var added := AddBlockToProject(home, parsers, files, Some(cfg), blockSlug, now);
      var removed := RemoveBlockFromProject(added.0, blockSlug, later);
      removed.1.value.blocks == cfg.blocks
  {
    FilterAll(cfg.blocks, NotNamed(blockSlug));
    var b := Blocks.LoadBlock(home, parsers, files, blockSlug);
    if b.Success? {
      var ref := BlockReference(blockSlug, b.value.frontmatter.version, b.value.hash);
      FilterAppend(cfg.blocks, [ref], NotNamed(blockSlug));
      assert [ref][..0] == [];
    }
  }
}
