/**
 Changed-only overlays over an immutable base: planning, building, the two validators, and the merged view that
 a search sees.
 */
module OverlayBuild {
  import opened Wrappers
  import opened Contracts
  import opened Sorting
  import opened Manifest
  import opened IndexRows
  import opened IndexBuild
  import opened IndexUpdate

  datatype OverlayPlan = OverlayPlan(baseId: nat, baseManifest: FileManifest, diff: ManifestDiff, tombstones: seq<Path>,
                                     changedSnapshot: Snapshot)

  /** Base paths that the worktree lacks or holds with other bytes. */
  function Tombstoned(base: map<Path, Entry>, hashes: map<Path, Hash>): set<Path> {
    set p | p in base && (p !in hashes || base[p].hash != hashes[p])
  }

  /** The metadata that a reader of an overlay manifest accepts. */
  ghost predicate ShapeOk(manifest: OverlayManifest) {
    && manifest.modelId != ""
    && "" !in manifest.tombstones
    && SortedBy(PathLe, manifest.tombstones) && NoRepeats(manifest.tombstones)
  }

  ghost predicate IdentityOk(manifest: OverlayManifest, baseId: nat, compatibility: Compatibility) {
    && ShapeOk(manifest)
    && manifest.baseId == baseId && manifest.modelId == compatibility.modelId && manifest.dimensions == compatibility.dimensions
  }

  /** The complete manifest is the base outside the tombstones together with the changed entries. */
  predicate Composes(complete: map<Path, Entry>, base: map<Path, Entry>, tombstones: set<Path>, changed: map<Path, Entry>) {
    && tombstones <= base.Keys
    && (base - tombstones).Keys !! changed.Keys
    && complete == (base - tombstones) + changed
  }

  // ---- Planning --------------------------------------------------------------------------------

  method PlanOverlayBuild(snapshot: Snapshot, entries: seq<FileHash>, baseId: nat, base: Store, compatibility: Compatibility)
    returns (r: Result<OverlayPlan, BuildError>)
    requires HashByPath(entries) == Hashes(snapshot.files)
    ensures r.Ok? ==>
              && StoreOk(base, compatibility)
              && PlannedOver(r.value, baseId, base.manifest.value, snapshot)
              && BytesOf(snapshot.files, r.value.diff.changed) <= MAX_CHANGED_BYTES
    ensures r.Err? ==>
              if r.error == Unavailable then !StoreOk(base, compatibility)
              else r.error == ChangedBytesCeiling && StoreOk(base, compatibility)
                   && exists diff :: IsDiff(diff, base.manifest.value.files, Hashes(snapshot.files))
                                     && BytesOf(snapshot.files, diff.changed) > MAX_CHANGED_BYTES
  {
    var restored := ValidateCodeIndexStore(base, compatibility);
    if restored.Err? { return Err(Unavailable); }
    var manifest := base.manifest.value;
    var diff := DiffManifest(Some(manifest), entries);
    var changedBase := KnownPaths(diff.changed, manifest.files);
    var tombstones := UniqueSorted(diff.deleted + changedBase);
    MembersAppend(diff.deleted, changedBase);
    TombstonesOfDiff(diff, manifest.files, Hashes(snapshot.files));
    var changedBytes := SumBytes(snapshot.files, diff.changed);
    if changedBytes > MAX_CHANGED_BYTES { return Err(ChangedBytesCeiling); }
    r := Ok(OverlayPlan(baseId, manifest, diff, tombstones, Snapshot(Restrict(snapshot.files, Members(diff.changed)))));
  }

  /** The changed paths that the base has. */
  method KnownPaths(changed: seq<Path>, files: map<Path, Entry>) returns (known: seq<Path>)
    ensures Members(known) == Members(changed) * files.Keys
  {
    hide Members;
    known := [];
    NoMembers();
    for i := 0 to |changed|
      invariant Members(known) == Members(changed[..i]) * files.Keys
    {
      assert changed[..i + 1] == changed[..i] + [changed[i]];
      AddMember(changed[..i], changed[i]);
      AddMember(known, changed[i]);
      if changed[i] in files {
        known := known + [changed[i]];
      }
    }
    assert changed[..|changed|] == changed;
  }

  method SumBytes(files: map<Path, Bytes>, paths: seq<Path>) returns (bytes: nat)
    ensures bytes == BytesOf(files, paths)
  {
    bytes := 0;
    for i := 0 to |paths|
      invariant bytes == BytesOf(files, paths[..i])
    {
      assert paths[..i + 1][..i] == paths[..i];
      if paths[i] in files {
        bytes := bytes + |files[paths[i]]|;
      }
    }
    assert paths[..|paths|] == paths;
  }

  lemma TombstonesOfDiff(diff: ManifestDiff, base: map<Path, Entry>, hashes: map<Path, Hash>)
    requires IsDiff(diff, base, hashes)
    ensures Members(diff.deleted) + Members(diff.changed) * base.Keys == Tombstoned(base, hashes)
  {
    hide PathLe;
    EnumeratedMembers(diff.deleted, DeletedPaths(base, hashes));
    EnumeratedMembers(diff.changed, ChangedPaths(base, hashes));
  }

  ghost predicate PlannedOver(plan: OverlayPlan, baseId: nat, base: FileManifest, snapshot: Snapshot) {
    && plan.baseId == baseId && plan.baseManifest == base
    && IsDiff(plan.diff, base.files, Hashes(snapshot.files))
    && Enumerates(plan.tombstones, Tombstoned(base.files, Hashes(snapshot.files)))
    && plan.changedSnapshot == Snapshot(Restrict(snapshot.files, Members(plan.diff.changed)))
  }

  // ---- Building --------------------------------------------------------------------------------

  /** The overlay's own store is a cold build of the changed files. */
  function ChangedPlan(plan: OverlayPlan): BuildPlan {
    BuildPlan(None, ManifestDiff(plan.diff.changed, [], []))
  }

  function CompleteFiles(plan: OverlayPlan, changed: map<Path, Entry>): map<Path, Entry> {
    Restrict(plan.baseManifest.files, Members(plan.diff.kept)) + changed
  }

  function OverlayManifestOf(plan: OverlayPlan, compatibility: Compatibility, files: map<Path, Entry>): OverlayManifest {
    OverlayManifest(plan.baseId, compatibility.modelId, compatibility.dimensions, files, plan.tombstones)
  }

  ghost function OverlayOutcome(t: Toolchain, plan: OverlayPlan, compatibility: Compatibility): Result<Store, BuildError> {
    var built := BuildOutcome(t, ChangedPlan(plan), plan.changedSnapshot, compatibility);
    if built.Err? then built
    else
      var files := CompleteFiles(plan, built.value.manifest.value.files);
      if Total(files) > MAX_TOTAL_CHUNKS then Err(ChunkCeiling)
      else if !ShapeOk(OverlayManifestOf(plan, compatibility, files)) then Err(InvalidManifest)
      else Ok(built.value.(overlay := Some(OverlayManifestOf(plan, compatibility, files))))
  }

  method BuildOverlayIndex(t: Toolchain, plan: OverlayPlan, compatibility: Compatibility, hits: map<string, Vector>)
    returns (r: Result<Store, BuildError>)
    requires WellBehaved(t) && CacheSound(t, hits)
    requires NoRepeats(plan.diff.changed) && Enumerates(plan.tombstones, Members(plan.tombstones))
    ensures r == OverlayOutcome(t, plan, compatibility)
  {
    hide BuildOutcome, NoRepeats, PathLe, SortedBy, ShapeOk, Total, Enumerates, Restrict, Members;
    var built := BuildCodeIndex(t, ChangedPlan(plan), plan.changedSnapshot, compatibility, hits);
    if built.Err? { return built; }
    BuildHasManifest(t, ChangedPlan(plan), plan.changedSnapshot, compatibility);
    var changed := built.value.manifest.value.files;
    var files := AddEntries(Restrict(plan.baseManifest.files, Members(plan.diff.kept)), changed);
    var mergedChunks := SumChunks(files);
    if mergedChunks > MAX_TOTAL_CHUNKS { return Err(ChunkCeiling); }
    var tombstones := UniqueSorted(plan.tombstones);
    EnumerationIsUnique(tombstones, plan.tombstones, Members(plan.tombstones));
    var manifest := OverlayManifest(plan.baseId, compatibility.modelId, compatibility.dimensions, files, tombstones);
    var ok := CheckShape(manifest);
    if !ok { return Err(InvalidManifest); }
    return Ok(built.value.(overlay := Some(manifest)));
  }

  method AddEntries(base: map<Path, Entry>, changed: map<Path, Entry>) returns (files: map<Path, Entry>)
    ensures files == base + changed
  {
    files := base;
    var rest := changed.Keys;
    EntriesBound(base, changed);
    while rest != {}
      invariant rest <= changed.Keys
      invariant files == base + (changed - rest)
      decreases |rest|
    {
      var path :| path in rest;
      EntryAdded(base, changed, rest, path);
      rest := rest - {path};
      files := files[path := changed[path]];
    }
  }

  lemma EntriesBound(base: map<Path, Entry>, changed: map<Path, Entry>)
    ensures base + (changed - changed.Keys) == base && changed - {} == changed
  {
    assert changed - changed.Keys == map[];
  }

  lemma EntryAdded(base: map<Path, Entry>, changed: map<Path, Entry>, rest: set<Path>, path: Path)
    requires path in rest && rest <= changed.Keys
    ensures base + (changed - (rest - {path})) == (base + (changed - rest))[path := changed[path]]
  {
    assert changed - (rest - {path}) == (changed - rest)[path := changed[path]];
  }

  lemma BuildHasManifest(t: Toolchain, plan: BuildPlan, snapshot: Snapshot, compatibility: Compatibility)
    ensures BuildOutcome(t, plan, snapshot, compatibility).Ok? ==> BuildOutcome(t, plan, snapshot, compatibility).value.manifest.Some?
  {
  }

  /** The tombstone loop of `validateOverlayManifest`. */
  method CheckShape(manifest: OverlayManifest) returns (ok: bool)
    ensures ok <==> ShapeOk(manifest)
  {
    if manifest.modelId == "" { return false; }
    var tombstones := manifest.tombstones;
    PathOrder();
    for index := 0 to |tombstones|
      invariant "" !in tombstones[..index]
      invariant SortedBy(PathLe, tombstones[..index]) && NoRepeats(tombstones[..index])
    {
      assert tombstones[..index + 1] == tombstones[..index] + [tombstones[index]];
      if tombstones[index] == "" { return false; }
      if index > 0 && !(PathLe(tombstones[index - 1], tombstones[index]) && tombstones[index - 1] != tombstones[index]) {
        return false;
      }
      if index > 0 {
        StrictlyAbove(tombstones, index);
      }
    }
    assert tombstones[..|tombstones|] == tombstones;
    return true;
  }

  lemma StrictlyAbove(s: seq<Path>, index: nat)
    requires 0 < index < |s| && SortedBy(PathLe, s[..index]) && NoRepeats(s[..index])
    requires PathLe(s[index - 1], s[index]) && s[index - 1] != s[index]
    ensures forall i :: 0 <= i < index ==> PathLe(s[i], s[index]) && s[i] != s[index]
  {
    forall i | 0 <= i < index ensures PathLe(s[i], s[index]) && s[i] != s[index] {
      assert s[..index][i] == s[i] && s[..index][index - 1] == s[index - 1];
      if i < index - 1 {
        assert PathLe(s[i], s[index - 1]);
        PathLeTransitive(s[i], s[index - 1], s[index]);
        PathLeTotal(s[i], s[index - 1]);
      }
    }
  }

  // ---- The merged view -------------------------------------------------------------------------

  /** The base rows that survive tombstone filtering. */
  function Outside(index: map<string, Row>, tombstones: set<Path>): map<string, Row> {
    map id | id in index && index[id].chunk.path !in tombstones :: index[id]
  }

  function MergedIndex(base: map<string, Row>, tombstones: set<Path>, overlay: map<string, Row>): map<string, Row> {
    Outside(base, tombstones) + overlay
  }

  /** Filtering a cold index by path is building fewer files. */
  lemma OutsideIsCold(t: Toolchain, files: map<Path, Bytes>, tombstones: set<Path>)
    requires WellBehaved(t)
    ensures Outside(ColdIndex(t, files), tombstones) == ColdIndex(t, files - tombstones)
  {
    hide ColdIndex, Chunks, RowOf, MakeCodeChunkId;
    var filtered, cold := Outside(ColdIndex(t, files), tombstones), ColdIndex(t, files - tombstones);
    forall id ensures id in filtered <==> id in cold
              ensures id in cold ==> filtered[id] == cold[id]
    {
      if id in cold {
        var p, i := ColdRowOf(t, files - tombstones, id);
        ColdRow(t, files, p, i);
        RowPath(t, p, files[p], i);
      } else if id in ColdIndex(t, files) {
        var p, i := ColdRowOf(t, files, id);
        RowPath(t, p, files[p], i);
        if p !in tombstones { ColdRow(t, files - tombstones, p, i); }
      }
    }
  }

  lemma RowPath(t: Toolchain, p: Path, bytes: Bytes, i: nat)
    requires WellBehaved(t) && i < |Chunks(t, p, bytes)|
    ensures RowOf(t, Chunks(t, p, bytes)[i]).chunk.path == p
  {
    ChunksAreNumbered(t, p, bytes);
  }

  /** What a successful overlay build stores. */
  lemma OverlayParts(t: Toolchain, plan: OverlayPlan, base: FileManifest, snapshot: Snapshot, compatibility: Compatibility)
    requires PlannedOver(plan, plan.baseId, base, snapshot)
    requires OverlayOutcome(t, plan, compatibility).Ok?
    ensures var overlay := OverlayOutcome(t, plan, compatibility).value;
            var changed := Restrict(snapshot.files, ChangedPaths(base.files, Hashes(snapshot.files)));
            && overlay.index == Some(ColdIndex(t, changed))
            && overlay.manifest == Some(ManifestOf(compatibility, ColdFiles(t, changed)))
            && overlay.overlay.Some? && ShapeOk(overlay.overlay.value)
            && Total(overlay.overlay.value.files) <= MAX_TOTAL_CHUNKS
            && overlay.overlay.value == OverlayManifestOf(plan, compatibility,
                 Restrict(base.files, UnchangedPaths(base.files, Hashes(snapshot.files))) + ColdFiles(t, changed))
  {
    hide ColdIndex, ColdFiles, ShapeOk, BuildOutcome, Enumerates, Total, ChangedPaths, UnchangedPaths, RowsValid;
    EnumeratedMembers(plan.diff.changed, ChangedPaths(base.files, Hashes(snapshot.files)));
    EnumeratedMembers(plan.diff.kept, UnchangedPaths(base.files, Hashes(snapshot.files)));
    ChangedOnlyIsCold(t, plan, base, snapshot, compatibility);
  }

  lemma ChangedOnlyIsCold(t: Toolchain, plan: OverlayPlan, base: FileManifest, snapshot: Snapshot, compatibility: Compatibility)
    requires PlannedOver(plan, plan.baseId, base, snapshot)
    ensures BuildOutcome(t, ChangedPlan(plan), plan.changedSnapshot, compatibility)
         == if Total(ColdFiles(t, plan.changedSnapshot.files)) > MAX_TOTAL_CHUNKS then Err(ChunkCeiling)
            else if !RowsValid(t, plan.changedSnapshot.files) then Err(InvalidRow)
            else Ok(ColdStore(t, compatibility, plan.changedSnapshot))
  {
    hide ColdIndex, Chunks, ColdFiles, StoreCovers, Total, RowsValid, BuildOutcome, IsDiff, Enumerates;
    var changed := plan.changedSnapshot.files;
    assert Replaced(ChangedPlan(plan), plan.changedSnapshot) == changed;
    NothingRemoved(ChangedPlan(plan));
    assert BuiltFiles(t, ChangedPlan(plan), plan.changedSnapshot) == ColdFiles(t, changed);
    assert BuiltIndex(t, ChangedPlan(plan), plan.changedSnapshot) == ColdIndex(t, changed);
    OutcomeIsCold(t, ChangedPlan(plan), plan.changedSnapshot, compatibility);
  }

  /**
   For every base snapshot and worktree snapshot, the base rows outside the tombstones together with the overlay
   rows are the rows of a cold full build of the worktree, the two parts share no path, and the complete manifest
   is that of the cold build.
   */
  lemma MergedViewIsColdBuild(t: Toolchain, plan: OverlayPlan, base: Store, before: Snapshot, snapshot: Snapshot, compatibility: Compatibility)
    requires WellBehaved(t)
    requires base == ColdStore(t, compatibility, before)
    requires PlannedOver(plan, plan.baseId, base.manifest.value, snapshot)
    requires OverlayOutcome(t, plan, compatibility).Ok?
    ensures var overlay := OverlayOutcome(t, plan, compatibility).value;
            var tombstones := Members(overlay.overlay.value.tombstones);
            && MergedIndex(base.index.value, tombstones, overlay.index.value) == ColdIndex(t, snapshot.files)
            && (forall a <- Outside(base.index.value, tombstones), b <- overlay.index.value ::
                  base.index.value[a].chunk.path != overlay.index.value[b].chunk.path)
            && Outside(base.index.value, tombstones).Keys !! overlay.index.value.Keys
            && overlay.overlay.value.files == ColdFiles(t, snapshot.files)
  {
    hide ColdIndex, ColdFiles, OverlayOutcome, Enumerates, Total, ShapeOk, MergedIndex, Outside, ChangedPaths, Tombstoned, UnchangedPaths, Restrict;
    var hashes, files := Hashes(snapshot.files), ColdFiles(t, before.files);
    OverlayParts(t, plan, base.manifest.value, snapshot, compatibility);
    EnumeratedMembers(plan.tombstones, Tombstoned(files, hashes));
    var changed := Restrict(snapshot.files, ChangedPaths(files, hashes));
    var kept := before.files - Tombstoned(files, hashes);
    DiffSplits(t, before.files, snapshot.files);
    OutsideIsCold(t, before.files, Tombstoned(files, hashes));
    ColdIndexUnion(t, kept, changed);
    PathsApart(t, kept, changed);
    ColdFilesUnion(t, kept, changed);
    Merging(base.index.value, Tombstoned(files, hashes), ColdIndex(t, changed));
  }

  /** The worktree is what the base keeps outside the tombstones plus what changed, without overlap. */
  lemma DiffSplits(t: Toolchain, before: map<Path, Bytes>, after: map<Path, Bytes>)
    ensures var files, hashes := ColdFiles(t, before), Hashes(after);
            var kept, changed := before - Tombstoned(files, hashes), Restrict(after, ChangedPaths(files, hashes));
            && kept + changed == after && kept.Keys !! changed.Keys
            && Restrict(files, UnchangedPaths(files, hashes)) == ColdFiles(t, kept)
  {
    hide Chunks;
  }

  lemma Merging(base: map<string, Row>, tombstones: set<Path>, overlay: map<string, Row>)
    ensures MergedIndex(base, tombstones, overlay) == Outside(base, tombstones) + overlay
    ensures forall a <- Outside(base, tombstones) :: a in base && Outside(base, tombstones)[a] == base[a]
  {
  }

  lemma PathsApart(t: Toolchain, a: map<Path, Bytes>, b: map<Path, Bytes>)
    requires WellBehaved(t) && a.Keys !! b.Keys
    ensures forall x <- ColdIndex(t, a), y <- ColdIndex(t, b) :: ColdIndex(t, a)[x].chunk.path != ColdIndex(t, b)[y].chunk.path
  {
    hide ColdIndex, Chunks, RowOf;
    forall x <- ColdIndex(t, a), y <- ColdIndex(t, b) ensures ColdIndex(t, a)[x].chunk.path != ColdIndex(t, b)[y].chunk.path {
      var p, i := ColdRowOf(t, a, x);
      RowPath(t, p, a[p], i);
      var q, j := ColdRowOf(t, b, y);
      RowPath(t, q, b[q], j);
    }
  }
}
