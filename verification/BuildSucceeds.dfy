/** When planning and building succeed: for a snapshot with valid rows and few enough chunks, over a sound previous store or base. */
module BuildSucceeds {
  import opened Wrappers
  import opened Contracts
  import opened Sorting
  import opened Manifest
  import opened IndexRows
  import opened IndexBuild
  import opened IndexUpdate
  import opened OverlayBuild

  /** The snapshot has valid rows, and its chunks stay under the ceiling. */
  ghost predicate Buildable(t: Toolchain, snapshot: Snapshot) {
    RowsValid(t, snapshot.files) && Total(ColdFiles(t, snapshot.files)) <= MAX_TOTAL_CHUNKS
  }

  /** The bytes of the files that differ from the manifest stay under the ceiling of a changed-only build. */
  ghost predicate SmallChange(files: map<Path, Entry>, snapshot: Snapshot) {
    forall diff: ManifestDiff :: IsDiff(diff, files, Hashes(snapshot.files)) ==> BytesOf(snapshot.files, diff.changed) <= MAX_CHANGED_BYTES
  }

  // ---- Plans exist -----------------------------------------------------------------------------

  lemma ListOfPaths(paths: set<Path>) returns (s: seq<Path>)
    ensures NoRepeats(s) && Members(s) == paths
  {
    if paths == {} {
      s := [];
    } else {
      var p :| p in paths;
      var rest := ListOfPaths(paths - {p});
      s := rest + [p];
      AddMember(rest, p);
    }
  }

  lemma Enumerated(paths: set<Path>) returns (s: seq<Path>)
    ensures Enumerates(s, paths)
  {
    var list := ListOfPaths(paths);
    SortEnumerates(list, paths);
    s := StableSort(PathLe, list);
  }

  lemma DiffExists(files: map<Path, Entry>, hashes: map<Path, Hash>) returns (diff: ManifestDiff)
    ensures IsDiff(diff, files, hashes)
  {
    hide Enumerates;
    var changed := Enumerated(ChangedPaths(files, hashes));
    var deleted := Enumerated(DeletedPaths(files, hashes));
    var kept := Enumerated(UnchangedPaths(files, hashes));
    diff := ManifestDiff(changed, deleted, kept);
  }

  lemma OverlayPlanExists(baseId: nat, base: FileManifest, snapshot: Snapshot) returns (plan: OverlayPlan)
    ensures PlannedOver(plan, baseId, base, snapshot)
    ensures plan == OverlayPlan(baseId, base, plan.diff, plan.tombstones, Snapshot(Restrict(snapshot.files, Members(plan.diff.changed))))
  {
    hide Enumerates, IsDiff, Tombstoned;
    var diff := DiffExists(base.files, Hashes(snapshot.files));
    var tombstones := Enumerated(Tombstoned(base.files, Hashes(snapshot.files)));
    plan := OverlayPlan(baseId, base, diff, tombstones, Snapshot(Restrict(snapshot.files, Members(diff.changed))));
  }

  // ---- Builds succeed --------------------------------------------------------------------------

  lemma {:induction false} TotalOfPart(part: map<Path, Entry>, all: map<Path, Entry>)
    requires part.Keys <= all.Keys && forall p <- part :: part[p] == all[p]
    ensures Total(part) <= Total(all)
  {
    hide Total;
    TotalUnion(part, all - part.Keys);
    assert part + (all - part.Keys) == all;
  }

  /** A part of the files builds when all of them do. */
  lemma PartBuilds(t: Toolchain, snapshot: Snapshot, paths: set<Path>)
    requires Buildable(t, snapshot)
    ensures Buildable(t, Snapshot(Restrict(snapshot.files, paths)))
  {
    hide Chunks, Total, FileRowsValid;
    TotalOfPart(ColdFiles(t, Restrict(snapshot.files, paths)), ColdFiles(t, snapshot.files));
  }

  /** An overlay over a cold base: what it takes to be built, and which failure comes first. */
  lemma OverlayOutcomeIs(t: Toolchain, plan: OverlayPlan, before: Snapshot, snapshot: Snapshot, compatibility: Compatibility)
    requires PlannedOver(plan, plan.baseId, ManifestOf(compatibility, ColdFiles(t, before.files)), snapshot)
    ensures var outcome, changed := OverlayOutcome(t, plan, compatibility), plan.changedSnapshot.files;
            if Total(ColdFiles(t, changed)) > MAX_TOTAL_CHUNKS then outcome == Err(ChunkCeiling)
            else if !RowsValid(t, changed) then outcome == Err(InvalidRow)
            else if Total(ColdFiles(t, snapshot.files)) > MAX_TOTAL_CHUNKS then outcome == Err(ChunkCeiling)
            else if compatibility.modelId == "" || "" in plan.tombstones then outcome == Err(InvalidManifest)
            else outcome.Ok?
  {
    hide ColdIndex, Chunks, ColdFiles, Total, RowsValid, BuildOutcome, Enumerates, ChangedPaths, UnchangedPaths, Tombstoned;
    var base := ManifestOf(compatibility, ColdFiles(t, before.files));
    var files, hashes := base.files, Hashes(snapshot.files);
    ChangedOnlyIsCold(t, plan, base, snapshot, compatibility);
    EnumeratedMembers(plan.diff.changed, ChangedPaths(files, hashes));
    EnumeratedMembers(plan.diff.kept, UnchangedPaths(files, hashes));
    DiffSplits(t, before.files, snapshot.files);
    var kept, changed := before.files - Tombstoned(files, hashes), Restrict(snapshot.files, ChangedPaths(files, hashes));
    ColdFilesUnion(t, kept, changed);
    assert CompleteFiles(plan, ColdFiles(t, changed)) == ColdFiles(t, snapshot.files);
    TombstonesAreSorted(plan.tombstones, Tombstoned(files, hashes));
  }

  lemma TombstonesAreSorted(tombstones: seq<Path>, paths: set<Path>)
    requires Enumerates(tombstones, paths)
    ensures SortedBy(PathLe, tombstones) && NoRepeats(tombstones)
  {
  }

  /** An overlay over a cold base is built whenever its worktree could be built in full. */
  lemma OverlaySucceeds(t: Toolchain, plan: OverlayPlan, before: Snapshot, snapshot: Snapshot, compatibility: Compatibility)
    requires PlannedOver(plan, plan.baseId, ManifestOf(compatibility, ColdFiles(t, before.files)), snapshot) && Buildable(t, snapshot)
    requires compatibility.modelId != "" && "" !in before.files
    ensures OverlayOutcome(t, plan, compatibility).Ok?
  {
    hide ColdIndex, Chunks, ColdFiles, Total, RowsValid, BuildOutcome, Enumerates, ChangedPaths, UnchangedPaths, OverlayOutcome;
    OverlayOutcomeIs(t, plan, before, snapshot, compatibility);
    PartBuilds(t, snapshot, Members(plan.diff.changed));
    TombstonesAreNamed(plan.tombstones, t, before.files, Hashes(snapshot.files));
  }

  lemma TombstonesAreNamed(tombstones: seq<Path>, t: Toolchain, before: map<Path, Bytes>, hashes: map<Path, Hash>)
    requires Enumerates(tombstones, Tombstoned(ColdFiles(t, before), hashes)) && "" !in before
    ensures "" !in tombstones
  {
    hide Chunks, PathLe;
  }
}
