/**
 Whole builds: what an undisturbed builder makes current, from its first step to its last, and when it does not build.
 */
module BuildRuns {
  import opened Wrappers
  import opened Contracts
  import opened Manifest
  import opened IndexRows
  import opened IndexBuild
  import opened IndexUpdate
  import opened OverlayBuild
  import opened OverlayValidation
  import opened BuildSucceeds
  import opened StateModel
  import opened StateInvariant
  import opened Protocol
  import opened ProtocolInvariant
  import opened ProtocolSafety
  import opened Publication
  import opened Lifecycle
  import opened LifecycleInvariant
  import opened LifecycleSafety
  import opened LifecycleProgress
  import opened LifecycleRuns

  // ---- What a build needs ----------------------------------------------------------------------

  /** The snapshot that a generation records. */
  function Recorded(w: World, id: Uuid): Snapshot
    requires id in w.db.generations
  {
    SnapshotOf(w.db.generations[id].digest)
  }

  /** The changed files stay under their ceiling, seen from the snapshot that generation `id` records. */
  ghost predicate SmallStep(tools: Tools, w: World, c: Compatibility, id: Uuid, snapshot: Snapshot) {
    id in w.db.generations && SmallChange(ColdFiles(tools(c), Recorded(w, id).files), snapshot)
  }

  /** The snapshot changes few enough bytes of the store it is built from, if there is one. */
  ghost predicate SmallFor(tools: Tools, w: World, c: Compatibility, target: Target, snapshot: Snapshot) {
    match target
    case FullTarget(previous) => previous.Some? ==> SmallStep(tools, w, c, previous.value, snapshot)
    case OverlayTarget(base) => SmallStep(tools, w, c, base, snapshot)
  }

  /** The snapshot has valid rows, few enough chunks and few enough changed bytes, and an overlay's metadata can be written. */
  ghost predicate Fits(tools: Tools, w: World, c: Compatibility, target: Target, snapshot: Snapshot) {
    && Buildable(tools(c), snapshot) && SmallFor(tools, w, c, target, snapshot)
    && (target.OverlayTarget? ==> c.modelId != "" && target.base in w.db.generations && "" !in Recorded(w, target.base).files)
  }

  function BaseOf(target: Target): Option<Uuid> {
    if target.FullTarget? then None else Some(target.base)
  }

  function RowFor(o: Uuid, request: Request, c: Compatibility, target: Target, snapshot: Snapshot, bytes: nat, status: Status): Generation {
    Generation(o, request.checkout, request.repo, if target.FullTarget? then Full else Overlay, BaseOf(target), c,
               ComputeDigest(snapshot), false, bytes, status)
  }

  // ---- The plan --------------------------------------------------------------------------------

  lemma TargetOf(tools: Tools, start: World, life: Life, b: nat, o: Uuid, request: Request, c: Compatibility, target: Target)
    requires Stands(tools, start, life, b, o, request, c, Decided(target))
    ensures TargetOk(life.world, life.builders[b], target)
  {
    hide Inv, TargetOk, ReadyMatches, PublicationsOk;
    assert BuilderOk(tools, life.world, life.builders[b]);
  }

  /** A full generation that an operation has pinned is stored as the cold build of what it records. */
  lemma PinnedIsCold(tools: Tools, w: World, o: Uuid, id: Uuid, c: Compatibility)
    requires Inv(w) && ReadyMatches(tools, w) && Pinned(w, o, id)
    requires w.db.generations[id].kind.Full? && w.db.generations[id].compatibility == c
    ensures BuiltFrom(tools(c), c, ReadStore(w, id), Recorded(w, id)) && OnDisk(w, id)
  {
    hide BuiltFrom, Inv, ReadyMatches;
    PinnedMatches(tools, w, o, id);
  }

  lemma PlanExists(tools: Tools, w: World, builder: Builder, target: Target, snapshot: Snapshot) returns (diff: ManifestDiff, tombstones: seq<Path>)
    requires Inv(w) && ReadyMatches(tools, w) && TargetOk(w, builder, target)
    requires SmallFor(tools, w, builder.compatibility, target, snapshot)
    ensures PlanFor(w, builder, target, snapshot, diff, tombstones).Some?
  {
    hide Inv, ReadyMatches, IsDiff, PlannedOver, ColdFiles, ColdIndex, RowsValid, Total, Buildable;
    var c := builder.compatibility;
    tombstones := [];
    match target
    case FullTarget(previous) =>
      if previous.None? {
        diff := DiffExists(map[], Hashes(snapshot.files));
      } else {
        PinnedIsCold(tools, w, builder.operation, previous.value, c);
        diff := DiffExists(ReadStore(w, previous.value).manifest.value.files, Hashes(snapshot.files));
      }
    case OverlayTarget(base) =>
      PinnedIsCold(tools, w, builder.operation, base, c);
      ColdStoreCovers(tools(c), c, Recorded(w, base));
      var plan := OverlayPlanExists(base, ReadStore(w, base).manifest.value, snapshot);
      diff, tombstones := plan.diff, plan.tombstones;
      assert IsDiff(diff, plan.baseManifest.files, Hashes(snapshot.files)) by { PlannedDiff(plan, base, snapshot); }
  }

  lemma DiffIsUnique(a: ManifestDiff, b: ManifestDiff, files: map<Path, Entry>, hashes: map<Path, Hash>)
    requires IsDiff(a, files, hashes) && IsDiff(b, files, hashes)
    ensures a == b
  {
    hide Enumerates, ChangedPaths, DeletedPaths, UnchangedPaths;
    EnumerationIsUnique(a.changed, b.changed, ChangedPaths(files, hashes));
    EnumerationIsUnique(a.deleted, b.deleted, DeletedPaths(files, hashes));
    EnumerationIsUnique(a.kept, b.kept, UnchangedPaths(files, hashes));
  }

  lemma SmallIfPlanned(tools: Tools, w: World, builder: Builder, target: Target, snapshot: Snapshot, diff: ManifestDiff, tombstones: seq<Path>)
    requires Inv(w) && ReadyMatches(tools, w) && TargetOk(w, builder, target)
    requires PlanFor(w, builder, target, snapshot, diff, tombstones).Some?
    ensures SmallFor(tools, w, builder.compatibility, target, snapshot)
  {
    hide Inv, ReadyMatches, IsDiff, ColdFiles, ColdIndex, RowsValid, Total, Buildable, StoreOk, Enumerates;
    if target.OverlayTarget? || target.previous.Some? {
      var id := if target.OverlayTarget? then target.base else target.previous.value;
      PinnedIsCold(tools, w, builder.operation, id, builder.compatibility);
      var files := ColdFiles(tools(builder.compatibility), Recorded(w, id).files);
      forall other: ManifestDiff | IsDiff(other, files, Hashes(snapshot.files)) ensures other == diff {
        DiffIsUnique(other, diff, files, Hashes(snapshot.files));
      }
    }
  }

  /** Planning succeeds exactly when the changed bytes stay under their ceiling. */
  lemma PlannedExactlyWhenSmall(tools: Tools, w: World, builder: Builder, target: Target, snapshot: Snapshot)
    requires Inv(w) && ReadyMatches(tools, w) && TargetOk(w, builder, target)
    ensures (exists diff, tombstones :: PlanFor(w, builder, target, snapshot, diff, tombstones).Some?)
            <==> SmallFor(tools, w, builder.compatibility, target, snapshot)
  {
    hide *;
    if SmallFor(tools, w, builder.compatibility, target, snapshot) {
      var diff, tombstones := PlanExists(tools, w, builder, target, snapshot);
    }
    if diff, tombstones :| PlanFor(w, builder, target, snapshot, diff, tombstones).Some? {
      SmallIfPlanned(tools, w, builder, target, snapshot, diff, tombstones);
    }
  }

  lemma PlannedDiff(plan: OverlayPlan, base: Uuid, snapshot: Snapshot)
    requires PlannedOver(plan, base, plan.baseManifest, snapshot)
    ensures IsDiff(plan.diff, plan.baseManifest.files, Hashes(snapshot.files))
  {
    hide IsDiff;
  }

  lemma PlanStep(tools: Tools, life: Life, b: nat, snapshot: Snapshot, diff: ManifestDiff, tombstones: seq<Path>)
    requires At(life, b) && life.builders[b].stage.Decided?
    requires !Unmoved(life.world, life.builders[b], life.builders[b].stage.target, snapshot)
    requires PlanFor(life.world, life.builders[b], life.builders[b].stage.target, snapshot, diff, tombstones).Some?
    ensures var builder := life.builders[b];
            var plan := PlanFor(life.world, builder, builder.stage.target, snapshot, diff, tombstones).value;
            LifeStep(tools, life, PlanBuild(b, snapshot, snapshot, diff, tombstones)) == Move(life, b, Planned(builder.stage.target, snapshot, plan))
  {
    hide PlanFor, Unmoved, StepLate;
  }

  // ---- The row, the directory and the store ----------------------------------------------------

  lemma BeginAccepted(w: World, builder: Builder, g: Uuid)
    requires Inv(w) && builder.stage.Planned? && TargetOk(w, builder, builder.stage.target)
    requires IsActive(w.db, builder.operation) && HoldsWriter(w.db, builder.request.checkout, builder.operation)
    requires builder.stage.target.OverlayTarget? ==> w.db.generations[builder.stage.target.base].repo == builder.request.repo
    ensures StateModel.BeginGeneration(w.db, g, InputFor(builder))
         == Ok(w.db.(generations := w.db.generations[g :=
              RowFor(builder.operation, builder.request, builder.compatibility, builder.stage.target, builder.stage.snapshot, 0, Staging)]))
  {
    assert PinsOk(w.db);
  }

  lemma BeginStep(tools: Tools, life: Life, b: nat, g: Uuid, call: nat, db: Db)
    requires At(life, b) && life.builders[b].stage.Planned? && call !in life.world.calls && g !in life.world.issued
    requires StateModel.BeginGeneration(life.world.db, g, InputFor(life.builders[b])) == Ok(db)
    ensures var w, stage := life.world, life.builders[b].stage;
            LifeStep(tools, life, Begin(b, g, call))
            == Move(life.(world := w.(db := db, calls := w.calls[call := Making(g)], issued := w.issued + [g])), b,
                    Begun(stage.target, stage.snapshot, stage.plan, g, call))
  {
    hide StateModel.BeginGeneration, InputFor, OutcomeFor, StepEarly, ValidatorAccepts;
  }

  lemma MakeStep(tools: Tools, life: Life, b: nat)
    requires At(life, b) && life.builders[b].stage.Begun?
    requires BuiltBy(life.world, life.builders[b], Making(life.builders[b].stage.generation)) && life.builders[b].stage.generation !in life.world.temp
    ensures var w, stage := life.world, life.builders[b].stage;
            LifeStep(tools, life, Make(b))
            == life.(world := w.(calls := w.calls[stage.call := Writing(stage.generation)],
                                 temp := w.temp[stage.generation := Dir(w.inodes, Store(None, None, None))], inodes := w.inodes + 1))
  {
    hide OutcomeFor, StepEarly, ValidatorAccepts;
  }

  lemma WriteStep(tools: Tools, life: Life, b: nat)
    requires At(life, b) && life.builders[b].stage.Begun? && OutcomeFor(tools, life.world, life.builders[b]).Ok?
    requires BuiltBy(life.world, life.builders[b], Writing(life.builders[b].stage.generation)) && life.builders[b].stage.generation in life.world.temp
    ensures var w, stage, g := life.world, life.builders[b].stage, life.builders[b].stage.generation;
            LifeStep(tools, life, Write(b))
            == Move(life.(world := w.(calls := w.calls - {stage.call}, inodes := w.inodes + 1,
                                      temp := w.temp[g := Dir(w.temp[g].inode, OutcomeFor(tools, w, life.builders[b]).value)])), b,
                    Built(stage.target, stage.snapshot, stage.plan, g))
  {
    hide OutcomeFor, StepEarly, ValidatorAccepts;
  }

  /** A build that fits succeeds, and its validator accepts what it wrote. */
  lemma OutcomeSucceeds(tools: Tools, w: World, builder: Builder)
    requires Inv(w) && ReadyMatches(tools, w) && builder.stage.Begun?
    requires var stage := builder.stage;
             && TargetOk(w, builder, stage.target) && PlanOk(w, builder, stage.target, stage.snapshot, stage.plan)
             && Fits(tools, w, builder.compatibility, stage.target, stage.snapshot)
    ensures OutcomeFor(tools, w, builder).Ok?
    ensures builder.stage.target.FullTarget? ==>
              OutcomeFor(tools, w, builder).value == ColdStore(tools(builder.compatibility), builder.compatibility, builder.stage.snapshot)
    ensures builder.stage.target.OverlayTarget? ==> OverlayAccepted(w, builder, OutcomeFor(tools, w, builder).value)
  {
    hide Inv, ReadyMatches, IsDiff, PlannedOver, ColdFiles, ColdIndex, RowsValid, Total, BuildOutcome, OverlayOutcome, OverlayBuildOk, SmallChange;
    var stage, c, t := builder.stage, builder.compatibility, tools(builder.compatibility);
    match stage.target
    case FullTarget(None) =>
      ColdBuild(t, stage.plan.full, stage.snapshot, c) by { DiffUnfolded(stage.plan.full, stage.snapshot); }
    case FullTarget(Some(id)) =>
      PinnedIsCold(tools, w, builder.operation, id, c);
      var again := BuildPlan(Some(Previous(stage.plan.full.previous.value.manifest, ReadStore(w, id))), stage.plan.full.diff);
      assert PreviousFiles(again) == PreviousFiles(stage.plan.full);
      IncrementalBuild(t, again, Recorded(w, id), stage.snapshot, c);
    case OverlayTarget(base) =>
      PinnedIsCold(tools, w, builder.operation, base, c);
      var before := Recorded(w, base);
      ColdStoreCovers(t, c, before);
      OverlaySucceeds(t, stage.plan.over, before, stage.snapshot, c);
      BuiltOverlayIsAccepted(t, stage.plan.over, ReadStore(w, base), stage.snapshot, c);
  }

  ghost predicate OverlayAccepted(w: World, builder: Builder, store: Store)
    requires builder.stage.Begun?
  {
    var stage := builder.stage;
    stage.plan.OverPlan? &&
    OverlayBuildOk(store, ReadStore(w, stage.plan.over.baseId), stage.plan.over.baseId, builder.compatibility, stage.snapshot, stage.plan.over.tombstones)
  }

  // ---- One builder, step by step ---------------------------------------------------------------

  /** What a build is given, and the new names it takes. */
  datatype Names = Names(builder: nat, operation: Uuid, pid: nat, now: nat, generation: Uuid, making: nat, bytes: nat, publishing: nat)

  predicate Unused(life: Life, n: Names) {
    && !At(life, n.builder) && n.operation !in life.world.db.operations
    && n.generation !in life.world.issued && n.making !in life.world.calls && n.publishing !in life.world.calls
  }

  /** An update of a primary checkout has something to do. */
  predicate Moves(w: World, request: Request, target: Target, snapshot: Snapshot) {
    request.primary && target.FullTarget? && target.previous.Some? ==>
      target.previous.value in w.db.generations && w.db.generations[target.previous.value].digest != ComputeDigest(snapshot)
  }

  lemma Plans(tools: Tools, start: World, life: Life, n: Names, request: Request, c: Compatibility, target: Target, snapshot: Snapshot)
    returns (diff: ManifestDiff, tombstones: seq<Path>, plan: Plan)
    requires ToolsOk(tools) && Stands(tools, start, life, n.builder, n.operation, request, c, Decided(target))
    requires Fits(tools, start, c, target, snapshot) && Moves(start, request, target, snapshot)
    ensures Stands(tools, start, LifeStep(tools, life, PlanBuild(n.builder, snapshot, snapshot, diff, tombstones)), n.builder, n.operation, request, c,
                   Planned(target, snapshot, plan))
  {
    hide Inv, ReadyMatches, PublicationsOk, BuildersOk, TargetOk, PlanFor, LifeStep, ToolsOk, Buildable, SmallChange;
    var builder := life.builders[n.builder];
    TargetOf(tools, start, life, n.builder, n.operation, request, c, target);
    assert !Unmoved(life.world, builder, target, snapshot);
    diff, tombstones := PlanExists(tools, life.world, builder, target, snapshot);
    plan := PlanFor(life.world, builder, target, snapshot, diff, tombstones).value;
    LifeStepKeeps(tools, life, PlanBuild(n.builder, snapshot, snapshot, diff, tombstones));
    PlanStep(tools, life, n.builder, snapshot, diff, tombstones);
  }

  /** Since `start`, the operation has inserted its row, and nothing else has become ready or current. */
  ghost predicate Inserted(start: World, w: World, n: Names, request: Request, row: Generation) {
    && w.db.generations == start.db.generations[n.generation := row] && w.db.current == start.db.current
    && IsActive(w.db, n.operation) && HoldsWriter(w.db, request.checkout, n.operation) && w.final == start.final
  }

  /** The row has been inserted, and a call of the builder makes or fills its directory. */
  ghost predicate Prepares(tools: Tools, start: World, life: Life, n: Names, request: Request, c: Compatibility,
                           target: Target, snapshot: Snapshot, plan: Plan, call: Call) {
    && LifeInv(tools, life) && At(life, n.builder)
    && life.builders[n.builder] == Builder(n.operation, request, c, Begun(target, snapshot, plan, n.generation, n.making))
    && Inserted(start, life.world, n, request, RowFor(n.operation, request, c, target, snapshot, 0, Staging))
    && life.world.calls == start.calls[n.making := call]
  }

  lemma Begins(tools: Tools, start: World, life: Life, n: Names, request: Request, c: Compatibility, target: Target, snapshot: Snapshot, plan: Plan)
    requires ToolsOk(tools) && Stands(tools, start, life, n.builder, n.operation, request, c, Planned(target, snapshot, plan))
    requires n.generation !in start.issued && n.making !in start.calls
    requires target.OverlayTarget? && target.base in start.db.generations ==> start.db.generations[target.base].repo == request.repo
    ensures Prepares(tools, start, LifeStep(tools, life, Begin(n.builder, n.generation, n.making)), n, request, c, target, snapshot, plan,
                     Making(n.generation))
    ensures n.generation !in life.world.temp && LifeStep(tools, life, Begin(n.builder, n.generation, n.making)).world.temp == life.world.temp
  {
    hide ReadyMatches, PublicationsOk, LifeStep, ToolsOk, PlanOk, Inv, BuilderOk, RowFor;
    var builder := life.builders[n.builder];
    assert BuilderOk(tools, life.world, builder);
    PlannedTarget(tools, life.world, builder);
    assert IdsOk(life.world) by { IdsOf(life.world); }
    BeginAccepted(life.world, builder, n.generation);
    var db := StateModel.BeginGeneration(life.world.db, n.generation, InputFor(builder)).value;
    BeginStep(tools, life, n.builder, n.generation, n.making, db);
    LifeStepKeeps(tools, life, Begin(n.builder, n.generation, n.making));
  }

  lemma IdsOf(w: World)
    requires Inv(w)
    ensures IdsOk(w)
  {
  }

  lemma PlannedTarget(tools: Tools, w: World, builder: Builder)
    requires BuilderOk(tools, w, builder) && builder.stage.Planned? && IsActive(w.db, builder.operation)
    ensures TargetOk(w, builder, builder.stage.target)
    ensures builder.stage.target.OverlayTarget? ==> builder.stage.target.base in w.db.generations
  {
    hide PlanOk;
  }

  lemma Makes(tools: Tools, start: World, life: Life, n: Names, request: Request, c: Compatibility, target: Target, snapshot: Snapshot, plan: Plan)
    requires ToolsOk(tools) && Prepares(tools, start, life, n, request, c, target, snapshot, plan, Making(n.generation))
    requires n.generation !in life.world.temp
    ensures Prepares(tools, start, LifeStep(tools, life, Make(n.builder)), n, request, c, target, snapshot, plan, Writing(n.generation))
    ensures n.generation in LifeStep(tools, life, Make(n.builder)).world.temp
  {
    hide LifeInv, LifeStep, ToolsOk, RowFor;
    MakeStep(tools, life, n.builder);
    LifeStepKeeps(tools, life, Make(n.builder));
  }

  /** The directory is filled, and nothing stands in the way of its publication. */
  ghost predicate Filled(tools: Tools, start: World, life: Life, n: Names, request: Request, c: Compatibility,
                         target: Target, snapshot: Snapshot, plan: Plan) {
    && LifeInv(tools, life) && At(life, n.builder)
    && life.builders[n.builder] == Builder(n.operation, request, c, Built(target, snapshot, plan, n.generation))
    && Inserted(start, life.world, n, request, RowFor(n.operation, request, c, target, snapshot, 0, Staging))
    && MayPublish(life.world, n.operation, n.generation) && n.publishing !in life.world.calls
    && (target.FullTarget? ==> life.world.temp[n.generation].store == ColdStore(tools(c), c, snapshot))
    && ValidatorAccepts(life.world, Publisher(life.builders[n.builder], n.publishing))
  }

  lemma Writes(tools: Tools, start: World, life: Life, n: Names, request: Request, c: Compatibility, target: Target, snapshot: Snapshot, plan: Plan)
    requires ToolsOk(tools) && Prepares(tools, start, life, n, request, c, target, snapshot, plan, Writing(n.generation))
    requires Inv(start) && n.generation !in start.issued && n.making !in start.calls && n.publishing !in start.calls
    requires n.generation in life.world.temp && Fits(tools, start, c, target, snapshot)
    ensures Filled(tools, start, LifeStep(tools, life, Write(n.builder)), n, request, c, target, snapshot, plan)
  {
    hide Inv, ReadyMatches, PublicationsOk, LifeStep, ToolsOk, PlanOk, TargetOk, OutcomeFor, Fits, OverlayAccepted, ValidatorAccepts, ColdStore;
    var w, builder := life.world, life.builders[n.builder];
    assert BuilderOk(tools, w, builder);
    FitsStill(tools, start, w, n, request, c, target, snapshot);
    OutcomeSucceeds(tools, w, builder);
    WriteStep(tools, life, n.builder);
    LifeStepKeeps(tools, life, Write(n.builder));
    var next := LifeStep(tools, life, Write(n.builder));
    NobodyBuilds(start, n.generation);
    assert next.world.calls == start.calls;
    AcceptsOutcome(tools, w, builder, next.world, Publisher(next.builders[n.builder], n.publishing));
  }

  lemma NobodyBuilds(w: World, g: Uuid)
    requires Inv(w) && g !in w.issued
    ensures Unbuilt(w, g) && g !in w.db.generations && g !in w.final
  {
    forall call <- w.calls ensures !Builds(w.calls[call], g) {
      assert CallOk(w, w.calls[call]);
    }
    assert IdsOk(w);
  }

  /** What the build needs does not depend on the row it inserted. */
  lemma FitsStill(tools: Tools, start: World, w: World, n: Names, request: Request, c: Compatibility, target: Target, snapshot: Snapshot)
    requires Inv(start) && n.generation !in start.issued && Fits(tools, start, c, target, snapshot)
    requires Inserted(start, w, n, request, RowFor(n.operation, request, c, target, snapshot, 0, Staging))
    ensures Fits(tools, w, c, target, snapshot)
  {
    hide Inv, Buildable, SmallChange, ColdFiles, SnapshotOf, RowFor;
    NobodyBuilds(start, n.generation);
  }

  /** The validator on the directory just filled. */
  lemma AcceptsOutcome(tools: Tools, a: World, before: Builder, b: World, after: Builder)
    requires before.stage.Begun? && OutcomeFor(tools, a, before).Ok? && PlanOk(a, before, before.stage.target, before.stage.snapshot, before.stage.plan)
    requires var stage := before.stage;
             && after == before.(stage := after.stage) && after.stage.Publishes?
             && after.stage == Publishes(stage.target, stage.snapshot, stage.plan, stage.generation, after.stage.call)
             && stage.generation in b.temp && b.temp[stage.generation].store == OutcomeFor(tools, a, before).value && b.final == a.final
             && (if stage.target.FullTarget? then
                   OutcomeFor(tools, a, before).value == ColdStore(tools(before.compatibility), before.compatibility, stage.snapshot)
                 else OverlayAccepted(a, before, OutcomeFor(tools, a, before).value))
    ensures ValidatorAccepts(b, after)
  {
    hide OutcomeFor, OverlayBuildOk, StoreCovers, ColdStore, IsDiff, PlannedOver;
    ColdStoreCovers(tools(before.compatibility), before.compatibility, before.stage.snapshot);
  }

  // ---- What an undisturbed build leaves --------------------------------------------------------

  /**
   The new generation is ready and serves the cold build of the snapshot; it is current unless the last capture
   differed, and no other pointer, row or final directory has changed.
   */
  ghost predicate Published(tools: Tools, start: World, after: World, n: Names, request: Request, c: Compatibility, target: Target,
                            snapshot: Snapshot, post: Snapshot) {
    && after.db.current == (if post == snapshot then start.db.current[request.checkout := n.generation] else start.db.current)
    && after.db.generations == start.db.generations[n.generation :=
         RowFor(n.operation, request, c, target, snapshot, n.bytes, Ready).(sourceMoved := post != snapshot)]
    && n.generation in after.final && after.final == start.final[n.generation := after.final[n.generation]]
    && (target.FullTarget? ==> after.final[n.generation].store == ColdStore(tools(c), c, snapshot))
    && ServedIndex(after, n.generation) == Some(ColdIndex(tools(c), snapshot.files))
  }

  /** Every generation on disk serves the cold build of what it records. */
  lemma ReadyServes(tools: Tools, w: World, g: Uuid)
    requires Inv(w) && ReadyMatches(tools, w) && OnDisk(w, g)
    ensures ServedIndex(w, g) == Some(ColdIndex(tools(w.db.generations[g].compatibility), SnapshotOf(w.db.generations[g].digest).files))
  {
    hide ColdIndex, RowsValid, ColdFiles, MergedIndex, Members, Inv;
    assert Matches(tools, w, w.db.generations[g], w.final[g].store);
  }

  lemma Finishes(tools: Tools, start: World, life: Life, n: Names, request: Request, c: Compatibility, target: Target,
                 snapshot: Snapshot, plan: Plan, post: Snapshot)
    requires ToolsOk(tools) && Filled(tools, start, life, n, request, c, target, snapshot, plan)
    ensures Published(tools, start, LifeRun(tools, life, Finishing(n.builder, post, n.bytes, n.publishing)).world, n, request, c, target, snapshot, post)
  {
    hide Inv, ReadyMatches, PublicationsOk, BuildersOk, ToolsOk, ValidatorAccepts, ColdStore, LifeRun, Finishing, ServedIndex, ColdIndex, SnapshotOf;
    BuiltGenerationIsPublished(tools, life, n.builder, post, n.bytes, n.publishing);
    LifeRunKeeps(tools, life, Finishing(n.builder, post, n.bytes, n.publishing));
    ReadyServes(tools, LifeRun(tools, life, Finishing(n.builder, post, n.bytes, n.publishing)).world, n.generation);
    SnapshotOfDigest(snapshot);
  }

  function Deciding(n: Names, request: Request, c: Compatibility): seq<LifeEvent> {
    [Start(n.builder, n.operation, request, c, n.pid, n.now), Acquire(n.builder), Decide(n.builder)]
  }

  lemma RunDeciding(tools: Tools, life: Life, n: Names, request: Request, c: Compatibility)
    ensures LifeRun(tools, life, Deciding(n, request, c))
         == LifeStep(tools, LifeStep(tools, LifeStep(tools, life, Start(n.builder, n.operation, request, c, n.pid, n.now)),
                     Acquire(n.builder)), Decide(n.builder))
  {
    hide LifeStep, LifeRun;
    var a, b, d := Start(n.builder, n.operation, request, c, n.pid, n.now), Acquire(n.builder), Decide(n.builder);
    assert Deciding(n, request, c) == [a] + ([b] + [d]);
    LifeRunAppend(tools, life, [a], [b] + [d]);
    LifeRunOne(tools, life, a);
    LifeRunAppend(tools, LifeStep(tools, life, a), [b], [d]);
    LifeRunOne(tools, LifeStep(tools, life, a), b);
    LifeRunOne(tools, LifeStep(tools, LifeStep(tools, life, a), b), d);
  }

  lemma ReachesDecision(tools: Tools, life: Life, n: Names, request: Request, c: Compatibility, target: Target)
    requires ToolsOk(tools) && LifeInv(tools, life) && MayStart(life, n.builder, n.operation, request) && Due(life.world, request, c, target)
    ensures Stands(tools, life.world, LifeRun(tools, life, Deciding(n, request, c)), n.builder, n.operation, request, c, Decided(target))
  {
    hide *;
    var start, b, o := life.world, n.builder, n.operation;
    Starts(tools, life, b, o, request, c, n.pid, n.now);
    var l1 := LifeStep(tools, life, Start(b, o, request, c, n.pid, n.now));
    var own := Acquires(tools, start, l1, b, o, request, c);
    Decides(tools, start, LifeStep(tools, l1, Acquire(b)), b, o, request, c, own, target);
    RunDeciding(tools, life, n, request, c);
  }

  /** From the decision to the last write. */
  function Preparing(n: Names, snapshot: Snapshot, diff: ManifestDiff, tombstones: seq<Path>): seq<LifeEvent> {
    [PlanBuild(n.builder, snapshot, snapshot, diff, tombstones), Begin(n.builder, n.generation, n.making), Make(n.builder), Write(n.builder)]
  }

  lemma ReachesPublication(tools: Tools, start: World, life: Life, n: Names, request: Request, c: Compatibility, target: Target, snapshot: Snapshot)
    returns (diff: ManifestDiff, tombstones: seq<Path>, plan: Plan)
    requires ToolsOk(tools) && Stands(tools, start, life, n.builder, n.operation, request, c, Decided(target))
    requires Fits(tools, start, c, target, snapshot) && Moves(start, request, target, snapshot)
    requires Inv(start) && n.generation !in start.issued && n.making !in start.calls && n.publishing !in start.calls
    requires target.OverlayTarget? && target.base in start.db.generations ==> start.db.generations[target.base].repo == request.repo
    ensures Filled(tools, start, LifeRun(tools, life, Preparing(n, snapshot, diff, tombstones)), n, request, c, target, snapshot, plan)
  {
    hide *;
    var b := n.builder;
    diff, tombstones, plan := Plans(tools, start, life, n, request, c, target, snapshot);
    var l4 := LifeStep(tools, life, PlanBuild(b, snapshot, snapshot, diff, tombstones));
    Begins(tools, start, l4, n, request, c, target, snapshot, plan);
    var l5 := LifeStep(tools, l4, Begin(b, n.generation, n.making));
    Makes(tools, start, l5, n, request, c, target, snapshot, plan);
    var l6 := LifeStep(tools, l5, Make(b));
    Writes(tools, start, l6, n, request, c, target, snapshot, plan);
    RunPreparing(tools, life, n, snapshot, diff, tombstones);
  }

  lemma RunPreparing(tools: Tools, life: Life, n: Names, snapshot: Snapshot, diff: ManifestDiff, tombstones: seq<Path>)
    ensures LifeRun(tools, life, Preparing(n, snapshot, diff, tombstones))
         == LifeStep(tools, LifeStep(tools, LifeStep(tools, LifeStep(tools, life, PlanBuild(n.builder, snapshot, snapshot, diff, tombstones)),
                     Begin(n.builder, n.generation, n.making)), Make(n.builder)), Write(n.builder))
  {
    hide LifeRun, LifeStep;
    var p, b, m, w := PlanBuild(n.builder, snapshot, snapshot, diff, tombstones), Begin(n.builder, n.generation, n.making), Make(n.builder), Write(n.builder);
    assert Preparing(n, snapshot, diff, tombstones) == [p, b, m, w] + [];
    LifeRunFour(tools, life, p, b, m, w, []);
    NothingRuns(tools, LifeStep(tools, LifeStep(tools, LifeStep(tools, LifeStep(tools, life, p), b), m), w));
  }

  /** Everything one builder does, when nobody comes between; it builds `snapshot` and captures `post` before it publishes. */
  function Building(n: Names, request: Request, c: Compatibility, snapshot: Snapshot, diff: ManifestDiff, tombstones: seq<Path>, post: Snapshot): seq<LifeEvent> {
    Deciding(n, request, c) + (Preparing(n, snapshot, diff, tombstones) + Finishing(n.builder, post, n.bytes, n.publishing))
  }

  lemma DueBase(w: World, request: Request, c: Compatibility, target: Target)
    requires Due(w, request, c, target) && target.OverlayTarget? && target.base in w.db.generations
    ensures w.db.generations[target.base].repo == request.repo
  {
  }

  /**
   Whatever is due is built: from nothing, from the current full generation, over the primary's current generation or
   over the base of the current overlay, one undisturbed builder publishes the snapshot's cold build.
   */
  lemma WhatIsDueIsBuilt(tools: Tools, life: Life, n: Names, request: Request, c: Compatibility, target: Target, snapshot: Snapshot, post: Snapshot)
    returns (diff: ManifestDiff, tombstones: seq<Path>)
    requires ToolsOk(tools) && LifeInv(tools, life) && Unused(life, n) && MayStart(life, n.builder, n.operation, request)
    requires Due(life.world, request, c, target) && Fits(tools, life.world, c, target, snapshot) && Moves(life.world, request, target, snapshot)
    ensures Published(tools, life.world, LifeRun(tools, life, Building(n, request, c, snapshot, diff, tombstones, post)).world,
                      n, request, c, target, snapshot, post)
  {
    hide Due, Fits, Moves, LifeRun, Stands, Published, LifeInv, ToolsOk, MayStart, Inv, Finishing, Preparing, Deciding;
    InvOf(tools, life);
    if target.OverlayTarget? && target.base in life.world.db.generations { DueBase(life.world, request, c, target); }
    ReachesDecision(tools, life, n, request, c, target);
    var decided := LifeRun(tools, life, Deciding(n, request, c));
    var plan: Plan;
    diff, tombstones, plan := ReachesPublication(tools, life.world, decided, n, request, c, target, snapshot);
    var preparing, finishing := Preparing(n, snapshot, diff, tombstones), Finishing(n.builder, post, n.bytes, n.publishing);
    LifeRunAppend(tools, life, Deciding(n, request, c), preparing + finishing);
    LifeRunAppend(tools, decided, preparing, finishing);
    Finishes(tools, life.world, LifeRun(tools, decided, preparing), n, request, c, target, snapshot, plan, post);
  }

  // ---- When there is nothing to build ----------------------------------------------------------

  /** The builder is gone, and it has neither inserted nor published anything. */
  ghost predicate Left(start: World, life: Life, b: nat) {
    && !At(life, b) && life.world == start.(db := life.world.db)
    && life.world.db.generations == start.db.generations && life.world.db.current == start.db.current
  }

  /** What is decided was due. */
  lemma DecidedWasDue(start: World, life: Life, b: nat, o: Uuid, request: Request, c: Compatibility, own: Acquired)
    requires At(life, b) && life.builders[b] == Builder(o, request, c, Acquiring(own))
    requires Claimed(start, life.world, request.checkout, o) && Owns(start, request.checkout, own)
    requires request.over.Some? ==>
               && StateModel.AcquireCurrent(life.world.db, o, request.over.value.checkout).Ok?
               && var (db, theirs) := StateModel.AcquireCurrent(life.world.db, o, request.over.value.checkout).value;
                  Owns(life.world, request.over.value.checkout, theirs) && db == life.world.db.(pins := db.pins)
    ensures var next := StepDecide(life, b);
            if At(next, b) then next.builders[b].stage.Decided? && Due(start, request, c, next.builders[b].stage.target)
            else Left(start, next, b)
  {
    hide StateModel.AcquireCurrent;
  }

  /**
   An undisturbed builder goes on past its decision exactly when something is due, and then it builds towards that;
   otherwise it leaves with no row inserted, no pointer moved and no directory touched.
   */
  lemma OnlyWhatIsDueIsBuilt(tools: Tools, life: Life, n: Names, request: Request, c: Compatibility)
    requires ToolsOk(tools) && LifeInv(tools, life) && MayStart(life, n.builder, n.operation, request)
    ensures var next := LifeRun(tools, life, Deciding(n, request, c));
            && (if At(next, n.builder) then next.builders[n.builder].stage.Decided? && Due(life.world, request, c, next.builders[n.builder].stage.target)
                else Left(life.world, next, n.builder))
            && forall target :: Due(life.world, request, c, target) ==> At(next, n.builder) && next.builders[n.builder].stage == Decided(target)
  {
    hide Due, LifeRun, LifeStep, LifeInv, ToolsOk, MayStart, Inv, StateModel.AcquireCurrent, Deciding, Left, Owns;
    var start, b, o := life.world, n.builder, n.operation;
    Starts(tools, life, b, o, request, c, n.pid, n.now);
    var l1 := LifeStep(tools, life, Start(b, o, request, c, n.pid, n.now));
    var own := Acquires(tools, start, l1, b, o, request, c);
    var l2 := LifeStep(tools, l1, Acquire(b));
    InvOf(tools, l2);
    if request.over.Some? { AcquiresRows(l2.world, o, request.over.value.checkout); }
    DecideStep(tools, l2, b);
    DecidedWasDue(start, l2, b, o, request, c, own);
    RunDeciding(tools, life, n, request, c);
    forall target | Due(start, request, c, target)
      ensures At(StepDecide(l2, b), b) && StepDecide(l2, b).builders[b].stage == Decided(target)
    {
      Decides(tools, start, l2, b, o, request, c, own, target);
    }
  }

  /** An update of a primary checkout that captures what its current generation records leaves it alone. */
  lemma UnmovedPrimaryIsNotRebuilt(tools: Tools, life: Life, n: Names, request: Request, c: Compatibility, id: Uuid, first: Snapshot,
                                   snapshot: Snapshot, diff: ManifestDiff, tombstones: seq<Path>)
    requires ToolsOk(tools) && LifeInv(tools, life) && MayStart(life, n.builder, n.operation, request)
    requires request.primary && UpdateIsDue(life.world, request, c, id) && life.world.db.generations[id].digest == ComputeDigest(first)
    ensures Left(life.world, LifeStep(tools, LifeRun(tools, life, Deciding(n, request, c)), PlanBuild(n.builder, first, snapshot, diff, tombstones)), n.builder)
  {
    hide LifeRun, LifeStep, LifeInv, ToolsOk, MayStart, Inv, Deciding, PlanFor;
    ReachesDecision(tools, life, n, request, c, FullTarget(Some(id)));
    var decided := LifeRun(tools, life, Deciding(n, request, c));
    UnmovedStep(tools, decided, n.builder, first, snapshot, diff, tombstones);
  }

  lemma UnmovedStep(tools: Tools, life: Life, b: nat, first: Snapshot, snapshot: Snapshot, diff: ManifestDiff, tombstones: seq<Path>)
    requires At(life, b) && life.builders[b].stage.Decided? && Unmoved(life.world, life.builders[b], life.builders[b].stage.target, first)
    ensures LifeStep(tools, life, PlanBuild(b, first, snapshot, diff, tombstones)) == Drop(life, b)
  {
    hide PlanFor, Unmoved, StepLate;
  }
}
