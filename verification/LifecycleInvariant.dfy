/**
 What every builder and every publication relies on, kept by every event of every run.
 */
module LifecycleInvariant {
  import opened Wrappers
  import opened Contracts
  import opened Manifest
  import opened IndexRows
  import opened IndexBuild
  import opened IndexUpdate
  import opened OverlayBuild
  import opened StateModel
  import opened StateInvariant
  import opened Protocol
  import opened ProtocolInvariant
  import opened ProtocolSafety
  import opened Lifecycle

  type Tools = Compatibility -> Toolchain

  /** The snapshot that a recorded digest identifies. */
  function SnapshotOf(digest: Digest): Snapshot {
    Snapshot(map p | p in digest.rows :: digest.rows[p].hash.preimage)
  }

  lemma SnapshotOfDigest(snapshot: Snapshot)
    ensures SnapshotOf(ComputeDigest(snapshot)) == snapshot
  {
    assert SnapshotOf(ComputeDigest(snapshot)).files == snapshot.files;
  }

  /** A full store is the cold build of the snapshot of its digest. */
  ghost predicate FullMatches(tools: Tools, row: Generation, store: Store) {
    BuiltFrom(tools(row.compatibility), row.compatibility, store, SnapshotOf(row.digest))
  }

  /** An overlay store, merged over its base's store, is the cold build of the snapshot of its digest. */
  ghost predicate OverlayMatches(tools: Tools, row: Generation, store: Store, base: Store) {
    var t, snapshot := tools(row.compatibility), SnapshotOf(row.digest);
    && store.index.Some? && store.overlay.Some? && base.index.Some?
    && MergedIndex(base.index.value, Members(store.overlay.value.tombstones), store.index.value) == ColdIndex(t, snapshot.files)
    && store.overlay.value.files == ColdFiles(t, snapshot.files)
  }

  /** The store of a generation, together with that of its full base, is what its row says. */
  ghost predicate Matches(tools: Tools, w: World, row: Generation, store: Store) {
    if row.kind.Full? then row.base.None? && FullMatches(tools, row, store)
    else
      && row.base.Some? && OnDisk(w, row.base.value) && w.db.generations[row.base.value].kind.Full?
      && OverlayMatches(tools, row, store, w.final[row.base.value].store)
  }

  ghost predicate ReadyMatches(tools: Tools, w: World) {
    forall g <- w.db.generations | OnDisk(w, g) :: Matches(tools, w, w.db.generations[g], w.final[g].store)
  }

  /** Wherever the directory of a staging generation is, it holds what its row says. */
  ghost predicate DirMatches(tools: Tools, w: World, g: Uuid) {
    g in w.db.generations ==>
      && (g in w.temp ==> Matches(tools, w, w.db.generations[g], w.temp[g].store))
      && (g in w.final ==> Matches(tools, w, w.db.generations[g], w.final[g].store))
  }

  ghost predicate Publishable(tools: Tools, w: World, operation: Uuid, g: Uuid) {
    IsActive(w.db, operation) && IsStaging(w.db, g) ==> DirMatches(tools, w, g)
  }

  ghost predicate PublicationsOk(tools: Tools, w: World) {
    forall c <- w.calls | w.calls[c].Publishing? :: Publishable(tools, w, w.calls[c].operation, w.calls[c].generation)
  }

  // ---- Builders --------------------------------------------------------------------------------

  /** A generation that the operation has pinned. */
  predicate Pinned(w: World, o: Uuid, id: Uuid) {
    (o, id) in w.db.pins && id in w.db.generations
  }

  ghost predicate HandedOut(w: World, o: Uuid, given: Option<(Uuid, Generation)>) {
    given.Some? ==> Pinned(w, o, given.value.0) && w.db.generations[given.value.0] == given.value.1
  }

  ghost predicate TargetOk(w: World, b: Builder, target: Target) {
    match target
    case FullTarget(previous) =>
      previous.Some? ==>
        && Pinned(w, b.operation, previous.value)
        && w.db.generations[previous.value].kind.Full?
        && w.db.generations[previous.value].compatibility == b.compatibility
    case OverlayTarget(base) =>
      && Pinned(w, b.operation, base)
      && w.db.generations[base].kind.Full?
      && w.db.generations[base].compatibility == b.compatibility
  }

  ghost predicate PlanOk(w: World, b: Builder, target: Target, snapshot: Snapshot, plan: Plan) {
    match target
    case FullTarget(previous) =>
      && plan.FullPlan?
      && IsDiff(plan.full.diff, PreviousFiles(plan.full), Hashes(snapshot.files))
      && (previous.Some? <==> plan.full.previous.Some?)
      && (previous.Some? ==> ReadStore(w, previous.value).manifest == Some(plan.full.previous.value.manifest))
    case OverlayTarget(base) =>
      && plan.OverPlan? && plan.over.baseId == base
      && ReadStore(w, base).manifest == Some(plan.over.baseManifest)
      && PlannedOver(plan.over, base, plan.over.baseManifest, snapshot)
  }

  /** The row that the builder inserted, as far as it is immutable. */
  predicate RowOk(w: World, b: Builder, target: Target, snapshot: Snapshot, g: Uuid) {
    g in w.db.generations ==>
      var row := w.db.generations[g];
      && row.owner == b.operation && row.compatibility == b.compatibility && row.digest == ComputeDigest(snapshot)
      && match target
         case FullTarget(_) => row.kind.Full? && row.base.None?
         case OverlayTarget(base) => row.kind.Overlay? && row.base == Some(base)
  }

  /** No publication of `g` has been entered. */
  ghost predicate Unpublished(w: World, g: Uuid) {
    Issued(w, g) && forall c <- w.calls | w.calls[c].Publishing? :: w.calls[c].generation != g
  }

  function Unentered(stage: Stage): Option<Uuid> {
    if stage.Begun? || stage.Built? then Some(stage.generation) else None
  }

  ghost predicate BuilderOk(tools: Tools, w: World, b: Builder) {
    && b.operation in w.db.operations
    && match b.stage
       case Started => true
       case Acquiring(own) =>
         IsActive(w.db, b.operation) ==> HandedOut(w, b.operation, own.current) && HandedOut(w, b.operation, own.base)
       case Decided(target) => IsActive(w.db, b.operation) ==> TargetOk(w, b, target)
       case Planned(target, snapshot, plan) =>
         IsActive(w.db, b.operation) ==> TargetOk(w, b, target) && PlanOk(w, b, target, snapshot, plan)
       case Begun(target, snapshot, plan, g, _) =>
         && Unpublished(w, g) && RowOk(w, b, target, snapshot, g)
         && (IsActive(w.db, b.operation) ==> TargetOk(w, b, target) && PlanOk(w, b, target, snapshot, plan))
         && g !in w.final
       case Built(target, snapshot, plan, g) =>
         Unpublished(w, g) && RowOk(w, b, target, snapshot, g) && Publishable(tools, w, b.operation, g)
       case Publishes(_, _, _, _, _) => true
  }

  ghost predicate BuildersApart(life: Life) {
    forall a, b | a in life.builders && b in life.builders && a != b
                  && Unentered(life.builders[a].stage).Some? && Unentered(life.builders[b].stage).Some? ::
      Unentered(life.builders[a].stage) != Unentered(life.builders[b].stage)
  }

  ghost predicate BuildersOk(tools: Tools, life: Life) {
    (forall b <- life.builders :: BuilderOk(tools, life.world, life.builders[b])) && BuildersApart(life)
  }

  ghost predicate LifeInv(tools: Tools, life: Life) {
    && Inv(life.world)
    && ReadyMatches(tools, life.world)
    && PublicationsOk(tools, life.world)
    && BuildersOk(tools, life)
  }
}
