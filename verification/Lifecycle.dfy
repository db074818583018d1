/**
 The build functions as clients of the state protocol. Builders run side by side with every other event of the
 protocol; only builders insert generations, write staging directories and publish.
 */
module Lifecycle {
  import opened Wrappers
  import opened Contracts
  import opened Manifest
  import opened IndexRows
  import opened IndexBuild
  import opened IndexUpdate
  import opened OverlayBuild
  import OverlayValidation
  import opened StateModel
  import opened Protocol

  datatype BuildKind = Build | Update | Reindex

  /** The checkout to build, and the primary checkout that a worktree may build over. */
  datatype Request = Request(checkout: Key, repo: Key, primary: bool, kind: BuildKind, over: Option<Primary>)

  datatype Primary = Primary(checkout: Key, repo: Key, primary: bool)

  datatype Target = FullTarget(previous: Option<Uuid>) | OverlayTarget(base: Uuid)

  datatype Plan = FullPlan(full: BuildPlan) | OverPlan(over: OverlayPlan)

  /** What a builder knows at each point of its run. */
  datatype Stage =
    | Started
    | Acquiring(own: Acquired)
    | Decided(target: Target)
    | Planned(target: Target, snapshot: Snapshot, plan: Plan)
    | Begun(target: Target, snapshot: Snapshot, plan: Plan, generation: Uuid, call: nat)
    | Built(target: Target, snapshot: Snapshot, plan: Plan, generation: Uuid)
    | Publishes(target: Target, snapshot: Snapshot, plan: Plan, generation: Uuid, call: nat)

  /** `compatibility` is that of the model and package found when the operation began. */
  datatype Builder = Builder(operation: Uuid, request: Request, compatibility: Compatibility, stage: Stage)

  datatype Life = Life(world: World, builders: map<nat, Builder>)

  const BIRTH := Life(START, map[])

  datatype LifeEvent =
    | Other(event: Event)
    | Start(builder: nat, id: Uuid, request: Request, compatibility: Compatibility, pid: nat, now: nat)
    | Acquire(builder: nat)
    | Decide(builder: nat)
    | PlanBuild(builder: nat, first: Snapshot, snapshot: Snapshot, diff: ManifestDiff, tombstones: seq<Path>)
    | Begin(builder: nat, id: Uuid, call: nat)
    | Make(builder: nat)
    | Draft(builder: nat, store: Store)
    | Write(builder: nat)
    | Enter(builder: nat, post: Snapshot, bytes: nat, call: nat)
    | Accept(builder: nat)
    | Proceed(builder: nat)
    | Leave(builder: nat)

  /** Events that sessions, recovery, forgetting and pruning may perform at any time. */
  ghost predicate IsOther(e: Event) {
    e.Stop? || IsRows(e) || IsPrune(e)
  }

  function KindName(kind: BuildKind): string {
    match kind
    case Build => "build"
    case Update => "update"
    case Reindex => "reindex"
  }

  // ---- Choosing what to build ------------------------------------------------------------------

  /** `buildPrimary`: always full, cloned from the current full generation when updating. */
  function DecidePrimary(b: Builder, own: Acquired): Option<Target> {
    match b.request.kind
    case Build => if own.current.Some? then None else Some(FullTarget(None))
    case Reindex => Some(FullTarget(None))
    case Update =>
      if own.current.None? then None
      else
        var (id, row) := own.current.value;
        if row.kind.Full? && row.compatibility == b.compatibility then Some(FullTarget(Some(id))) else None
  }

  /** Updating a worktree keeps the kind of its current generation, and an overlay keeps its base. */
  function DecideUpdate(b: Builder, own: Acquired): Option<Target> {
    if own.current.None? then None
    else
      var (id, row) := own.current.value;
      if row.kind.Full? then
        if row.compatibility == b.compatibility then Some(FullTarget(Some(id))) else None
      else if own.base.None? || Some(own.base.value.0) != row.base then None
      else
        var (base, baseRow) := own.base.value;
        if baseRow.kind.Full? && baseRow.repo == b.request.repo && baseRow.compatibility == b.compatibility
        then Some(OverlayTarget(base)) else None
  }

  /** A new worktree generation goes over the primary's current one when that is full and compatible. */
  function DecideOver(b: Builder, primaryCurrent: Option<(Uuid, Generation)>): Option<Target> {
    if primaryCurrent.None? then Some(FullTarget(None))
    else
      var (id, row) := primaryCurrent.value;
      if !row.kind.Full? || row.repo != b.request.repo then None
      else if row.compatibility == b.compatibility then Some(OverlayTarget(id))
      else Some(FullTarget(None))
  }

  predicate PrimaryOk(b: Builder, over: Primary) {
    over.primary && over.repo == b.request.repo && over.checkout != b.request.checkout
  }

  // ---- Guards ----------------------------------------------------------------------------------

  predicate At(life: Life, b: nat) {
    b in life.builders
  }

  function Drop(life: Life, b: nat): Life {
    life.(builders := life.builders - {b})
  }

  function Move(life: Life, b: nat, stage: Stage): Life
    requires At(life, b)
  {
    life.(builders := life.builders[b := life.builders[b].(stage := stage)])
  }

  /** Acquiring the current generation of `checkout` for the builder's operation. */
  function AcquireFor(life: Life, operation: Uuid, checkout: Key): Result<(World, Acquired), ErrorCode> {
    match StateModel.AcquireCurrent(life.world.db, operation, checkout)
    case Ok((db, acquired)) => Ok((life.world.(db := db), acquired))
    case Err(e) => Err(e)
  }

  function StepDecide(life: Life, b: nat): Life
    requires At(life, b) && life.builders[b].stage.Acquiring?
  {
    var builder := life.builders[b];
    var own := builder.stage.own;
    if builder.request.primary then
      var target := DecidePrimary(builder, own);
      if target.Some? then Move(life, b, Decided(target.value)) else Drop(life, b)
    else if builder.request.kind.Build? && own.current.Some? then Drop(life, b)
    else if builder.request.kind.Update? then
      var target := DecideUpdate(builder, own);
      if target.Some? then Move(life, b, Decided(target.value)) else Drop(life, b)
    else if builder.request.over.None? then Move(life, b, Decided(FullTarget(None)))
    else if !PrimaryOk(builder, builder.request.over.value) then Drop(life, b)
    else
      var acquired := AcquireFor(life, builder.operation, builder.request.over.value.checkout);
      if acquired.Err? then Drop(life, b)
      else
        var target := DecideOver(builder, acquired.value.1.current);
        var next := life.(world := acquired.value.0);
        if target.Some? then Move(next, b, Decided(target.value)) else Drop(next, b)
  }

  /** The store read at `final` under `id`. */
  function ReadStore(w: World, id: Uuid): Store {
    if id in w.final then w.final[id].store else Store(None, None, None)
  }

  /** An update of a primary checkout whose first capture has the recorded digest stops before any generation work. */
  predicate Unmoved(w: World, builder: Builder, target: Target, first: Snapshot) {
    && builder.request.primary && target.FullTarget? && target.previous.Some?
    && target.previous.value in w.db.generations && w.db.generations[target.previous.value].digest == ComputeDigest(first)
  }

  /** The plan that the planners compute from the stores on disk; `None` when they throw. */
  ghost function PlanFor(w: World, builder: Builder, target: Target, snapshot: Snapshot, diff: ManifestDiff, tombstones: seq<Path>): Option<Plan> {
    match target
    case FullTarget(previous) =>
      if previous.None? then
        if IsDiff(diff, map[], Hashes(snapshot.files)) then Some(FullPlan(BuildPlan(None, diff))) else None
      else
        var store := ReadStore(w, previous.value);
        if store.manifest.None? || !IsDiff(diff, store.manifest.value.files, Hashes(snapshot.files)) then None
        else if BytesOf(snapshot.files, diff.changed) > MAX_CHANGED_BYTES then None
        else Some(FullPlan(BuildPlan(Some(Previous(store.manifest.value, store)), diff)))
    case OverlayTarget(base) =>
      var store := ReadStore(w, base);
      if !StoreOk(store, builder.compatibility) then None
      else
        var plan := OverlayPlan(base, store.manifest.value, diff, tombstones, Snapshot(Restrict(snapshot.files, Members(diff.changed))));
        if PlannedOver(plan, base, store.manifest.value, snapshot) && BytesOf(snapshot.files, diff.changed) <= MAX_CHANGED_BYTES
        then Some(OverPlan(plan)) else None
  }

  /** What the builder writes; an incremental build copies the previous store as it is on disk by now. */
  ghost function OutcomeFor(tools: Compatibility -> Toolchain, w: World, builder: Builder): Result<Store, BuildError>
    requires builder.stage.Begun?
  {
    var t, stage := tools(builder.compatibility), builder.stage;
    match stage.plan
    case OverPlan(plan) => OverlayOutcome(t, plan, builder.compatibility)
    case FullPlan(plan) =>
      if stage.target.FullTarget? && stage.target.previous.Some? && plan.previous.Some? then
        var previous := Previous(plan.previous.value.manifest, ReadStore(w, stage.target.previous.value));
        BuildOutcome(t, BuildPlan(Some(previous), plan.diff), stage.snapshot, builder.compatibility)
      else BuildOutcome(t, plan, stage.snapshot, builder.compatibility)
  }

  function InputFor(builder: Builder): GenerationInput
    requires builder.stage.Planned?
  {
    var stage := builder.stage;
    GenerationInput(builder.operation, builder.request.checkout, builder.request.repo,
                    if stage.target.FullTarget? then Full else Overlay,
                    if stage.target.FullTarget? then None else Some(stage.target.base),
                    builder.compatibility, ComputeDigest(stage.snapshot), false, 0)
  }

  /** The validator handed to `publish`, on the staging directory. */
  ghost predicate ValidatorAccepts(w: World, builder: Builder)
    requires builder.stage.Publishes?
  {
    var stage := builder.stage;
    stage.generation in w.temp &&
    var store := w.temp[stage.generation].store;
    match stage.plan
    case FullPlan(_) => StoreCovers(store, builder.compatibility, stage.snapshot)
    case OverPlan(plan) =>
      OverlayValidation.OverlayBuildOk(store, ReadStore(w, plan.baseId), plan.baseId, builder.compatibility, stage.snapshot, plan.tombstones)
  }

  // ---- One step --------------------------------------------------------------------------------

  /** The event that carries a publication on from its present phase, except that of the validator. */
  function NextEvent(w: World, call: nat): Option<Event> {
    if InPhase(w, call, Opened) then Some(PublishStat(call))
    else if InPhase(w, call, Accepted) then Some(PublishFree(call))
    else if InPhase(w, call, Free) then Some(PublishRecheck(call))
    else if InPhase(w, call, Rechecked) then Some(PublishRename(call))
    else if InPhase(w, call, Renamed) then Some(PublishConfirm(call))
    else if InPhase(w, call, Confirmed) then Some(Event.PublishCommit(call))
    else None
  }

  ghost function StepEarly(life: Life, e: LifeEvent): Life
    requires e.Start? || e.Acquire? || e.Decide? || e.PlanBuild?
  {
    var w := life.world;
    match e
    case Start(b, id, request, compatibility, pid, now) =>
      if At(life, b) || id in w.db.operations then life
      else
        var opening := OperationInput(KindName(request.kind), KindName(request.kind), Some(request.checkout), true, true);
        if StateModel.BeginOperation(w.db, id, opening, pid, now).Err? then life
        else Life(Step(w, Event.BeginOperation(id, opening, pid, now)),
                  life.builders[b := Builder(id, request, compatibility, Started)])
    case Acquire(b) =>
      if !At(life, b) || !life.builders[b].stage.Started? then life
      else
        var acquired := AcquireFor(life, life.builders[b].operation, life.builders[b].request.checkout);
        if acquired.Err? then Drop(life, b) else Move(life.(world := acquired.value.0), b, Acquiring(acquired.value.1))
    case Decide(b) =>
      if !At(life, b) || !life.builders[b].stage.Acquiring? then life else StepDecide(life, b)
    case PlanBuild(b, first, snapshot, diff, tombstones) =>
      // The build captures again, and what it captures may be the recorded snapshot after all.
      if !At(life, b) || !life.builders[b].stage.Decided? then life
      else if Unmoved(w, life.builders[b], life.builders[b].stage.target, first) then Drop(life, b)
      else
        var target := life.builders[b].stage.target;
        var plan := PlanFor(w, life.builders[b], target, snapshot, diff, tombstones);
        if plan.Some? then Move(life, b, Planned(target, snapshot, plan.value)) else life
  }

  ghost function StepLate(tools: Compatibility -> Toolchain, life: Life, e: LifeEvent): Life
    requires e.Begin? || e.Make? || e.Draft? || e.Write? || e.Enter? || e.Accept? || e.Proceed?
  {
    var w := life.world;
    if !At(life, e.builder) then life
    else
      var b, builder := e.builder, life.builders[e.builder];
      match e
      case Begin(_, id, call) =>
        if !builder.stage.Planned? || call in w.calls || id in w.issued then life
        else if StateModel.BeginGeneration(w.db, id, InputFor(builder)).Err? then Drop(life, b)
        else
          Move(life.(world := Step(w, Event.BeginGeneration(call, id, InputFor(builder)))), b,
               Begun(builder.stage.target, builder.stage.snapshot, builder.stage.plan, id, call))
      case Make(_) =>
        if !builder.stage.Begun? || !BuiltBy(w, builder, Making(builder.stage.generation)) then life
        else life.(world := Step(w, MakeTemp(builder.stage.call)))
      case Draft(_, store) =>
        if !builder.stage.Begun? || !BuiltBy(w, builder, Writing(builder.stage.generation)) then life
        else life.(world := Step(w, WriteTemp(builder.stage.call, store, false)))
      case Write(_) =>
        if !builder.stage.Begun? then life
        else
          var outcome := OutcomeFor(tools, w, builder);
          if outcome.Err? || !BuiltBy(w, builder, Writing(builder.stage.generation)) then Drop(life, b)
          else
            Move(life.(world := Step(w, WriteTemp(builder.stage.call, outcome.value, true))), b,
                 Built(builder.stage.target, builder.stage.snapshot, builder.stage.plan, builder.stage.generation))
      case Enter(_, post, bytes, call) =>
        if !builder.stage.Built? || call in w.calls then life
        else
          var moved := ComputeDigest(post) != ComputeDigest(builder.stage.snapshot);
          var entered := Step(w, PublishEnter(call, builder.operation, builder.stage.generation, Some(Finalize(moved, bytes))));
          Move(life.(world := entered), b,
               Publishes(builder.stage.target, builder.stage.snapshot, builder.stage.plan, builder.stage.generation, call))
      case Accept(_) =>
        if !builder.stage.Publishes? || !PublishedBy(w, builder) then life
        else if ValidatorAccepts(w, builder) then life.(world := Step(w, PublishAccept(builder.stage.call)))
        else life.(world := Step(w, Stop(builder.stage.call)))
      case Proceed(_) =>
        if !builder.stage.Publishes? || !PublishedBy(w, builder) then life
        else
          var next := NextEvent(w, builder.stage.call);
          if next.None? then life else life.(world := Step(w, next.value))
  }

  /** The call number still stands for this builder's making or writing. */
  predicate BuiltBy(w: World, builder: Builder, call: Call)
    requires builder.stage.Begun?
  {
    builder.stage.call in w.calls && w.calls[builder.stage.call] == call
  }

  /** The call number still stands for this builder's publication. */
  predicate PublishedBy(w: World, builder: Builder)
    requires builder.stage.Publishes?
  {
    && builder.stage.call in w.calls && w.calls[builder.stage.call].Publishing?
    && w.calls[builder.stage.call].generation == builder.stage.generation
  }

  ghost function LifeStep(tools: Compatibility -> Toolchain, life: Life, e: LifeEvent): Life {
    if e.Other? then (if IsOther(e.event) then life.(world := Step(life.world, e.event)) else life)
    else if e.Leave? then Drop(life, e.builder)
    else if e.Start? || e.Acquire? || e.Decide? || e.PlanBuild? then StepEarly(life, e)
    else StepLate(tools, life, e)
  }

  ghost function LifeRun(tools: Compatibility -> Toolchain, life: Life, events: seq<LifeEvent>): Life
    decreases events
  {
    if events == [] then life else LifeRun(tools, LifeStep(tools, life, events[0]), events[1..])
  }
}
