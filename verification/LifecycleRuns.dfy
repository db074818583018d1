/**
 Whole builds from their first step: what each kind of build makes current when nobody comes between, and when there
 is nothing to build.
 */
module LifecycleRuns {
  import opened Wrappers
  import opened Contracts
  import opened StateModel
  import opened StateInvariant
  import opened Protocol
  import opened ProtocolInvariant
  import opened Lifecycle
  import opened LifecycleInvariant
  import opened LifecycleSafety

  // ---- Runs ------------------------------------------------------------------------------------

  lemma {:induction false} LifeRunAppend(tools: Tools, life: Life, a: seq<LifeEvent>, b: seq<LifeEvent>)
    ensures LifeRun(tools, life, a + b) == LifeRun(tools, LifeRun(tools, life, a), b)
    decreases a
  {
    hide LifeStep;
    if a == [] {
      assert a + b == b;
    } else {
      assert (a + b)[0] == a[0] && (a + b)[1..] == a[1..] + b;
      LifeRunAppend(tools, LifeStep(tools, life, a[0]), a[1..], b);
    }
  }

  lemma LifeRunOne(tools: Tools, life: Life, e: LifeEvent)
    ensures LifeRun(tools, life, [e]) == LifeStep(tools, life, e)
  {
    hide LifeStep;
    assert [e][1..] == [];
  }

  // ---- Until the target is decided -------------------------------------------------------------

  /** The rows of generations and current pointers are those of `a`, and the operation is the checkout's active writer. */
  ghost predicate Claimed(a: World, b: World, checkout: Key, o: Uuid) {
    && b == a.(db := b.db) && b.db.generations == a.db.generations && b.db.current == a.db.current
    && IsActive(b.db, o) && HoldsWriter(b.db, checkout, o)
  }

  /** A builder has just been started, or has learned what it needs, and is alone at work. */
  ghost predicate Stands(tools: Tools, start: World, life: Life, b: nat, o: Uuid, request: Request, c: Compatibility, stage: Stage) {
    && LifeInv(tools, life) && At(life, b)
    && life.builders[b] == Builder(o, request, c, stage)
    && Claimed(start, life.world, request.checkout, o)
  }

  /** Nobody writes to the checkout or edits its enrollment, and the native slot is free. */
  predicate MayStart(life: Life, b: nat, o: Uuid, request: Request) {
    && !At(life, b) && o !in life.world.db.operations
    && request.checkout !in life.world.db.writers && request.checkout !in life.world.db.enrollments && life.world.db.native.None?
  }

  lemma Starts(tools: Tools, life: Life, b: nat, o: Uuid, request: Request, c: Compatibility, pid: nat, now: nat)
    requires ToolsOk(tools) && LifeInv(tools, life) && MayStart(life, b, o, request)
    ensures Stands(tools, life.world, LifeStep(tools, life, Start(b, o, request, c, pid, now)), b, o, request, c, Started)
  {
    hide LifeInv, ToolsOk, LifeStep;
    LifeStepKeeps(tools, life, Start(b, o, request, c, pid, now));
    StartStep(tools, life, b, o, request, c, pid, now);
  }

  lemma StartStep(tools: Tools, life: Life, b: nat, o: Uuid, request: Request, c: Compatibility, pid: nat, now: nat)
    requires MayStart(life, b, o, request)
    ensures var next := LifeStep(tools, life, Start(b, o, request, c, pid, now));
            && next.builders == life.builders[b := Builder(o, request, c, Started)]
            && Claimed(life.world, next.world, request.checkout, o)
  {
    hide StepLate, StepDecide, StepPublish, StepPrune, StepGeneration, PlanFor;
    var opening := OperationInput(KindName(request.kind), KindName(request.kind), Some(request.checkout), true, true);
    assert StateModel.BeginOperation(life.world.db, o, opening, pid, now).Ok?;
  }

  /** What acquiring the current generation of the checkout hands out. */
  ghost predicate Owns(w: World, checkout: Key, own: Acquired) {
    if checkout !in w.db.current then own == Acquired(None, None)
    else
      var id := w.db.current[checkout];
      && id in w.db.generations && own.current == Some((id, w.db.generations[id]))
      && own.base == match w.db.generations[id].base
                     case None => None
                     case Some(base) => if base in w.db.generations then Some((base, w.db.generations[base])) else None
  }

  lemma Acquires(tools: Tools, start: World, life: Life, b: nat, o: Uuid, request: Request, c: Compatibility) returns (own: Acquired)
    requires ToolsOk(tools) && Stands(tools, start, life, b, o, request, c, Started)
    ensures Owns(start, request.checkout, own)
    ensures Stands(tools, start, LifeStep(tools, life, Acquire(b)), b, o, request, c, Acquiring(own))
  {
    hide LifeInv, ToolsOk, LifeStep, StateModel.AcquireCurrent, Inv, BuilderOk;
    LifeStepKeeps(tools, life, Acquire(b));
    InvOf(tools, life);
    AcquiresRows(life.world, o, request.checkout);
    own := StateModel.AcquireCurrent(life.world.db, o, request.checkout).value.1;
    AcquireStep(tools, life, b);
  }

  lemma AcquireStep(tools: Tools, life: Life, b: nat)
    requires At(life, b) && life.builders[b].stage.Started?
    requires StateModel.AcquireCurrent(life.world.db, life.builders[b].operation, life.builders[b].request.checkout).Ok?
    ensures var (db, own) := StateModel.AcquireCurrent(life.world.db, life.builders[b].operation, life.builders[b].request.checkout).value;
            LifeStep(tools, life, Acquire(b)) == Move(life.(world := life.world.(db := db)), b, Acquiring(own))
  {
    hide StepLate, StepDecide, StateModel.AcquireCurrent, PlanFor;
  }

  lemma AcquiresRows(w: World, o: Uuid, checkout: Key)
    requires Inv(w) && IsActive(w.db, o)
    ensures StateModel.AcquireCurrent(w.db, o, checkout).Ok?
    ensures var (db, own) := StateModel.AcquireCurrent(w.db, o, checkout).value;
            Owns(w, checkout, own) && db == w.db.(pins := db.pins)
  {
    assert CurrentOk(w.db) && BasesOk(w.db);
  }

  /** A first build, or a build from nothing because it was asked for. */
  predicate Anew(w: World, request: Request) {
    request.kind.Reindex? || (request.kind.Build? && request.checkout !in w.db.current)
  }

  /** The primary checkout that a worktree names is one: of the same repository and another checkout. */
  predicate NamesPrimary(request: Request) {
    && !request.primary && request.over.Some? && request.over.value.primary
    && request.over.value.repo == request.repo && request.over.value.checkout != request.checkout
  }

  /** The current generation of a checkout is a full one of the repository. */
  predicate FullCurrent(w: World, checkout: Key, repo: Key, id: Uuid) {
    && checkout in w.db.current && w.db.current[checkout] == id && id in w.db.generations
    && w.db.generations[id].kind.Full? && w.db.generations[id].repo == repo
  }

  /** A full generation is to be built from nothing. */
  predicate FullIsDue(w: World, request: Request, c: Compatibility) {
    && Anew(w, request)
    && (|| request.primary || request.over.None?
        || (NamesPrimary(request)
            && var over := request.over.value.checkout;
               over !in w.db.current
               || (FullCurrent(w, over, request.repo, w.db.current[over]) && w.db.generations[w.db.current[over]].compatibility != c)))
  }

  /** An overlay over the current generation of the primary is to be built. */
  predicate OverlayIsDue(w: World, request: Request, c: Compatibility, base: Uuid) {
    && Anew(w, request) && NamesPrimary(request)
    && FullCurrent(w, request.over.value.checkout, request.repo, base) && w.db.generations[base].compatibility == c
  }

  /** The current generation, a full and compatible one, is to be updated. */
  predicate UpdateIsDue(w: World, request: Request, c: Compatibility, id: Uuid) {
    && request.kind.Update? && request.checkout in w.db.current && w.db.current[request.checkout] == id
    && id in w.db.generations && w.db.generations[id].kind.Full? && w.db.generations[id].compatibility == c
  }

  /** The current generation is an overlay, and its base still fits. */
  predicate OverlayUpdateIsDue(w: World, request: Request, c: Compatibility, base: Uuid) {
    && request.kind.Update? && !request.primary && request.checkout in w.db.current
    && var id := w.db.current[request.checkout];
       && id in w.db.generations && w.db.generations[id].kind.Overlay? && w.db.generations[id].base == Some(base)
       && base in w.db.generations && w.db.generations[base].kind.Full?
       && w.db.generations[base].repo == request.repo && w.db.generations[base].compatibility == c
  }

  predicate Due(w: World, request: Request, c: Compatibility, target: Target) {
    match target
    case FullTarget(None) => FullIsDue(w, request, c)
    case FullTarget(Some(id)) => UpdateIsDue(w, request, c, id)
    case OverlayTarget(base) => OverlayIsDue(w, request, c, base) || OverlayUpdateIsDue(w, request, c, base)
  }

  lemma DecideStep(tools: Tools, life: Life, b: nat)
    requires At(life, b) && life.builders[b].stage.Acquiring?
    ensures LifeStep(tools, life, Decide(b)) == StepDecide(life, b)
  {
    hide StepLate, StepDecide, PlanFor;
  }

  lemma Decides(tools: Tools, start: World, life: Life, b: nat, o: Uuid, request: Request, c: Compatibility, own: Acquired, target: Target)
    requires ToolsOk(tools) && Stands(tools, start, life, b, o, request, c, Acquiring(own)) && Owns(start, request.checkout, own)
    requires Due(start, request, c, target)
    ensures Stands(tools, start, LifeStep(tools, life, Decide(b)), b, o, request, c, Decided(target))
  {
    hide LifeInv, ToolsOk, LifeStep, Inv, BuilderOk;
    LifeStepKeeps(tools, life, Decide(b));
    InvOf(tools, life);
    DecideStep(tools, life, b);
    if request.over.Some? { AcquiresRows(life.world, o, request.over.value.checkout); }
    hide StateModel.AcquireCurrent;
    DecidesAs(start, life, b, request, c, own, target);
  }

  lemma DecidesAs(start: World, life: Life, b: nat, request: Request, c: Compatibility, own: Acquired, target: Target)
    requires At(life, b) && life.builders[b].request == request && life.builders[b].compatibility == c && life.builders[b].stage == Acquiring(own)
    requires Claimed(start, life.world, request.checkout, life.builders[b].operation) && Owns(start, request.checkout, own)
    requires Due(start, request, c, target)
    requires request.over.Some? ==>
               && StateModel.AcquireCurrent(life.world.db, life.builders[b].operation, request.over.value.checkout).Ok?
               && var (db, theirs) := StateModel.AcquireCurrent(life.world.db, life.builders[b].operation, request.over.value.checkout).value;
                  Owns(life.world, request.over.value.checkout, theirs) && db == life.world.db.(pins := db.pins)
    ensures var next := StepDecide(life, b);
            && next.builders == life.builders[b := life.builders[b].(stage := Decided(target))]
            && Claimed(start, next.world, request.checkout, life.builders[b].operation)
  {
    hide StateModel.AcquireCurrent, StepDecide;
    if request.primary || request.kind.Update? || request.over.None? {
      DecidesFromOwn(start, life, b, request, c, own, target);
    } else {
      DecidesFromPrimary(start, life, b, request, c, own, target);
    }
  }

  lemma DecidesFromOwn(start: World, life: Life, b: nat, request: Request, c: Compatibility, own: Acquired, target: Target)
    requires At(life, b) && life.builders[b].request == request && life.builders[b].compatibility == c && life.builders[b].stage == Acquiring(own)
    requires Claimed(start, life.world, request.checkout, life.builders[b].operation) && Owns(start, request.checkout, own)
    requires Due(start, request, c, target) && (request.primary || request.kind.Update? || request.over.None?)
    ensures StepDecide(life, b) == Move(life, b, Decided(target))
  {
    hide StateModel.AcquireCurrent, DecideOver;
  }

  lemma DecidesFromPrimary(start: World, life: Life, b: nat, request: Request, c: Compatibility, own: Acquired, target: Target)
    requires At(life, b) && life.builders[b].request == request && life.builders[b].compatibility == c && life.builders[b].stage == Acquiring(own)
    requires Claimed(start, life.world, request.checkout, life.builders[b].operation) && Owns(start, request.checkout, own)
    requires Due(start, request, c, target) && !request.primary && !request.kind.Update? && request.over.Some?
    requires StateModel.AcquireCurrent(life.world.db, life.builders[b].operation, request.over.value.checkout).Ok?
    requires var (db, theirs) := StateModel.AcquireCurrent(life.world.db, life.builders[b].operation, request.over.value.checkout).value;
             Owns(life.world, request.over.value.checkout, theirs) && db == life.world.db.(pins := db.pins)
    ensures var (db, _) := StateModel.AcquireCurrent(life.world.db, life.builders[b].operation, request.over.value.checkout).value;
            StepDecide(life, b) == Move(life.(world := life.world.(db := db)), b, Decided(target))
  {
    hide StateModel.AcquireCurrent, DecidePrimary, DecideUpdate;
  }
}
