/**
 The end-to-end result: in every state that builds, searches, recoveries, forgets and prunes can reach, the
 current index of a checkout is the cold build of the snapshot that its row records.
 */
module LifecycleSafety {
  import opened Wrappers
  import opened Contracts
  import opened Manifest
  import opened IndexRows
  import opened IndexBuild
  import opened IndexUpdate
  import opened OverlayBuild
  import opened StateModel
  import opened StateInvariant
  import opened Protocol
  import opened ProtocolInvariant
  import opened ProtocolSafety
  import opened Lifecycle
  import opened LifecycleInvariant

  ghost predicate ToolsOk(tools: Tools) {
    forall c :: WellBehaved(tools(c))
  }

  // ---- What a world step keeps -----------------------------------------------------------------

  /** The directories of `g` at most disappear. */
  ghost predicate Spares(a: World, b: World, g: Uuid) {
    && (g in b.temp ==> g in a.temp && b.temp[g] == a.temp[g])
    && (g in b.final ==> g in a.final && b.final[g] == a.final[g])
  }

  /** Every publication of `g` was already under way. */
  ghost predicate NoNewPublication(a: World, b: World, g: Uuid) {
    forall c <- b.calls | b.calls[c].Publishing? && b.calls[c].generation == g ::
      c in a.calls && a.calls[c].Publishing? && a.calls[c].generation == g && a.calls[c].operation == b.calls[c].operation
  }

  ghost predicate Steps(a: World, b: World) {
    Inv(a) && Inv(b) && Follows(a, b)
  }

  lemma BaseKept(a: World, b: World, g: Uuid)
    requires Steps(a, b) && g in a.db.generations && g in b.db.generations
    ensures SameIdentity(a.db.generations[g], b.db.generations[g])
    ensures var base := a.db.generations[g].base;
            base.Some? && OnDisk(a, base.value) ==>
              OnDisk(b, base.value) && b.final[base.value] == a.final[base.value]
              && b.db.generations[base.value].kind == a.db.generations[base.value].kind
  {
    assert BasesOk(b.db) && DirsOk(b);
    if a.db.generations[g].base.Some? {
      assert IsReady(b.db, b.db.generations[g].base.value);
    }
  }

  lemma MatchesKept(tools: Tools, a: World, b: World, g: Uuid, store: Store)
    requires Steps(a, b) && g in a.db.generations && g in b.db.generations
    requires Matches(tools, a, a.db.generations[g], store)
    ensures Matches(tools, b, b.db.generations[g], store)
  {
    hide BuiltFrom, ColdIndex, ColdFiles, MergedIndex, Steps, OnDisk, Members;
    BaseKept(a, b, g);
  }

  lemma PublishableKept(tools: Tools, a: World, b: World, o: Uuid, g: Uuid)
    requires Steps(a, b) && Issued(a, g) && o in a.db.operations && Publishable(tools, a, o, g)
    requires Spares(a, b, g)
    ensures Publishable(tools, b, o, g)
  {
    hide Matches, Inv;
    if IsActive(b.db, o) && IsStaging(b.db, g) {
      assert g in a.db.generations && IsStaging(a.db, g) && IsActive(a.db, o);
      if g in b.temp { MatchesKept(tools, a, b, g, a.temp[g].store); }
      if g in b.final { MatchesKept(tools, a, b, g, a.final[g].store); }
    }
  }

  lemma PinnedKept(a: World, b: World, o: Uuid, id: Uuid)
    requires Steps(a, b) && o in a.db.operations && IsActive(b.db, o) && (IsActive(a.db, o) ==> Pinned(a, o, id))
    ensures IsActive(a.db, o)
    ensures Pinned(b, o, id) && b.db.generations[id] == a.db.generations[id]
    ensures ReadStore(b, id) == ReadStore(a, id) && OnDisk(a, id) && OnDisk(b, id)
  {
    assert PinsOk(a.db) && PinsOk(b.db) && DirsOk(a) && DirsOk(b);
    assert IsActive(a.db, o);
    assert (o, id) in b.db.pins;
    assert IsReady(a.db, id) && IsReady(b.db, id);
  }

  lemma TargetKept(a: World, b: World, builder: Builder, target: Target)
    requires Steps(a, b) && builder.operation in a.db.operations && IsActive(b.db, builder.operation)
    requires IsActive(a.db, builder.operation) ==> TargetOk(a, builder, target)
    ensures IsActive(a.db, builder.operation) && TargetOk(b, builder, target)
    ensures forall snapshot, plan :: PlanOk(a, builder, target, snapshot, plan) ==> PlanOk(b, builder, target, snapshot, plan)
  {
    hide Inv, IsDiff, PlannedOver, Pinned, ReadStore;
    if target.OverlayTarget? {
      PinnedKept(a, b, builder.operation, target.base);
    } else if target.previous.Some? {
      PinnedKept(a, b, builder.operation, target.previous.value);
    }
  }

  lemma RowKept(a: World, b: World, builder: Builder, target: Target, snapshot: Snapshot, g: Uuid)
    requires Steps(a, b) && Issued(a, g) && RowOk(a, builder, target, snapshot, g)
    ensures RowOk(b, builder, target, snapshot, g)
  {
    hide Inv;
  }

  /** A builder's knowledge survives any step that leaves its own generation alone. */
  lemma BuilderKept(tools: Tools, a: World, b: World, builder: Builder)
    requires Steps(a, b) && BuilderOk(tools, a, builder)
    requires Unentered(builder.stage).Some? ==>
               Spares(a, b, Unentered(builder.stage).value) && NoNewPublication(a, b, Unentered(builder.stage).value)
    ensures BuilderOk(tools, b, builder)
  {
    hide Inv, TargetOk, PlanOk, Publishable, RowOk, Pinned;
    assert builder.operation in b.db.operations;
    match builder.stage
    case Started =>
    case Acquiring(own) =>
      if IsActive(b.db, builder.operation) {
        if own.current.Some? { PinnedKept(a, b, builder.operation, own.current.value.0); }
        if own.base.Some? { PinnedKept(a, b, builder.operation, own.base.value.0); }
      }
    case Decided(target) =>
      if IsActive(b.db, builder.operation) { TargetKept(a, b, builder, target); }
    case Planned(target, snapshot, plan) =>
      if IsActive(b.db, builder.operation) { TargetKept(a, b, builder, target); }
    case Begun(target, snapshot, plan, g, _) =>
      if IsActive(b.db, builder.operation) { TargetKept(a, b, builder, target); }
      RowKept(a, b, builder, target, snapshot, g);
    case Built(target, snapshot, plan, g) =>
      RowKept(a, b, builder, target, snapshot, g);
      PublishableKept(tools, a, b, builder.operation, g);
    case Publishes(_, _, _, _, _) =>
  }

  lemma ReadyKept(tools: Tools, a: World, b: World)
    requires Steps(a, b) && ReadyMatches(tools, a)
    requires forall g <- b.db.generations | IsReady(b.db, g) && !IsReady(a.db, g) :: Matches(tools, b, b.db.generations[g], b.final[g].store)
    ensures ReadyMatches(tools, b)
  {
    hide Matches;
    forall g <- b.db.generations | OnDisk(b, g) ensures Matches(tools, b, b.db.generations[g], b.final[g].store) {
      if IsReady(a.db, g) {
        assert DirsOk(a);
        assert b.final[g] == a.final[g];
        MatchesKept(tools, a, b, g, a.final[g].store);
      }
    }
  }

  lemma PublicationKept(tools: Tools, a: World, b: World, c: nat)
    requires Steps(a, b) && PublicationsOk(tools, a)
    requires c in a.calls && a.calls[c].Publishing?
    requires Spares(a, b, a.calls[c].generation)
    ensures Publishable(tools, b, a.calls[c].operation, a.calls[c].generation)
  {
    hide Publishable, Follows;
    var p := a.calls[c];
    assert CallOk(a, p);
    var g, o := p.generation, p.operation;
    if o in a.db.operations {
      PublishableKept(tools, a, b, o, g);
    } else {
      NotStaging(tools, a, b, o, g, p);
    }
  }

  /** Staging rows have an owner that exists. */
  lemma NotStaging(tools: Tools, a: World, b: World, o: Uuid, g: Uuid, p: Call)
    requires Steps(a, b) && p.Publishing? && CallOk(a, p) && p.generation == g && p.operation == o && o !in a.db.operations
    ensures Publishable(tools, b, o, g)
  {
    assert OwnersOk(a.db);
    assert g !in a.db.generations;
    assert Issued(a, g);
    assert g !in b.db.generations;
  }

  /** Nothing becomes ready, nothing is added to a directory and no publication is entered. */
  ghost predicate Calm(a: World, b: World) {
    && (forall g <- b.db.generations :: IsReady(b.db, g) ==> IsReady(a.db, g))
    && (forall g :: Spares(a, b, g))
    && (forall g :: NoNewPublication(a, b, g))
  }

  ghost predicate Undisturbed(a: World, b: World) {
    Steps(a, b) && Calm(a, b)
  }

  lemma UndisturbedKeeps(tools: Tools, life: Life, b: World)
    requires LifeInv(tools, life) && Undisturbed(life.world, b)
    ensures LifeInv(tools, life.(world := b))
  {
    hide Inv, BuilderOk, Publishable, Matches, Follows, CallOk, Spares;
    var a := life.world;
    ReadyKept(tools, a, b);
    forall c <- b.calls | b.calls[c].Publishing?
      ensures Publishable(tools, b, b.calls[c].operation, b.calls[c].generation)
    {
      assert NoNewPublication(a, b, b.calls[c].generation);
      assert Spares(a, b, a.calls[c].generation);
      PublicationKept(tools, a, b, c);
    }
    forall n <- life.builders ensures BuilderOk(tools, b, life.builders[n]) {
      BuilderKept(tools, a, b, life.builders[n]);
    }
  }

  lemma OtherUndisturbed(w: World, e: Event)
    requires Inv(w) && IsOther(e)
    ensures Undisturbed(w, Step(w, e))
  {
    hide Inv, Follows, Calm, StepPrune, StepRows, StepPublish, StepGeneration;
    OneStep(w, e);
    if IsRows(e) {
      RowsCalm(w, e);
    } else if IsPrune(e) {
      PruneCalm(w, e);
    } else {
      StopCalm(w, e.call);
    }
  }

  lemma StopCalm(w: World, call: nat)
    ensures Calm(w, End(w, call))
  {
  }

  lemma RowsCalm(w: World, e: Event)
    requires IsRows(e)
    ensures Calm(w, StepRows(w, e))
  {
    var b := StepRows(w, e);
    assert b == w.(db := b.db) && b.db.generations == w.db.generations;
  }

  lemma FewerRowsCalm(w: World, db: Db, removed: seq<Uuid>)
    requires db.generations == Without(w.db.generations, removed)
    ensures Calm(w, w.(db := db))
  {
  }

  lemma CalmTwice(a: World, b: World, c: World)
    requires Calm(a, b) && Calm(b, c)
    ensures Calm(a, c)
  {
    forall g ensures Spares(a, c, g) && NoNewPublication(a, c, g) {
      assert Spares(a, b, g) && Spares(b, c, g) && NoNewPublication(a, b, g) && NoNewPublication(b, c, g);
    }
  }

  lemma PruneDeleteCalm(w: World, call: nat)
    requires Inv(w)
    ensures Calm(w, StepPrune(w, Event.PruneDelete(call)))
  {
    if call in w.calls && w.calls[call].Pruning? {
      assert CallOk(w, w.calls[call]);
      DeletedRows(w.db, w.calls[call].removed);
      hide Inv, Consistent, StateModel.PruneDelete, Without, Calm;
      var db := StateModel.PruneDelete(w.db, w.calls[call].removed).value;
      FewerRowsCalm(w, db, w.calls[call].removed);
      StopCalm(w.(db := db), call);
      CalmTwice(w, w.(db := db), End(w.(db := db), call));
    }
  }

  lemma PruneMarkCalm(w: World, call: nat, order: seq<Uuid>)
    ensures Calm(w, StepPrune(w, Event.PruneMark(call, order)))
  {
  }

  lemma PruneCalm(w: World, e: Event)
    requires Inv(w) && IsPrune(e)
    ensures Calm(w, StepPrune(w, e))
  {
    hide Inv;
    if e.PruneDelete? {
      PruneDeleteCalm(w, e.call);
    } else if e.PruneMark? {
      PruneMarkCalm(w, e.call, e.order);
    } else {
      PruneMovesCalm(w, e);
    }
  }

  lemma PruneMovesCalm(w: World, e: Event)
    requires e.PruneLook? || e.PruneErase? || e.PruneNext?
    ensures Calm(w, StepPrune(w, e))
  {
    assert StepPrune(w, e).db == w.db;
  }

  // ---- Builders come, learn and go -------------------------------------------------------------

  lemma DropKeeps(tools: Tools, life: Life, b: nat)
    requires LifeInv(tools, life)
    ensures LifeInv(tools, Drop(life, b))
  {
    hide Inv, BuilderOk, ReadyMatches, PublicationsOk;
  }

  /** Replacing a builder by one that has no generation of its own in preparation. */
  lemma MoveKeeps(tools: Tools, life: Life, b: nat, builder: Builder)
    requires LifeInv(tools, life) && BuilderOk(tools, life.world, builder)
    requires Unentered(builder.stage).None? || (At(life, b) && Unentered(builder.stage) == Unentered(life.builders[b].stage))
    ensures LifeInv(tools, life.(builders := life.builders[b := builder]))
  {
    hide Inv, BuilderOk, ReadyMatches, PublicationsOk;
  }

  lemma Begins(w: World, id: Uuid, opening: OperationInput, pid: nat, now: nat)
    requires id !in w.db.operations && StateModel.BeginOperation(w.db, id, opening, pid, now).Ok?
    ensures id in Step(w, Event.BeginOperation(id, opening, pid, now)).db.operations
  {
  }

  lemma StartKeeps(tools: Tools, life: Life, e: LifeEvent)
    requires LifeInv(tools, life) && e.Start?
    ensures LifeInv(tools, StepEarly(life, e))
  {
    hide LifeInv, Inv, Undisturbed, StateModel.BeginOperation, Step;
    var opening := OperationInput(KindName(e.request.kind), KindName(e.request.kind), Some(e.request.checkout), true, true);
    if !At(life, e.builder) && e.id !in life.world.db.operations
       && StateModel.BeginOperation(life.world.db, e.id, opening, e.pid, e.now).Ok?
    {
      var event := Event.BeginOperation(e.id, opening, e.pid, e.now);
      Begins(life.world, e.id, opening, e.pid, e.now);
      InvOf(tools, life);
      OtherUndisturbed(life.world, event);
      UndisturbedKeeps(tools, life, Step(life.world, event));
      MoveKeeps(tools, life.(world := Step(life.world, event)), e.builder, Builder(e.id, e.request, e.compatibility, Started));
    }
  }

  lemma InvOf(tools: Tools, life: Life)
    requires LifeInv(tools, life)
    ensures Inv(life.world)
    ensures forall b <- life.builders :: BuilderOk(tools, life.world, life.builders[b])
  {
    hide Inv, BuilderOk;
  }

  /** What a successful acquisition teaches the builder that made it. */
  lemma AcquireTeaches(tools: Tools, life: Life, o: Uuid, checkout: Key)
    requires LifeInv(tools, life) && AcquireFor(life, o, checkout).Ok?
    ensures var (w, acquired) := AcquireFor(life, o, checkout).value;
            && LifeInv(tools, life.(world := w))
            && IsActive(w.db, o)
            && HandedOut(w, o, acquired.current) && HandedOut(w, o, acquired.base)
            && (acquired.base.Some? ==> acquired.current.Some?)
  {
    hide LifeInv, Inv;
    InvOf(tools, life);
    OtherUndisturbed(life.world, Event.AcquireCurrent(o, checkout));
    AcquireCurrentPins(life.world, o, checkout);
    UndisturbedKeeps(tools, life, Step(life.world, Event.AcquireCurrent(o, checkout)));
  }

  lemma AcquireKeeps(tools: Tools, life: Life, b: nat)
    requires LifeInv(tools, life)
    ensures LifeInv(tools, StepEarly(life, Acquire(b)))
  {
    hide LifeInv;
    if At(life, b) && life.builders[b].stage.Started? {
      var builder := life.builders[b];
      var acquired := AcquireFor(life, builder.operation, builder.request.checkout);
      if acquired.Err? {
        DropKeeps(tools, life, b);
      } else {
        AcquireTeaches(tools, life, builder.operation, builder.request.checkout);
        MoveKeeps(tools, life.(world := acquired.value.0), b, builder.(stage := Acquiring(acquired.value.1)));
      }
    }
  }

  lemma DecideOwnTarget(w: World, b: Builder, own: Acquired, target: Target)
    requires HandedOut(w, b.operation, own.current) && HandedOut(w, b.operation, own.base)
    requires DecidePrimary(b, own) == Some(target) || DecideUpdate(b, own) == Some(target)
    ensures TargetOk(w, b, target)
  {
  }

  lemma DecideKeeps(tools: Tools, life: Life, b: nat)
    requires LifeInv(tools, life) && At(life, b) && life.builders[b].stage.Acquiring?
    ensures LifeInv(tools, StepDecide(life, b))
  {
    hide LifeInv, Inv;
    InvOf(tools, life);
    DropKeeps(tools, life, b);
    var builder := life.builders[b];
    var own := builder.stage.own;
    var w := life.world;
    if builder.request.primary || builder.request.kind.Update? {
      var target := if builder.request.primary then DecidePrimary(builder, own) else DecideUpdate(builder, own);
      if target.Some? {
        if IsActive(w.db, builder.operation) { DecideOwnTarget(w, builder, own, target.value); }
        MoveKeeps(tools, life, b, builder.(stage := Decided(target.value)));
      }
    } else if builder.request.over.None? {
      MoveKeeps(tools, life, b, builder.(stage := Decided(FullTarget(None))));
    } else if PrimaryOk(builder, builder.request.over.value) {
      var checkout := builder.request.over.value.checkout;
      var acquired := AcquireFor(life, builder.operation, checkout);
      if acquired.Ok? {
        AcquireTeaches(tools, life, builder.operation, checkout);
        var next := life.(world := acquired.value.0);
        DropKeeps(tools, next, b);
        var target := DecideOver(builder, acquired.value.1.current);
        if target.Some? {
          assert TargetOk(next.world, builder, target.value);
          MoveKeeps(tools, next, b, builder.(stage := Decided(target.value)));
        }
      }
    }
  }

  lemma PlanKeeps(tools: Tools, life: Life, e: LifeEvent)
    requires LifeInv(tools, life) && e.PlanBuild?
    ensures LifeInv(tools, StepEarly(life, e))
  {
    hide LifeInv, IsDiff, StoreOk, PlannedOver, Pinned, PlanFor, Inv, Unmoved;
    InvOf(tools, life);
    DropKeeps(tools, life, e.builder);
    if At(life, e.builder) && life.builders[e.builder].stage.Decided? {
      var builder := life.builders[e.builder];
      var target := builder.stage.target;
      var plan := PlanFor(life.world, builder, target, e.snapshot, e.diff, e.tombstones);
      if plan.Some? {
        PlannedIsOk(life.world, builder, target, e.snapshot, e.diff, e.tombstones);
        MoveKeeps(tools, life, e.builder, builder.(stage := Planned(target, e.snapshot, plan.value)));
      }
    }
  }

  lemma PlannedIsOk(w: World, b: Builder, target: Target, snapshot: Snapshot, diff: ManifestDiff, tombstones: seq<Path>)
    requires PlanFor(w, b, target, snapshot, diff, tombstones).Some?
    ensures PlanOk(w, b, target, snapshot, PlanFor(w, b, target, snapshot, diff, tombstones).value)
  {
    hide IsDiff, Total;
  }

  // ---- From the row to the staged store --------------------------------------------------------

  lemma BeginKeeps(tools: Tools, life: Life, e: LifeEvent)
    requires LifeInv(tools, life) && e.Begin? && At(life, e.builder)
    ensures LifeInv(tools, StepLate(tools, life, e))
  {
    hide LifeInv, Inv, BuilderOk, Step;
    var w, builder := life.world, life.builders[e.builder];
    if builder.stage.Planned? && e.call !in w.calls && e.id !in w.issued {
      var input := InputFor(builder);
      if StateModel.BeginGeneration(w.db, e.id, input).Err? {
        DropKeeps(tools, life, e.builder);
      } else {
        InvOf(tools, life);
        var event := Event.BeginGeneration(e.call, e.id, input);
        OneStep(w, event);
        var next := Step(w, event);
        BeginCalm(w, e.call, e.id, input);
        UndisturbedKeeps(tools, life, next);
        NewBuilderOk(tools, w, builder, e.id, e.call);
        var stage := builder.stage;
        NobodyHas(tools, life, e.id);
        InsertApart(tools, life.(world := next), e.builder, builder.(stage := Begun(stage.target, stage.snapshot, stage.plan, e.id, e.call)));
      }
    }
  }

  lemma BeginCalm(w: World, call: nat, id: Uuid, input: GenerationInput)
    requires Inv(w) && call !in w.calls && id !in w.issued && StateModel.BeginGeneration(w.db, id, input).Ok?
    ensures var b := Step(w, Event.BeginGeneration(call, id, input));
            && Calm(w, b)
            && b == w.(db := StateModel.BeginGeneration(w.db, id, input).value, calls := w.calls[call := Making(id)], issued := w.issued + [id])
  {
  }

  lemma NewBuilderOk(tools: Tools, w: World, builder: Builder, id: Uuid, call: nat)
    requires Inv(w) && BuilderOk(tools, w, builder) && builder.stage.Planned?
    requires call !in w.calls && id !in w.issued && StateModel.BeginGeneration(w.db, id, InputFor(builder)).Ok?
    requires Steps(w, Step(w, Event.BeginGeneration(call, id, InputFor(builder))))
    ensures var b := Step(w, Event.BeginGeneration(call, id, InputFor(builder)));
            BuilderOk(tools, b, builder.(stage := Begun(builder.stage.target, builder.stage.snapshot, builder.stage.plan, id, call)))
  {
    hide Step, Follows, PlannedOver, IsDiff, Inv, TargetOk, PlanOk, RowOk, Calm;
    var b := Step(w, Event.BeginGeneration(call, id, InputFor(builder)));
    var stage := builder.stage;
    BeginCalm(w, call, id, InputFor(builder));
    if IsActive(b.db, builder.operation) {
      TargetKept(w, b, builder, stage.target);
      SameForBuilder(b, builder, builder.(stage := Begun(stage.target, stage.snapshot, stage.plan, id, call)), stage.target, stage.snapshot, stage.plan);
    }
    FreshIsUnpublished(w, b, call, id);
    InsertedRow(w, builder, id, call);
  }

  /** A builder's target and plan do not depend on its stage. */
  lemma SameForBuilder(w: World, a: Builder, b: Builder, target: Target, snapshot: Snapshot, plan: Plan)
    requires b == a.(stage := b.stage)
    ensures TargetOk(w, a, target) <==> TargetOk(w, b, target)
    ensures PlanOk(w, a, target, snapshot, plan) <==> PlanOk(w, b, target, snapshot, plan)
  {
    hide IsDiff, PlannedOver, Pinned, ReadStore;
  }

  lemma InsertedRow(w: World, builder: Builder, id: Uuid, call: nat)
    requires builder.stage.Planned? && StateModel.BeginGeneration(w.db, id, InputFor(builder)).Ok?
    ensures var db := StateModel.BeginGeneration(w.db, id, InputFor(builder)).value;
            RowOk(w.(db := db, calls := w.calls[call := Making(id)], issued := w.issued + [id]),
                  builder.(stage := Begun(builder.stage.target, builder.stage.snapshot, builder.stage.plan, id, call)),
                  builder.stage.target, builder.stage.snapshot, id)
  {
  }

  lemma FreshIsUnpublished(w: World, b: World, call: nat, id: Uuid)
    requires Inv(w) && id !in w.issued && b.calls == w.calls[call := Making(id)] && b.issued == w.issued + [id] && b.final == w.final
    ensures Unpublished(b, id) && id !in b.final
  {
    assert Issued(b, id);
    forall c <- b.calls | b.calls[c].Publishing? ensures b.calls[c].generation != id {
      assert CallOk(w, w.calls[c]);
    }
    assert IdsOk(w);
  }

  lemma NobodyHas(tools: Tools, life: Life, id: Uuid)
    requires LifeInv(tools, life) && id !in life.world.issued
    ensures forall n <- life.builders :: Unentered(life.builders[n].stage) != Some(id)
  {
    forall n <- life.builders ensures Unentered(life.builders[n].stage) != Some(id) {
      assert BuilderOk(tools, life.world, life.builders[n]);
    }
  }

  lemma InsertApart(tools: Tools, life: Life, b: nat, builder: Builder)
    requires LifeInv(tools, life) && BuilderOk(tools, life.world, builder) && Unentered(builder.stage).Some?
    requires forall n <- life.builders :: Unentered(life.builders[n].stage) != Unentered(builder.stage)
    ensures LifeInv(tools, life.(builders := life.builders[b := builder]))
  {
    hide Inv, BuilderOk, ReadyMatches, PublicationsOk;
  }

  /** A step that touches no directory but that of the generation which builder `b` prepares. */
  lemma OwnStepKeeps(tools: Tools, life: Life, b: nat, g: Uuid, next: World)
    requires LifeInv(tools, life) && At(life, b) && Unentered(life.builders[b].stage) == Some(g)
    requires Steps(life.world, next) && BuilderOk(tools, next, life.builders[b])
    requires next == life.world.(temp := next.temp, calls := next.calls, inodes := next.inodes)
    requires forall h :: h != g ==> Spares(life.world, next, h)
    requires forall h :: NoNewPublication(life.world, next, h)
    ensures LifeInv(tools, life.(world := next))
  {
    hide Inv, BuilderOk, Publishable, Matches, Follows, CallOk, Spares;
    var a := life.world;
    ReadyKept(tools, a, next);
    UnpublishedOf(tools, a, life.builders[b], g);
    forall c <- next.calls | next.calls[c].Publishing?
      ensures Publishable(tools, next, next.calls[c].operation, next.calls[c].generation)
    {
      assert NoNewPublication(a, next, next.calls[c].generation);
      assert Spares(a, next, a.calls[c].generation);
      PublicationKept(tools, a, next, c);
    }
    forall n <- life.builders ensures BuilderOk(tools, next, life.builders[n]) {
      if n != b { BuilderKept(tools, a, next, life.builders[n]); }
    }
  }

  lemma UnpublishedOf(tools: Tools, w: World, builder: Builder, g: Uuid)
    requires BuilderOk(tools, w, builder) && Unentered(builder.stage) == Some(g)
    ensures Unpublished(w, g)
  {
  }

  lemma MakeKeeps(tools: Tools, life: Life, b: nat)
    requires LifeInv(tools, life) && At(life, b)
    ensures LifeInv(tools, StepLate(tools, life, Make(b)))
  {
    hide LifeInv, Inv, BuilderOk, Follows;
    var w, builder := life.world, life.builders[b];
    if builder.stage.Begun? && BuiltBy(w, builder, Making(builder.stage.generation)) {
      InvOf(tools, life);
      var event := MakeTemp(builder.stage.call);
      OneStep(w, event);
      var next := Step(w, event);
      BegunKept(tools, w, next, builder);
      OwnStepKeeps(tools, life, b, builder.stage.generation, next);
    }
  }

  lemma DraftKeeps(tools: Tools, life: Life, b: nat, store: Store)
    requires LifeInv(tools, life) && At(life, b)
    ensures LifeInv(tools, StepLate(tools, life, Draft(b, store)))
  {
    hide LifeInv, Inv, BuilderOk, Follows;
    var w, builder := life.world, life.builders[b];
    if builder.stage.Begun? && BuiltBy(w, builder, Writing(builder.stage.generation)) {
      InvOf(tools, life);
      var event := WriteTemp(builder.stage.call, store, false);
      OneStep(w, event);
      var next := Step(w, event);
      BegunKept(tools, w, next, builder);
      OwnStepKeeps(tools, life, b, builder.stage.generation, next);
    }
  }

  /** Before its store is written, a builder does not care what its staging directory holds. */
  lemma BegunKept(tools: Tools, a: World, b: World, builder: Builder)
    requires Steps(a, b) && BuilderOk(tools, a, builder) && builder.stage.Begun?
    requires b.final == a.final && NoNewPublication(a, b, builder.stage.generation)
    ensures BuilderOk(tools, b, builder)
  {
    hide Inv, TargetOk, PlanOk, RowOk, Pinned;
    var stage := builder.stage;
    if IsActive(b.db, builder.operation) { TargetKept(a, b, builder, stage.target); }
    RowKept(a, b, builder, stage.target, stage.snapshot, stage.generation);
  }

  /** The heart of it: what an active builder writes is what its row says. */
  lemma OutcomeMatches(tools: Tools, w: World, builder: Builder)
    requires ToolsOk(tools) && Inv(w) && ReadyMatches(tools, w)
    requires BuilderOk(tools, w, builder) && builder.stage.Begun? && IsActive(w.db, builder.operation)
    requires OutcomeFor(tools, w, builder).Ok? && builder.stage.generation in w.db.generations
    ensures Matches(tools, w, w.db.generations[builder.stage.generation], OutcomeFor(tools, w, builder).value)
  {
    hide Inv, ReadyMatches, BuildOutcome, OverlayOutcome, OverlayMatches, IsDiff, PlannedOver;
    var stage := builder.stage;
    SnapshotOfDigest(stage.snapshot);
    match stage.target
    case OverlayTarget(base) =>
      PinnedMatches(tools, w, builder.operation, base);
      OverlayOutcomeMatches(tools, w, builder, w.db.generations[stage.generation], w.final[base].store);
    case FullTarget(previous) =>
      if previous.Some? {
        PinnedMatches(tools, w, builder.operation, previous.value);
        IncrementalOutcomeMatches(tools, w, builder, w.db.generations[stage.generation]);
      } else {
        hide ColdStore, RowsValid, Total, ColdFiles;
        ColdBuild(tools(builder.compatibility), stage.plan.full, stage.snapshot, builder.compatibility) by { DiffUnfolded(stage.plan.full, stage.snapshot); }
      }
  }

  lemma DiffUnfolded(plan: BuildPlan, snapshot: Snapshot)
    requires plan.previous.None? && IsDiff(plan.diff, PreviousFiles(plan), Hashes(snapshot.files))
    ensures IsDiff(plan.diff, map[], Hashes(snapshot.files))
  {
  }

  lemma PinnedMatches(tools: Tools, w: World, o: Uuid, id: Uuid)
    requires Inv(w) && ReadyMatches(tools, w) && Pinned(w, o, id)
    ensures OnDisk(w, id) && Matches(tools, w, w.db.generations[id], w.final[id].store)
  {
    hide Matches;
    assert PinsOk(w.db) && DirsOk(w);
  }

  lemma IncrementalOutcomeMatches(tools: Tools, w: World, builder: Builder, row: Generation)
    requires builder.stage.Begun? && builder.stage.target.FullTarget? && builder.stage.target.previous.Some?
    requires PlanOk(w, builder, builder.stage.target, builder.stage.snapshot, builder.stage.plan)
    requires var id := builder.stage.target.previous.value;
             OnDisk(w, id) && w.db.generations[id].compatibility == builder.compatibility
             && FullMatches(tools, w.db.generations[id], w.final[id].store)
    requires OutcomeFor(tools, w, builder).Ok?
    requires row.compatibility == builder.compatibility && SnapshotOf(row.digest) == builder.stage.snapshot
    ensures FullMatches(tools, row, OutcomeFor(tools, w, builder).value)
  {
    hide BuildOutcome, ColdStore, RowsValid, IsDiff, Total, ColdFiles;
    var id, plan := builder.stage.target.previous.value, builder.stage.plan.full;
    var again := BuildPlan(Some(Previous(plan.previous.value.manifest, w.final[id].store)), plan.diff);
    assert PreviousFiles(again) == PreviousFiles(plan);
    IncrementalBuild(tools(builder.compatibility), again, SnapshotOf(w.db.generations[id].digest), builder.stage.snapshot, builder.compatibility);
  }

  lemma OverlayOutcomeMatches(tools: Tools, w: World, builder: Builder, row: Generation, base: Store)
    requires ToolsOk(tools) && builder.stage.Begun? && builder.stage.target.OverlayTarget?
    requires PlanOk(w, builder, builder.stage.target, builder.stage.snapshot, builder.stage.plan)
    requires base == ReadStore(w, builder.stage.target.base) && builder.stage.target.base in w.db.generations
    requires var baseRow := w.db.generations[builder.stage.target.base];
             baseRow.compatibility == builder.compatibility && FullMatches(tools, baseRow, base)
    requires OutcomeFor(tools, w, builder).Ok?
    requires row.compatibility == builder.compatibility && SnapshotOf(row.digest) == builder.stage.snapshot
    ensures OverlayMatches(tools, row, OutcomeFor(tools, w, builder).value, base)
  {
    hide OverlayOutcome, RowsValid, PlannedOver, MergedIndex, ColdIndex, ColdFiles;
    var t, plan := tools(builder.compatibility), builder.stage.plan.over;
    var before := SnapshotOf(w.db.generations[builder.stage.target.base].digest);
    assert WellBehaved(t);
    MergedViewIsColdBuild(t, plan, base, before, builder.stage.snapshot, builder.compatibility);
    OverlayHasParts(t, plan, base.manifest.value, builder.stage.snapshot, builder.compatibility);
  }

  lemma OverlayHasParts(t: Toolchain, plan: OverlayPlan, base: FileManifest, snapshot: Snapshot, compatibility: Compatibility)
    requires PlannedOver(plan, plan.baseId, base, snapshot) && OverlayOutcome(t, plan, compatibility).Ok?
    ensures var overlay := OverlayOutcome(t, plan, compatibility).value;
            overlay.index.Some? && overlay.overlay.Some?
  {
    OverlayParts(t, plan, base, snapshot, compatibility);
  }

  lemma WriteKeeps(tools: Tools, life: Life, b: nat)
    requires ToolsOk(tools) && LifeInv(tools, life) && At(life, b)
    ensures LifeInv(tools, StepLate(tools, life, Write(b)))
  {
    hide LifeInv, Inv, BuilderOk, Follows, OutcomeFor;
    var w, builder := life.world, life.builders[b];
    if builder.stage.Begun? {
      var g, outcome := builder.stage.generation, OutcomeFor(tools, w, builder);
      if outcome.Err? || !BuiltBy(w, builder, Writing(g)) {
        DropKeeps(tools, life, b);
      } else {
        InvOf(tools, life);
        var event := WriteTemp(builder.stage.call, outcome.value, true);
        OneStep(w, event);
        var next := Step(w, event);
        LastWrite(w, builder.stage.call, g, outcome.value);
        BegunKept(tools, w, next, builder);
        OwnStepKeeps(tools, life, b, g, next);
        WrittenIsBuilt(tools, life, b, next);
        var stage := builder.stage;
        MoveKeeps(tools, life.(world := next), b, builder.(stage := Built(stage.target, stage.snapshot, stage.plan, g)));
      }
    }
  }

  lemma LastWrite(w: World, call: nat, g: Uuid, store: Store)
    requires call in w.calls && w.calls[call] == Writing(g)
    ensures var next := Step(w, WriteTemp(call, store, true));
            && next == w.(temp := next.temp, calls := w.calls - {call}, inodes := next.inodes)
            && g in next.temp && next.temp[g].store == store && forall h :: h != g ==> Spares(w, next, h)
  {
  }

  lemma WrittenIsBuilt(tools: Tools, life: Life, b: nat, next: World)
    requires ToolsOk(tools) && LifeInv(tools, life) && At(life, b) && life.builders[b].stage.Begun?
    requires var w, g := life.world, life.builders[b].stage.generation;
             && OutcomeFor(tools, w, life.builders[b]).Ok? && g in next.temp
             && next == w.(temp := next.temp, calls := next.calls, inodes := next.inodes)
             && next.temp[g].store == OutcomeFor(tools, w, life.builders[b]).value
    requires Steps(life.world, next) && BuilderOk(tools, next, life.builders[b])
    ensures var builder := life.builders[b];
            BuilderOk(tools, next, builder.(stage := Built(builder.stage.target, builder.stage.snapshot, builder.stage.plan, builder.stage.generation)))
  {
    hide Inv, OutcomeFor, Matches, PlanOk, TargetOk, Follows;
    var w, builder := life.world, life.builders[b];
    var g := builder.stage.generation;
    if IsActive(next.db, builder.operation) && IsStaging(next.db, g) {
      assert BuilderOk(tools, w, builder);
      OutcomeMatches(tools, w, builder);
      MatchesKept(tools, w, next, g, OutcomeFor(tools, w, builder).value);
    }
  }

  // ---- Publication -----------------------------------------------------------------------------

  lemma EnterKeeps(tools: Tools, life: Life, e: LifeEvent)
    requires LifeInv(tools, life) && e.Enter? && At(life, e.builder)
    ensures LifeInv(tools, StepLate(tools, life, e))
  {
    hide LifeInv, Inv, BuilderOk, Follows, Step;
    var w, builder := life.world, life.builders[e.builder];
    if builder.stage.Built? && e.call !in w.calls {
      var stage := builder.stage;
      var moved := ComputeDigest(e.post) != ComputeDigest(stage.snapshot);
      var event := PublishEnter(e.call, builder.operation, stage.generation, Some(Finalize(moved, e.bytes)));
      InvOf(tools, life);
      OneStep(w, event);
      var next := Step(w, event);
      var after := builder.(stage := Publishes(stage.target, stage.snapshot, stage.plan, stage.generation, e.call));
      PublishesOk(tools, w, builder, after);
      MoveKeeps(tools, life, e.builder, after);
      NobodyElseHas(tools, life, e.builder);
      EnteredKeeps(tools, life.(builders := life.builders[e.builder := after]), builder, e.call, event);
    }
  }

  lemma PublishesOk(tools: Tools, w: World, builder: Builder, after: Builder)
    requires BuilderOk(tools, w, builder) && after.operation == builder.operation && after.stage.Publishes?
    ensures BuilderOk(tools, w, after)
  {
  }

  lemma NobodyElseHas(tools: Tools, life: Life, b: nat)
    requires LifeInv(tools, life) && At(life, b) && Unentered(life.builders[b].stage).Some?
    ensures forall n <- life.builders :: n != b ==> Unentered(life.builders[n].stage) != Unentered(life.builders[b].stage)
  {
  }

  /** Entering a publication of a built generation that no other builder prepares. */
  lemma EnteredKeeps(tools: Tools, life: Life, builder: Builder, call: nat, event: Event)
    requires LifeInv(tools, life) && BuilderOk(tools, life.world, builder) && builder.stage.Built?
    requires call !in life.world.calls && event.PublishEnter?
    requires event.call == call && event.operation == builder.operation && event.generation == builder.stage.generation
    requires forall n <- life.builders :: Unentered(life.builders[n].stage) != Some(builder.stage.generation)
    requires Steps(life.world, Step(life.world, event))
    ensures LifeInv(tools, life.(world := Step(life.world, event)))
  {
    hide Inv, Publishable, Matches, Follows, CallOk, Spares, BuilderOk;
    var a, next := life.world, Step(life.world, event);
    assert next == a.(calls := next.calls);
    AllSpared(a, next);
    ReadyKept(tools, a, next);
    forall c <- next.calls | next.calls[c].Publishing?
      ensures Publishable(tools, next, next.calls[c].operation, next.calls[c].generation)
    {
      if c == call {
        BuiltIsPublishable(tools, a, next, builder);
      } else {
        PublicationKept(tools, a, next, c);
      }
    }
    forall n <- life.builders ensures BuilderOk(tools, next, life.builders[n]) {
      BuilderKept(tools, a, next, life.builders[n]);
    }
  }

  lemma AllSpared(a: World, b: World)
    requires b.temp == a.temp && b.final == a.final
    ensures forall g :: Spares(a, b, g)
  {
  }

  lemma BuiltIsPublishable(tools: Tools, a: World, b: World, builder: Builder)
    requires Steps(a, b) && BuilderOk(tools, a, builder) && builder.stage.Built?
    requires Spares(a, b, builder.stage.generation)
    ensures Publishable(tools, b, builder.operation, builder.stage.generation)
  {
    hide Inv, Follows, Matches;
    PublishableKept(tools, a, b, builder.operation, builder.stage.generation);
  }

  /** Phases of a publication that move no directory and change no row. */
  lemma PhaseCalm(w: World, e: Event)
    requires IsPublish(e) && !e.PublishEnter? && !e.PublishRename? && !e.PublishCommit?
    ensures Calm(w, StepPublish(w, e))
  {
  }

  lemma PhaseKeeps(tools: Tools, life: Life, e: Event)
    requires LifeInv(tools, life)
    requires e.Stop? || (IsPublish(e) && !e.PublishEnter? && !e.PublishRename? && !e.PublishCommit?)
    ensures LifeInv(tools, life.(world := Step(life.world, e)))
  {
    hide LifeInv, Inv, Follows, Calm;
    InvOf(tools, life);
    OneStep(life.world, e);
    if e.Stop? { StopCalm(life.world, e.call); } else { PhaseCalm(life.world, e); }
    UndisturbedKeeps(tools, life, Step(life.world, e));
  }

  lemma RenameKeeps(tools: Tools, life: Life, call: nat)
    requires LifeInv(tools, life) && InPhase(life.world, call, Rechecked)
    ensures LifeInv(tools, life.(world := Step(life.world, PublishRename(call))))
  {
    hide LifeInv, Inv, Follows, Matches;
    InvOf(tools, life);
    var w := life.world;
    var event := PublishRename(call);
    OneStep(w, event);
    var id := w.calls[call].generation;
    if id !in w.temp {
      StopCalm(w, call);
      UndisturbedKeeps(tools, life, Step(w, event));
    } else {
      RenameMoves(w, call);
      RenamedKeeps(tools, life, call, Step(w, event));
    }
  }

  lemma RenameMoves(w: World, call: nat)
    requires Inv(w) && InPhase(w, call, Rechecked) && w.calls[call].generation in w.temp
    ensures var id := w.calls[call].generation;
            var b := Step(w, PublishRename(call));
            && id !in w.final
            && b == w.(temp := w.temp - {id}, final := w.final[id := w.temp[id]], calls := w.calls[call := w.calls[call].(phase := Renamed)])
            && (forall g :: g != id ==> Spares(w, b, g))
            && (forall g :: NoNewPublication(w, b, g))
  {
    PublishRenameKeeps(w, call);
  }

  lemma RenamedKeeps(tools: Tools, life: Life, call: nat, next: World)
    requires LifeInv(tools, life) && InPhase(life.world, call, Rechecked) && Steps(life.world, next)
    requires var w, id := life.world, life.world.calls[call].generation;
             && id in w.temp && id !in w.final
             && next == w.(temp := w.temp - {id}, final := w.final[id := w.temp[id]], calls := w.calls[call := w.calls[call].(phase := Renamed)])
             && (forall g :: g != id ==> Spares(w, next, g))
             && (forall g :: NoNewPublication(w, next, g))
    ensures LifeInv(tools, life.(world := next))
  {
    hide Inv, Publishable, Matches, Follows, CallOk, Spares, BuilderOk;
    var w, id := life.world, life.world.calls[call].generation;
    ReadyKept(tools, w, next);
    forall c <- next.calls | next.calls[c].Publishing?
      ensures Publishable(tools, next, next.calls[c].operation, next.calls[c].generation)
    {
      assert NoNewPublication(w, next, next.calls[c].generation);
      if next.calls[c].generation == id {
        RenamedPublishable(tools, w, next, c, id);
      } else {
        PublicationKept(tools, w, next, c);
      }
    }
    forall n <- life.builders ensures BuilderOk(tools, next, life.builders[n]) {
      if Unentered(life.builders[n].stage) == Some(id) {
        UnpublishedOf(tools, w, life.builders[n], id);
        assert false;
      }
      BuilderKept(tools, w, next, life.builders[n]);
    }
  }

  lemma RenamedPublishable(tools: Tools, w: World, next: World, c: nat, id: Uuid)
    requires Steps(w, next) && PublicationsOk(tools, w) && c in w.calls && w.calls[c].Publishing? && w.calls[c].generation == id
    requires id in w.temp && next.temp == w.temp - {id} && next.final == w.final[id := w.temp[id]] && next.db == w.db
    ensures Publishable(tools, next, w.calls[c].operation, id)
  {
    hide Inv, Follows, Matches;
    if IsActive(next.db, w.calls[c].operation) && IsStaging(next.db, id) {
      MatchesKept(tools, w, next, id, w.temp[id].store);
    }
  }

  lemma CommitKeepsLife(tools: Tools, life: Life, call: nat)
    requires LifeInv(tools, life) && InPhase(life.world, call, Confirmed)
    ensures LifeInv(tools, life.(world := Step(life.world, Event.PublishCommit(call))))
  {
    hide LifeInv, Inv, Follows, Matches, Calm;
    InvOf(tools, life);
    var w := life.world;
    OneStep(w, Event.PublishCommit(call));
    if CommitSucceeds(w, call) {
      CommitChanges(w, call);
      CommittedKeeps(tools, life, call, Step(w, Event.PublishCommit(call)));
    } else {
      StopCalm(w, call);
      UndisturbedKeeps(tools, life, Step(w, Event.PublishCommit(call)));
    }
  }

  lemma CommitChanges(w: World, call: nat)
    requires Inv(w) && CommitSucceeds(w, call)
    ensures var p := w.calls[call];
            var b := Step(w, Event.PublishCommit(call));
            && IsActive(w.db, p.operation) && IsStaging(w.db, p.generation) && p.generation in w.final
            && b.temp == w.temp && b.final == w.final && b.calls == w.calls - {call}
            && (forall g <- b.db.generations | g != p.generation :: IsReady(b.db, g) ==> IsReady(w.db, g))
  {
    hide Inv, Step, StateModel.PublishCommit;
    InPhaseOfCommit(w, call);
    CommitRows(w.db, w.calls[call]);
    CommitStatuses(w.db, w.calls[call]);
    ConfirmedIsOnDisk(w, call);
    Commits(w, call);
  }

  lemma CommitStatuses(db: Db, p: Call)
    requires p.Publishing? && StateModel.PublishCommit(db, p.operation, p.generation, p.seen, p.finalize).Ok?
    ensures var after := StateModel.PublishCommit(db, p.operation, p.generation, p.seen, p.finalize).value;
            forall g <- after.generations | g != p.generation :: IsReady(after, g) ==> IsReady(db, g)
  {
  }

  lemma CommittedKeeps(tools: Tools, life: Life, call: nat, next: World)
    requires LifeInv(tools, life) && InPhase(life.world, call, Confirmed) && Steps(life.world, next)
    requires var w, p := life.world, life.world.calls[call];
             && IsActive(w.db, p.operation) && IsStaging(w.db, p.generation) && p.generation in w.final
             && next.temp == w.temp && next.final == w.final && next.calls == w.calls - {call}
             && (forall g <- next.db.generations | g != p.generation :: IsReady(next.db, g) ==> IsReady(w.db, g))
    ensures LifeInv(tools, life.(world := next))
  {
    hide Inv, Publishable, Matches, Follows, CallOk, Spares, BuilderOk;
    var w, p := life.world, life.world.calls[call];
    AllSpared(w, next);
    if p.generation in next.db.generations {
      CommittedMatches(tools, w, next, p.operation, p.generation);
    }
    ReadyKept(tools, w, next);
    forall c <- next.calls | next.calls[c].Publishing?
      ensures Publishable(tools, next, next.calls[c].operation, next.calls[c].generation)
    {
      PublicationKept(tools, w, next, c);
    }
    forall n <- life.builders ensures BuilderOk(tools, next, life.builders[n]) {
      BuilderKept(tools, w, next, life.builders[n]);
    }
  }

  lemma CommittedMatches(tools: Tools, w: World, next: World, o: Uuid, g: Uuid)
    requires Steps(w, next) && Publishable(tools, w, o, g) && IsActive(w.db, o) && IsStaging(w.db, g) && g in w.final
    requires g in next.db.generations && next.final == w.final
    ensures Matches(tools, next, next.db.generations[g], next.final[g].store)
  {
    hide Inv, Follows, Matches;
    MatchesKept(tools, w, next, g, w.final[g].store);
  }

  // ---- Every event and every run ---------------------------------------------------------------

  lemma LifeStepKeeps(tools: Tools, life: Life, e: LifeEvent)
    requires ToolsOk(tools) && LifeInv(tools, life)
    ensures LifeInv(tools, LifeStep(tools, life, e))
  {
    hide LifeInv, Step, Undisturbed, IsOther, StepDecide, OutcomeFor, PlanFor, Unmoved, Inv;
    InvOf(tools, life);
    match e
    case Other(event) =>
      if IsOther(event) {
        OtherUndisturbed(life.world, event);
        UndisturbedKeeps(tools, life, Step(life.world, event));
      }
    case Start(_, _, _, _, _, _) => StartKeeps(tools, life, e);
    case Acquire(b) => AcquireKeeps(tools, life, b);
    case Decide(b) => if At(life, b) && life.builders[b].stage.Acquiring? { DecideKeeps(tools, life, b); }
    case PlanBuild(_, _, _, _, _) => PlanKeeps(tools, life, e);
    case Leave(b) => DropKeeps(tools, life, b);
    case _ => StepLateKeeps(tools, life, e);
  }

  lemma StepLateKeeps(tools: Tools, life: Life, e: LifeEvent)
    requires ToolsOk(tools) && LifeInv(tools, life) && StepLate.requires(tools, life, e)
    ensures LifeInv(tools, StepLate(tools, life, e))
  {
    hide LifeInv, Step, OutcomeFor, ValidatorAccepts;
    if At(life, e.builder) {
      match e
      case Begin(_, _, _) => BeginKeeps(tools, life, e);
      case Make(b) => MakeKeeps(tools, life, b);
      case Draft(b, store) => DraftKeeps(tools, life, b, store);
      case Write(b) => WriteKeeps(tools, life, b);
      case Enter(_, _, _, _) => EnterKeeps(tools, life, e);
      case Accept(b) =>
        var stage := life.builders[b].stage;
        if stage.Publishes? {
          PhaseKeeps(tools, life, PublishAccept(stage.call));
          PhaseKeeps(tools, life, Stop(stage.call));
        }
      case Proceed(b) =>
        if life.builders[b].stage.Publishes? { ProceedKeeps(tools, life, life.builders[b].stage.call); }
    }
  }

  lemma ProceedKeeps(tools: Tools, life: Life, call: nat)
    requires LifeInv(tools, life)
    ensures NextEvent(life.world, call).Some? ==> LifeInv(tools, life.(world := Step(life.world, NextEvent(life.world, call).value)))
  {
    hide LifeInv, Step;
    if InPhase(life.world, call, Opened) {
      PhaseKeeps(tools, life, PublishStat(call));
    } else if InPhase(life.world, call, Accepted) {
      PhaseKeeps(tools, life, PublishFree(call));
    } else if InPhase(life.world, call, Free) {
      PhaseKeeps(tools, life, PublishRecheck(call));
    } else if InPhase(life.world, call, Rechecked) {
      RenameKeeps(tools, life, call);
    } else if InPhase(life.world, call, Renamed) {
      PhaseKeeps(tools, life, PublishConfirm(call));
    } else if InPhase(life.world, call, Confirmed) {
      CommitKeepsLife(tools, life, call);
    }
  }

  lemma {:induction false} LifeRunKeeps(tools: Tools, life: Life, events: seq<LifeEvent>)
    requires ToolsOk(tools) && LifeInv(tools, life)
    ensures LifeInv(tools, LifeRun(tools, life, events))
    decreases events
  {
    hide LifeInv, LifeStep, ToolsOk;
    if events != [] {
      LifeStepKeeps(tools, life, events[0]);
      LifeRunKeeps(tools, LifeStep(tools, life, events[0]), events[1..]);
    }
  }

  /** The index that a search over generation `g` sees: its rows, with its base's rows outside the tombstones. */
  ghost function ServedIndex(w: World, g: Uuid): Option<map<string, Row>> {
    if !OnDisk(w, g) || w.final[g].store.index.None? then None
    else
      var store := w.final[g].store;
      if w.db.generations[g].kind.Full? then store.index
      else if w.db.generations[g].base.None? || store.overlay.None? then None
      else
        var base := ReadStore(w, w.db.generations[g].base.value);
        if base.index.None? then None
        else Some(MergedIndex(base.index.value, Members(store.overlay.value.tombstones), store.index.value))
  }

  /**
   In every reachable state the current generation of a checkout has an unmoved source, and the index it serves
   is the cold build of the one snapshot whose digest it records; an overlay's base is on disk, ready, full, of
   the same repository and of the same compatibility.
   */
  lemma CurrentIndexIsColdBuild(tools: Tools, events: seq<LifeEvent>, checkout: Key)
    requires ToolsOk(tools)
    requires checkout in LifeRun(tools, BIRTH, events).world.db.current
    ensures var w := LifeRun(tools, BIRTH, events).world;
            var g := w.db.current[checkout];
            && OnDisk(w, g)
            && var row := w.db.generations[g];
            && row.checkout == checkout && !row.sourceMoved
            && ServedIndex(w, g) == Some(ColdIndex(tools(row.compatibility), SnapshotOf(row.digest).files))
            && (row.kind.Overlay? ==>
                  && row.base.Some? && OnDisk(w, row.base.value)
                  && var base := w.db.generations[row.base.value];
                  base.kind.Full? && base.repo == row.repo && base.compatibility == row.compatibility)
  {
    BirthOk(tools);
    LifeRunKeeps(tools, BIRTH, events);
    var w := LifeRun(tools, BIRTH, events).world;
    hide LifeRun, ColdIndex, RowsValid;
    CurrentMatches(tools, w, checkout);
  }

  lemma BirthOk(tools: Tools)
    ensures LifeInv(tools, BIRTH)
  {
    StartOk();
  }

  lemma CurrentMatches(tools: Tools, w: World, checkout: Key)
    requires Inv(w) && ReadyMatches(tools, w) && checkout in w.db.current
    ensures var g := w.db.current[checkout];
            && OnDisk(w, g)
            && var row := w.db.generations[g];
            && row.checkout == checkout && !row.sourceMoved
            && ServedIndex(w, g) == Some(ColdIndex(tools(row.compatibility), SnapshotOf(row.digest).files))
            && (row.kind.Overlay? ==>
                  && row.base.Some? && OnDisk(w, row.base.value)
                  && var base := w.db.generations[row.base.value];
                  base.kind.Full? && base.repo == row.repo && base.compatibility == row.compatibility)
  {
    hide ColdIndex, RowsValid, ColdFiles, MergedIndex, Members;
    assert CurrentOk(w.db) && BasesOk(w.db) && DirsOk(w);
    var g := w.db.current[checkout];
    assert OnDisk(w, g);
    assert Matches(tools, w, w.db.generations[g], w.final[g].store);
  }
}
