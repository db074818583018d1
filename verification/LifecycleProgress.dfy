/** A builder that has built its generation and goes on alone publishes it. */
module LifecycleProgress {
  import opened Wrappers
  import opened Contracts
  import opened IndexUpdate
  import opened OverlayValidation
  import opened StateModel
  import opened Protocol
  import opened Publication
  import opened Lifecycle
  import opened LifecycleInvariant

  function Publisher(builder: Builder, call: nat): Builder
    requires builder.stage.Built?
  {
    var stage := builder.stage;
    builder.(stage := Publishes(stage.target, stage.snapshot, stage.plan, stage.generation, call))
  }

  /** The publication as the builder carries it through its phases. */
  ghost predicate Carries(life: Life, b: nat, builder: Builder, w: World) {
    life.world == w && At(life, b) && life.builders[b] == builder
  }

  lemma EnterStep(tools: Tools, life: Life, b: nat, post: Snapshot, bytes: nat, call: nat)
    requires At(life, b) && life.builders[b].stage.Built? && call !in life.world.calls
    ensures var builder := life.builders[b];
            var event := PublishEnter(call, builder.operation, builder.stage.generation, Some(Finalize(post != builder.stage.snapshot, bytes)));
            Carries(LifeStep(tools, life, Enter(b, post, bytes, call)), b, Publisher(builder, call), Step(life.world, event))
  {
    DigestIdentifiesSnapshot(post, life.builders[b].stage.snapshot);
    hide Step, ComputeDigest;
  }

  lemma AcceptStep(tools: Tools, life: Life, b: nat, builder: Builder, w: World)
    requires Carries(life, b, builder, w) && builder.stage.Publishes? && PublishedBy(w, builder) && ValidatorAccepts(w, builder)
    ensures Carries(LifeStep(tools, life, Accept(b)), b, builder, Step(w, PublishAccept(builder.stage.call)))
  {
    hide Step;
  }

  lemma ProceedStep(tools: Tools, life: Life, b: nat, builder: Builder, w: World, event: Event)
    requires Carries(life, b, builder, w) && builder.stage.Publishes? && PublishedBy(w, builder)
    requires NextEvent(w, builder.stage.call) == Some(event)
    ensures Carries(LifeStep(tools, life, Proceed(b)), b, builder, Step(w, event))
  {
    hide Step;
  }

  lemma LifeRunFour(tools: Tools, life: Life, a: LifeEvent, b: LifeEvent, c: LifeEvent, d: LifeEvent, rest: seq<LifeEvent>)
    ensures LifeRun(tools, life, [a, b, c, d] + rest)
         == LifeRun(tools, LifeStep(tools, LifeStep(tools, LifeStep(tools, LifeStep(tools, life, a), b), c), d), rest)
  {
    hide LifeStep;
    assert ([a, b, c, d] + rest)[1..] == [b, c, d] + rest && ([b, c, d] + rest)[1..] == [c, d] + rest;
    assert ([c, d] + rest)[1..] == [d] + rest && ([d] + rest)[1..] == rest;
    var l1 := LifeStep(tools, life, a);
    var l2 := LifeStep(tools, l1, b);
    assert LifeRun(tools, life, [a, b, c, d] + rest) == LifeRun(tools, l1, [b, c, d] + rest) == LifeRun(tools, l2, [c, d] + rest);
    var l3 := LifeStep(tools, l2, c);
    assert LifeRun(tools, l2, [c, d] + rest) == LifeRun(tools, l3, [d] + rest) == LifeRun(tools, LifeStep(tools, l3, d), rest);
  }

  /** What the builder does from its last write on; `post` is what it captures then. */
  function Finishing(b: nat, post: Snapshot, bytes: nat, call: nat): seq<LifeEvent> {
    [Enter(b, post, bytes, call), Proceed(b), Accept(b), Proceed(b)] + ([Proceed(b), Proceed(b), Proceed(b), Proceed(b)] + [])
  }

  /** The builder is at the rename. */
  lemma ReachesTheRename(tools: Tools, life: Life, b: nat, post: Snapshot, bytes: nat, call: nat)
    requires At(life, b) && life.builders[b].stage.Built? && call !in life.world.calls
    requires MayPublish(life.world, life.builders[b].operation, life.builders[b].stage.generation)
    requires ValidatorAccepts(life.world, Publisher(life.builders[b], call))
    ensures var builder := life.builders[b];
            var w, o, g, finalize := life.world, builder.operation, builder.stage.generation, Some(Finalize(post != builder.stage.snapshot, bytes));
            var l4 := LifeStep(tools, LifeStep(tools, LifeStep(tools, LifeStep(tools, life,
                        Enter(b, post, bytes, call)), Proceed(b)), Accept(b)), Proceed(b));
            && g in w.temp && g in w.db.generations
            && Carries(l4, b, Publisher(builder, call),
                       Step(Step(Step(Step(w, PublishEnter(call, o, g, finalize)), PublishStat(call)), PublishAccept(call)), PublishFree(call)))
            && l4.world == w.(calls := w.calls[call := Opening(w, o, g, finalize, w.temp[g].inode, Free)])
  {
    hide Step, LifeStep, ValidatorAccepts, MayPublish;
    var w, builder := life.world, Publisher(life.builders[b], call);
    var o, g := builder.operation, builder.stage.generation;
    var finalize := Some(Finalize(post != builder.stage.snapshot, bytes));
    Present(w, o, g);
    Enters(w, call, o, g, finalize);
    EnterStep(tools, life, b, post, bytes, call);
    var l1 := LifeStep(tools, life, Enter(b, post, bytes, call));
    Stats(l1.world, call);
    ProceedStep(tools, l1, b, builder, l1.world, PublishStat(call));
    var l2 := LifeStep(tools, l1, Proceed(b));
    Checks(l2.world, call);
    SameForValidator(w, l2.world, builder);
    AcceptStep(tools, l2, b, builder, l2.world);
    var l3 := LifeStep(tools, l2, Accept(b));
    Checks(l3.world, call);
    ProceedStep(tools, l3, b, builder, l3.world, PublishFree(call));
    assert LifeStep(tools, l3, Proceed(b)).world.calls == w.calls[call := Opening(w, o, g, finalize, w.temp[g].inode, Free)];
  }

  /** From there it renames, confirms and commits. */
  lemma PassesTheRename(tools: Tools, life: Life, b: nat, builder: Builder, g: Uuid)
    requires Carries(life, b, builder, life.world) && builder.stage.Publishes? && builder.stage.generation == g
    requires InPhase(life.world, builder.stage.call, Free) && life.world.calls[builder.stage.call].generation == g
    requires g !in life.world.final && SameDir(life.world.temp, g, life.world.calls[builder.stage.call].inode)
    ensures var w, call := life.world, builder.stage.call;
            LifeStep(tools, LifeStep(tools, LifeStep(tools, LifeStep(tools, life, Proceed(b)), Proceed(b)), Proceed(b)), Proceed(b)).world
            == Step(Step(Step(Step(w, PublishRecheck(call)), PublishRename(call)), PublishConfirm(call)), Event.PublishCommit(call))
  {
    hide Step, LifeStep;
    var w, call := life.world, builder.stage.call;
    Checks(w, call);
    ProceedStep(tools, life, b, builder, w, PublishRecheck(call));
    var l1 := LifeStep(tools, life, Proceed(b));
    Renames(l1.world, call);
    ProceedStep(tools, l1, b, builder, l1.world, PublishRename(call));
    var l2 := LifeStep(tools, l1, Proceed(b));
    Confirms(l2.world, call);
    ProceedStep(tools, l2, b, builder, l2.world, PublishConfirm(call));
    var l3 := LifeStep(tools, l2, Proceed(b));
    ProceedStep(tools, l3, b, builder, l3.world, Event.PublishCommit(call));
  }

  /**
   A builder whose generation is built, whose operation still holds the checkout and whose validator accepts the
   staging directory makes its generation ready when nobody comes between, and current unless the source has moved.
   */
  lemma BuiltGenerationIsPublished(tools: Tools, life: Life, b: nat, post: Snapshot, bytes: nat, call: nat)
    requires At(life, b) && life.builders[b].stage.Built? && call !in life.world.calls
    requires MayPublish(life.world, life.builders[b].operation, life.builders[b].stage.generation)
    requires ValidatorAccepts(life.world, Publisher(life.builders[b], call))
    ensures var stage := life.builders[b].stage;
            var g, row := stage.generation, life.world.db.generations[stage.generation];
            var after := LifeRun(tools, life, Finishing(b, post, bytes, call)).world;
            && IsReady(after.db, g) && g in after.final && after.final == life.world.final[g := life.world.temp[g]]
            && after.db.current == (if post == stage.snapshot then life.world.db.current[row.checkout := g] else life.world.db.current)
            && after.db.generations == life.world.db.generations[g :=
                 row.(status := Ready, sourceMoved := post != stage.snapshot, bytes := bytes)]
  {
    hide Step, LifeStep, Run, ValidatorAccepts, MayPublish, LifeRun;
    var w, builder := life.world, Publisher(life.builders[b], call);
    var o, g := builder.operation, builder.stage.generation;
    var finalize := Some(Finalize(post != builder.stage.snapshot, bytes));
    Present(w, o, g);
    var l4 := LifeStep(tools, LifeStep(tools, LifeStep(tools, LifeStep(tools, life,
                Enter(b, post, bytes, call)), Proceed(b)), Accept(b)), Proceed(b));
    ReachesTheRename(tools, life, b, post, bytes, call);
    PassesTheRename(tools, l4, b, builder, g);
    LifeRunFour(tools, life, Enter(b, post, bytes, call), Proceed(b), Accept(b), Proceed(b), [Proceed(b), Proceed(b), Proceed(b), Proceed(b)] + []);
    LifeRunFour(tools, l4, Proceed(b), Proceed(b), Proceed(b), Proceed(b), []);
    NothingRuns(tools, LifeStep(tools, LifeStep(tools, LifeStep(tools, LifeStep(tools, l4, Proceed(b)), Proceed(b)), Proceed(b)), Proceed(b)));
    UndisturbedPublicationSucceeds(w, call, o, g, finalize);
    RunEight(w, PublishEnter(call, o, g, finalize), PublishStat(call), PublishAccept(call), PublishFree(call),
             PublishRecheck(call), PublishRename(call), PublishConfirm(call), Event.PublishCommit(call));
  }

  /**
   A staging directory that does not hold what was to be built ends the publication before any row or directory
   changes: a full build's that does not cover the snapshot, an overlay's that is not one over its base.
   */
  lemma WrongStoreIsRefused(tools: Tools, life: Life, b: nat)
    requires At(life, b) && life.builders[b].stage.Publishes? && PublishedBy(life.world, life.builders[b])
    requires var stage, c := life.builders[b].stage, life.builders[b].compatibility;
             stage.generation in life.world.temp ==>
               var store := life.world.temp[stage.generation].store;
               match stage.plan
               case FullPlan(_) => !StoreCovers(store, c, stage.snapshot)
               case OverPlan(plan) =>
                 !OverlayBuildOk(store, ReadStore(life.world, plan.baseId), plan.baseId, c, stage.snapshot, plan.tombstones)
    ensures LifeStep(tools, life, Accept(b)) == life.(world := life.world.(calls := life.world.calls - {life.builders[b].stage.call}))
  {
    hide StoreCovers, OverlayBuildOk, OutcomeFor;
  }

  lemma NothingRuns(tools: Tools, life: Life)
    ensures LifeRun(tools, life, []) == life
  {
  }

  lemma SameForValidator(a: World, b: World, builder: Builder)
    requires builder.stage.Publishes? && a.temp == b.temp && a.final == b.final
    ensures ValidatorAccepts(a, builder) <==> ValidatorAccepts(b, builder)
  {
  }
}
