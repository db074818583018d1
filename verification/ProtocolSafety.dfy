/**
 What the protocol promises over whole runs: references stay on disk, ended operations stay fenced off,
 and claims exclude each other.
 */
module ProtocolSafety {
  import opened Wrappers
  import opened Contracts
  import opened StateModel
  import opened StateInvariant
  import opened Protocol
  import opened ProtocolInvariant

  predicate OnDisk(w: World, generation: Uuid) {
    IsReady(w.db, generation) && generation in w.final
  }

  /** Every current pointer, every pin and every base names a ready generation whose directory is on disk. */
  lemma ReferencesAreOnDisk(events: seq<Event>)
    ensures var w := Run(START, events);
            && (forall k <- w.db.current ::
                  && OnDisk(w, w.db.current[k])
                  && w.db.generations[w.db.current[k]].checkout == k
                  && !w.db.generations[w.db.current[k]].sourceMoved)
            && (forall o, g | (o, g) in w.db.pins :: IsActive(w.db, o) && OnDisk(w, g))
            && (forall g <- w.db.generations | w.db.generations[g].base.Some? :: OnDisk(w, w.db.generations[g].base.value))
  {
    RunKeeps(START, events);
  }

  // ---- How one event may change the world ------------------------------------------------------

  /** Some directory of `g` is there. */
  predicate HasDir(w: World, g: Uuid) {
    g in w.temp || g in w.final
  }

  /** Ids are issued once: a row that is gone does not come back. */
  ghost predicate IssuedOnce(a: World, b: World) {
    a.issued <= b.issued && forall g <- b.db.generations :: g in a.db.generations || g !in a.issued
  }

  /** The directory of a ready generation is neither replaced nor removed. */
  ghost predicate ReadyUntouched(a: World, b: World) {
    forall g <- a.final | IsReady(a.db, g) :: g in b.final && b.final[g] == a.final[g]
  }

  /** Only a checkout with a writer gains a current pointer. */
  ghost predicate CurrentByWriter(a: World, b: World) {
    forall k <- b.db.current :: k in a.db.current || k in a.db.writers
  }

  /** A generation that no builder is at work on gains neither a builder nor a directory. */
  ghost predicate UnbuiltStays(a: World, b: World) {
    forall g <- a.issued | Unbuilt(a, g) :: Unbuilt(b, g) && (HasDir(b, g) ==> HasDir(a, g))
  }

  ghost predicate Follows(a: World, b: World) {
    Evolves(a.db, b.db) && IssuedOnce(a, b) && ReadyUntouched(a, b) && CurrentByWriter(a, b) && UnbuiltStays(a, b)
  }

  /** An event that changes rows and no generation. */
  lemma RowsFollow(w: World, db: Db)
    requires Evolves(w.db, db) && db.generations == w.db.generations
    requires db.current.Keys <= w.db.current.Keys
    ensures Follows(w, w.(db := db))
  {
  }

  lemma FinishFollows(w: World, operation: Uuid, outcome: OperationState)
    requires Inv(w) && !outcome.Active?
    ensures Follows(w, w.(db := StateModel.FinishOperation(w.db, operation, outcome)))
  {
    FinishOperationEvolves(w.db, operation, outcome);
    RowsFollow(w, StateModel.FinishOperation(w.db, operation, outcome));
  }

  lemma ClaimFollows(w: World, e: Event)
    requires Inv(w) && (e.AcquireNative? || e.ClaimEnrollment? || e.ReleaseEnrollment? || e.DeleteCurrent?)
    ensures Follows(w, StepRows(w, e))
  {
    ConsistentRows(w);
    hide Evolves, Follows, Inv, Consistent, StateModel.AcquireNative, StateModel.ClaimEnrollment, StateModel.ReleaseEnrollment,
         StateModel.DeleteCurrent;
    NothingFollows(w);
    match e
    case AcquireNative(o) => if StateModel.AcquireNative(w.db, o).Ok? { NativeFollows(w, o); }
    case ClaimEnrollment(k, o, f) => if StateModel.ClaimEnrollment(w.db, k, o, f).Ok? { EnrollmentFollows(w, k, o, f); }
    case ReleaseEnrollment(k, o) => ReleaseFollows(w, k, o);
    case DeleteCurrent(k) => DeletionFollows(w, k);
  }

  lemma NativeFollows(w: World, o: Uuid)
    requires Consistent(w.db) && StateModel.AcquireNative(w.db, o).Ok?
    ensures Follows(w, w.(db := StateModel.AcquireNative(w.db, o).value))
  {
    hide Evolves, Follows, Consistent;
    AcquireNativeKeeps(w.db, o);
    RowsFollow(w, StateModel.AcquireNative(w.db, o).value);
  }

  lemma EnrollmentFollows(w: World, k: Key, o: Uuid, f: bool)
    requires Consistent(w.db) && StateModel.ClaimEnrollment(w.db, k, o, f).Ok?
    ensures Follows(w, w.(db := StateModel.ClaimEnrollment(w.db, k, o, f).value))
  {
    hide Evolves, Follows, Consistent;
    ClaimEnrollmentKeeps(w.db, k, o, f);
    RowsFollow(w, StateModel.ClaimEnrollment(w.db, k, o, f).value);
  }

  lemma ReleaseFollows(w: World, k: Key, o: Uuid)
    requires Consistent(w.db)
    ensures Follows(w, w.(db := StateModel.ReleaseEnrollment(w.db, k, o)))
  {
    hide Evolves, Follows, Consistent;
    ReleaseEnrollmentKeeps(w.db, k, o);
    RowsFollow(w, StateModel.ReleaseEnrollment(w.db, k, o));
  }

  lemma DeletionFollows(w: World, k: Key)
    requires Consistent(w.db)
    ensures Follows(w, w.(db := StateModel.DeleteCurrent(w.db, k)))
  {
    hide Evolves, Follows, Consistent;
    DeleteCurrentKeeps(w.db, k);
    RowsFollow(w, StateModel.DeleteCurrent(w.db, k));
  }

  lemma NothingFollows(w: World)
    ensures Evolves(w.db, w.db) && Follows(w, w)
  {
  }

  lemma BeginOperationFollows(w: World, id: Uuid, opening: OperationInput, pid: nat, now: nat)
    requires Inv(w)
    ensures Follows(w, StepRows(w, Event.BeginOperation(id, opening, pid, now)))
  {
    hide Evolves, Follows;
    NothingFollows(w);
    if id !in w.db.operations && StateModel.BeginOperation(w.db, id, opening, pid, now).Ok? {
      BeginOperationEvolves(w.db, id, opening, pid, now);
      RowsFollow(w, StateModel.BeginOperation(w.db, id, opening, pid, now).value);
    }
  }

  lemma AcquireCurrentFollows(w: World, operation: Uuid, checkout: Key)
    requires Inv(w)
    ensures Follows(w, StepRows(w, Event.AcquireCurrent(operation, checkout)))
  {
    hide Evolves, Follows, StateModel.AcquireCurrent;
    NothingFollows(w);
    AcquireMovesNothing(w.db, operation, checkout);
    if StateModel.AcquireCurrent(w.db, operation, checkout).Ok? {
      AcquireCurrentEvolves(w.db, operation, checkout);
      RowsFollow(w, StateModel.AcquireCurrent(w.db, operation, checkout).value.0);
    }
  }

  lemma StepRowsFollows(w: World, e: Event)
    requires Inv(w) && IsRows(e)
    ensures Follows(w, StepRows(w, e))
  {
    hide Evolves, Follows, Inv, StateModel.FinishOperation, StateModel.Recover, StateModel.BeginOperation, StateModel.AcquireCurrent;
    match e
    case BeginOperation(id, opening, pid, now) => BeginOperationFollows(w, id, opening, pid, now);
    case FinishOperation(operation, outcome) =>
      NothingFollows(w);
      if !outcome.Active? { FinishFollows(w, operation, outcome); }
    case Recover(operation, _) => RecoverFollows(w, e);
    case AcquireCurrent(operation, checkout) => AcquireCurrentFollows(w, operation, checkout);
    case _ => ClaimFollows(w, e);
  }

  lemma RecoverFollows(w: World, e: Event)
    requires Inv(w) && e.Recover?
    ensures Follows(w, StepRows(w, e))
  {
    hide Evolves, Follows;
    NothingFollows(w);
    FinishFollows(w, e.operation, Interrupted);
  }

  lemma NewGenerationFollows(w: World, call: nat, id: Uuid, db: Db)
    requires Evolves(w.db, db) && db.current == w.db.current
    requires call !in w.calls && id !in w.issued && db.generations.Keys == w.db.generations.Keys + {id}
    ensures Follows(w, w.(db := db, calls := w.calls[call := Making(id)], issued := w.issued + [id]))
  {
    hide Evolves;
    var after := w.(db := db, calls := w.calls[call := Making(id)], issued := w.issued + [id]);
    forall g <- w.issued | Unbuilt(w, g) ensures Unbuilt(after, g) {
    }
  }

  lemma BeginGenerationFollows(w: World, e: Event)
    requires Inv(w) && e.BeginGeneration?
    ensures Follows(w, StepGeneration(w, e))
  {
    hide Evolves, Follows;
    NothingFollows(w);
    var r := StateModel.BeginGeneration(w.db, e.id, e.input);
    if r.Ok? && e.id !in w.issued && e.call !in w.calls {
      BeginGenerationKeeps(w.db, e.id, e.input);
      NewGenerationFollows(w, e.call, e.id, r.value);
    }
  }

  lemma StepGenerationFollows(w: World, e: Event)
    requires Inv(w) && IsBuilding(e)
    ensures Follows(w, StepGeneration(w, e))
  {
    if e.BeginGeneration? {
      BeginGenerationFollows(w, e);
    } else {
      BuilderFollows(w, e);
    }
  }

  /** Making or filling a staging directory. */
  lemma BuilderFollows(w: World, e: Event)
    requires Inv(w) && (e.MakeTemp? || e.WriteTemp?)
    ensures Follows(w, StepGeneration(w, e))
  {
    NothingFollows(w);
    var after := StepGeneration(w, e);
    hide Inv, Evolves;
    forall g <- w.issued | Unbuilt(w, g) ensures Unbuilt(after, g) && (HasDir(after, g) ==> HasDir(w, g)) {
      if after != w {
        assert Builds(w.calls[e.call], w.calls[e.call].generation);
      }
    }
  }

  lemma PublishCommitFollows(w: World, call: nat)
    requires Inv(w)
    ensures Follows(w, StepPublish(w, Event.PublishCommit(call)))
  {
    NothingFollows(w);
    StopFollows(w, call);
    if InPhase(w, call, Confirmed) {
      var p := w.calls[call];
      assert CallOk(w, p) && Consistent(w.db);
      var r := StateModel.PublishCommit(w.db, p.operation, p.generation, p.seen, p.finalize);
      if r.Ok? {
        PublishCommitEvolves(w.db, p.operation, p.generation, p.seen, p.finalize);
        CommittedCurrent(w.db, p);
        hide Inv, Consistent, Evolves, CallOk, StateModel.PublishCommit;
        CommitFollows(w, r.value, call);
      }
    }
  }

  lemma CommittedCurrent(db: Db, p: Call)
    requires p.Publishing? && StateModel.PublishCommit(db, p.operation, p.generation, p.seen, p.finalize).Ok?
    ensures var after := StateModel.PublishCommit(db, p.operation, p.generation, p.seen, p.finalize).value;
            after.generations.Keys == db.generations.Keys && after.current.Keys <= db.current.Keys + db.writers.Keys
  {
  }

  lemma CommitFollows(w: World, db: Db, call: nat)
    requires Evolves(w.db, db) && db.generations.Keys <= w.db.generations.Keys && db.current.Keys <= w.db.current.Keys + w.db.writers.Keys
    ensures Follows(w, End(w.(db := db), call))
  {
    hide Evolves;
  }

  /** A step of a publication that changes no row: a directory may move from the staging path to the final one. */
  lemma CallsFollow(w: World, after: World, id: Uuid)
    requires after.db == w.db && after.issued == w.issued
    requires forall c <- after.calls :: c in w.calls && (after.calls[c].Publishing? || after.calls[c] == w.calls[c])
    requires || (after.temp == w.temp && after.final == w.final)
             || (id in w.temp && id !in w.final && after.temp == w.temp - {id} && after.final == w.final[id := w.temp[id]])
    ensures Follows(w, after)
  {
    hide Evolves;
    NothingFollows(w);
    forall g <- w.issued | Unbuilt(w, g) ensures Unbuilt(after, g) {
      forall c <- after.calls ensures !Builds(after.calls[c], g) {
        assert !Builds(w.calls[c], g);
      }
    }
  }

  lemma PublishRenameFollows(w: World, call: nat)
    requires Inv(w)
    ensures Follows(w, StepPublish(w, PublishRename(call)))
  {
    PublishRenameKeeps(w, call);
    hide Inv, Follows;
    if InPhase(w, call, Rechecked) {
      CallsFollow(w, StepPublish(w, PublishRename(call)), w.calls[call].generation);
    } else {
      NothingFollows(w);
    }
  }

  lemma StepPublishFollows(w: World, e: Event)
    requires Inv(w) && IsPublish(e)
    ensures Follows(w, StepPublish(w, e))
  {
    hide Inv, Follows;
    if e.PublishCommit? {
      PublishCommitFollows(w, e.call);
    } else if e.PublishRename? {
      PublishRenameFollows(w, e.call);
    } else if e.PublishEnter? {
      PublishEnterFollows(w, e);
    } else {
      CallsFollow(w, StepPublish(w, e), 0);
    }
  }

  lemma PublishEnterFollows(w: World, e: Event)
    requires e.PublishEnter?
    ensures Follows(w, StepPublish(w, e))
  {
    hide Evolves;
    NothingFollows(w);
    var after := StepPublish(w, e);
    forall g <- w.issued | Unbuilt(w, g) ensures Unbuilt(after, g) {
      forall c <- after.calls ensures !Builds(after.calls[c], g) {
        if c in w.calls { assert !Builds(w.calls[c], g); }
      }
    }
  }

  lemma PruneMarkFollows(w: World, e: Event)
    requires Inv(w) && e.PruneMark?
    ensures Follows(w, StepPrune(w, e))
  {
    var chosen := Elements(e.order);
    if chosen <= Candidates(w.db) && e.call !in w.calls {
      PruneMarkKeeps(w.db, chosen);
      var db := StateModel.PruneMark(w.db, chosen).value;
      assert db == w.db.(generations := Mark(w.db.generations, chosen));
      hide Inv, Evolves, Candidates, StateModel.PruneMark;
      MarkFollows(w, db, e.call, Pruning(e.order, Unseen, []));
    } else {
      NothingFollows(w);
    }
  }

  /** Marking rows and starting to prune them. */
  lemma MarkFollows(w: World, db: Db, call: nat, pruning: Call)
    requires Evolves(w.db, db) && db.generations.Keys == w.db.generations.Keys && db.current == w.db.current
    requires call !in w.calls && pruning.Pruning?
    ensures Follows(w, w.(db := db, calls := w.calls[call := pruning]))
  {
    hide Evolves;
    var after := w.(db := db, calls := w.calls[call := pruning]);
    forall g <- w.issued | Unbuilt(w, g) ensures Unbuilt(after, g) {
    }
  }

  lemma PruneDeleteFollows(w: World, e: Event)
    requires Inv(w) && e.PruneDelete?
    ensures Follows(w, StepPrune(w, e))
  {
    NothingFollows(w);
    if e.call in w.calls && w.calls[e.call].Pruning? {
      assert CallOk(w, w.calls[e.call]) && Consistent(w.db);
      PruneDeleteKeeps(w.db, w.calls[e.call].removed);
      var db := StateModel.PruneDelete(w.db, w.calls[e.call].removed).value;
      hide Inv, Consistent, Evolves, StateModel.PruneDelete, CallOk;
      FewerRowsFollow(w, db, e.call);
    }
  }

  lemma FewerRowsFollow(w: World, db: Db, call: nat)
    requires Evolves(w.db, db) && db.generations.Keys <= w.db.generations.Keys && db.current == w.db.current
    ensures Follows(w, End(w.(db := db), call))
  {
    hide Evolves;
  }

  /** Removing the directories of a doomed generation. */
  lemma EraseFollows(w: World, after: World, id: Uuid)
    requires Doomed(w.db, id) && after.db == w.db && after.issued == w.issued
    requires (after.temp == w.temp - {id} && after.final == w.final) || (after.temp == w.temp && after.final == w.final - {id})
    requires forall c <- after.calls :: c in w.calls && (!after.calls[c].Pruning? ==> after.calls[c] == w.calls[c])
    ensures Follows(w, after)
  {
    hide Evolves;
    NothingFollows(w);
    forall g <- w.issued | Unbuilt(w, g) ensures Unbuilt(after, g) {
      forall c <- after.calls ensures !Builds(after.calls[c], g) {
        assert !Builds(w.calls[c], g);
      }
    }
  }

  lemma PruneEraseFollows(w: World, e: Event)
    requires Inv(w) && e.PruneErase?
    ensures Follows(w, StepPrune(w, e))
  {
    hide Evolves, Follows;
    NothingFollows(w);
    var after := StepPrune(w, e);
    if after != w {
      assert CallOk(w, w.calls[e.call]);
      assert Doomed(w.db, w.calls[e.call].todo[0]);
      hide Inv, CallOk;
      EraseFollows(w, after, w.calls[e.call].todo[0]);
    }
  }

  lemma StepPruneFollows(w: World, e: Event)
    requires Inv(w) && IsPrune(e)
    ensures Follows(w, StepPrune(w, e))
  {
    if e.PruneMark? {
      PruneMarkFollows(w, e);
    } else if e.PruneDelete? {
      PruneDeleteFollows(w, e);
    } else if e.PruneErase? {
      PruneEraseFollows(w, e);
    } else {
      hide Evolves;
      NothingFollows(w);
    }
  }

  lemma StepFollows(w: World, e: Event)
    requires Inv(w)
    ensures Follows(w, Step(w, e))
  {
    hide Follows, StepPublish, StepPrune, StepGeneration, StepRows, Inv;
    if e.Stop? {
      StopFollows(w, e.call);
    } else if IsPublish(e) {
      StepPublishFollows(w, e);
    } else if IsPrune(e) {
      StepPruneFollows(w, e);
    } else if IsBuilding(e) {
      StepGenerationFollows(w, e);
    } else {
      StepRowsFollows(w, e);
    }
  }

  lemma StopFollows(w: World, call: nat)
    ensures Follows(w, End(w, call))
  {
  }

  /** Everything the run lemmas need to know about one event. */
  lemma OneStep(w: World, e: Event)
    requires Inv(w)
    ensures Inv(Step(w, e)) && Follows(w, Step(w, e))
  {
    hide Follows, Step, Inv;
    StepKeeps(w, e);
    StepFollows(w, e);
  }

  // ---- A pin lasts as long as its operation ----------------------------------------------------

  lemma {:induction false} PinLasts(w: World, events: seq<Event>, o: Uuid, g: Uuid)
    requires Inv(w) && (o, g) in w.db.pins
    ensures var after := Run(w, events);
            IsActive(after.db, o) ==>
              && (o, g) in after.db.pins
              && g in after.db.generations && after.db.generations[g] == w.db.generations[g]
              && g in after.final && after.final[g] == w.final[g]
    decreases events
  {
    hide Step;
    if events != [] {
      var next := Step(w, events[0]);
      OneStep(w, events[0]);
      if IsActive(next.db, o) {
        PinLasts(next, events[1..], o, g);
      } else {
        StaysInactive(next, events[1..], o);
      }
    }
  }

  /** An operation that left active never returns to it, and holds no pin and no claim. */
  lemma {:induction false} StaysInactive(w: World, events: seq<Event>, o: Uuid)
    requires Inv(w) && o in w.db.operations && !IsActive(w.db, o)
    ensures var after := Run(w, events);
            && o in after.db.operations && after.db.operations[o] == w.db.operations[o]
            && (forall g :: (o, g) !in after.db.pins)
            && (forall k :: !HoldsWriter(after.db, k, o))
            && (forall k <- after.db.enrollments :: after.db.enrollments[k].operation != o)
            && after.db.native != Some(o)
    decreases events
  {
    hide Step;
    if events != [] {
      OneStep(w, events[0]);
      StaysInactive(Step(w, events[0]), events[1..], o);
    }
  }

  /** What `acquireCurrent` returns, in a state the protocol can reach. */
  lemma AcquireCurrentPins(w: World, o: Uuid, checkout: Key)
    requires Inv(w) && StateModel.AcquireCurrent(w.db, o, checkout).Ok?
    ensures var (db, acquired) := StateModel.AcquireCurrent(w.db, o, checkout).value;
            && Step(w, Event.AcquireCurrent(o, checkout)) == w.(db := db)
            && (acquired.current.Some? <==> checkout in w.db.current)
            && (acquired.current.Some? ==>
                  var (id, generation) := acquired.current.value;
                  && w.db.current[checkout] == id && OnDisk(w, id) && (o, id) in db.pins
                  && generation == db.generations[id] && generation.checkout == checkout
                  && (generation.base.Some? <==> acquired.base.Some?)
                  && (acquired.base.Some? ==>
                        var (base, row) := acquired.base.value;
                        && generation.base.value == base && OnDisk(w, base) && (o, base) in db.pins
                        && row == db.generations[base]))
  {
  }

  /**
   What `acquireCurrent` hands out stays exactly as it was handed out, with its base and with both directories,
   under anything that other calls do, until the acquiring operation ends.
   */
  lemma AcquiredGenerationsLast(before: seq<Event>, o: Uuid, checkout: Key, events: seq<Event>)
    requires StateModel.AcquireCurrent(Run(START, before).db, o, checkout).Ok?
    ensures var w := Run(START, before);
            var acquired := StateModel.AcquireCurrent(w.db, o, checkout).value.1;
            var after := Run(Step(w, Event.AcquireCurrent(o, checkout)), events);
            && (acquired.current.Some? <==> checkout in w.db.current)
            && (acquired.current.Some? && IsActive(after.db, o) ==>
                  var (id, generation) := acquired.current.value;
                  && w.db.current[checkout] == id
                  && id in after.db.generations && after.db.generations[id] == generation
                  && id in w.final && id in after.final && after.final[id] == w.final[id]
                  && (generation.base.Some? ==>
                        && acquired.base.Some? && acquired.base.value.0 == generation.base.value
                        && var (base, row) := acquired.base.value;
                        && base in after.db.generations && after.db.generations[base] == row
                        && base in w.final && base in after.final && after.final[base] == w.final[base]))
  {
    hide Step, Inv;
    var w := Run(START, before);
    StartOk();
    RunKeeps(START, before);
    AcquireCurrentPins(w, o, checkout);
    var acquired := StateModel.AcquireCurrent(w.db, o, checkout).value.1;
    if acquired.current.Some? {
      var next := Step(w, Event.AcquireCurrent(o, checkout));
      StepKeeps(w, Event.AcquireCurrent(o, checkout));
      PinLasts(next, events, o, acquired.current.value.0);
      if acquired.base.Some? {
        PinLasts(next, events, o, acquired.base.value.0);
      }
    }
  }

  lemma StartOk()
    ensures Inv(START)
  {
  }

  // ---- Fencing ---------------------------------------------------------------------------------

  /** A generation that prune marked, or whose row is gone, stays so. */
  lemma {:induction false} DoomedForever(w: World, events: seq<Event>, g: Uuid)
    requires Inv(w) && Issued(w, g) && Doomed(w.db, g)
    ensures Issued(Run(w, events), g) && Doomed(Run(w, events).db, g)
    decreases events
  {
    hide Step;
    if events != [] {
      OneStep(w, events[0]);
      DoomedForever(Step(w, events[0]), events[1..], g);
    }
  }

  predicate PublishesAt(w: World, call: nat, o: Uuid, g: Uuid) {
    InPhase(w, call, Confirmed) && w.calls[call].operation == o && w.calls[call].generation == g
  }

  predicate CommitSucceeds(w: World, call: nat) {
    InPhase(w, call, Confirmed) &&
    var p := w.calls[call];
    StateModel.PublishCommit(w.db, p.operation, p.generation, p.seen, p.finalize).Ok?
  }

  /** Once its operation has ended or its generation was marked by prune, a publication commits nothing. */
  lemma LateCommitChangesNothing(w: World, events: seq<Event>, call: nat, o: Uuid, g: Uuid)
    requires Inv(w) && Issued(w, g) && o in w.db.operations
    requires !IsActive(w.db, o) || Doomed(w.db, g)
    requires PublishesAt(Run(w, events), call, o, g)
    ensures !CommitSucceeds(Run(w, events), call)
    ensures var late := Run(w, events);
            Step(late, Event.PublishCommit(call)) == End(late, call)
  {
    hide Run;
    if IsActive(w.db, o) {
      DoomedForever(w, events, g);
    } else {
      StaysInactive(w, events, o);
    }
  }

  predicate Lists(call: Call, g: Uuid) {
    call.Pruning? && (g in call.todo || g in call.removed)
  }

  /** A publication that commits leaves a ready generation on disk, in the directory that was validated. */
  lemma CommitPublishes(w: World, call: nat)
    requires Inv(w) && CommitSucceeds(w, call)
    ensures var p := w.calls[call];
            var after := Step(w, Event.PublishCommit(call));
            && IsActive(w.db, p.operation) && IsStaging(w.db, p.generation)
            && w.db.generations[p.generation].owner == p.operation
            && OnDisk(after, p.generation) && after.final[p.generation].inode == p.inode
            && (p.seen.checkout in after.db.current && after.db.current[p.seen.checkout] == p.generation
                <==> !after.db.generations[p.generation].sourceMoved)
  {
    hide Inv, Step, StateModel.PublishCommit;
    CommitRows(w.db, w.calls[call]);
    ConfirmedIsOnDisk(w, call);
    Commits(w, call);
  }

  lemma Commits(w: World, call: nat)
    requires InPhase(w, call, Confirmed)
    ensures var p := w.calls[call];
            Step(w, Event.PublishCommit(call)) == End(Commit(w, StateModel.PublishCommit(w.db, p.operation, p.generation, p.seen, p.finalize)), call)
  {
  }

  lemma ConfirmedIsOnDisk(w: World, call: nat)
    requires Inv(w) && InPhase(w, call, Confirmed) && IsStaging(w.db, w.calls[call].generation)
    ensures var p := w.calls[call];
            && p.generation in w.final && w.final[p.generation].inode == p.inode
            && (p.seen.checkout in w.db.current ==> w.db.current[p.seen.checkout] != p.generation)
  {
    assert CallOk(w, w.calls[call]);
  }

  /** The rows after a publishing transaction. */
  lemma CommitRows(db: Db, p: Call)
    requires p.Publishing? && StateModel.PublishCommit(db, p.operation, p.generation, p.seen, p.finalize).Ok?
    ensures var after := StateModel.PublishCommit(db, p.operation, p.generation, p.seen, p.finalize).value;
            && IsActive(db, p.operation) && IsStaging(db, p.generation) && db.generations[p.generation].owner == p.operation
            && IsReady(after, p.generation)
            && after.current == (if after.generations[p.generation].sourceMoved then db.current
                                 else db.current[p.seen.checkout := p.generation])
  {
  }

  lemma InPhaseOfCommit(w: World, call: nat)
    requires CommitSucceeds(w, call)
    ensures InPhase(w, call, Confirmed)
  {
  }

  /**
   A commit that succeeds publishes the very directory that was validated, makes it current exactly when its source
   had not moved, and at every earlier moment of the generation's life its operation was active, its row was staging and no prune had it in hand.
   */
  lemma SuccessfulCommitWasNeverFenced(before: seq<Event>, events: seq<Event>, call: nat)
    requires CommitSucceeds(Run(Run(START, before), events), call)
    ensures var w := Run(START, before);
            var late := Run(w, events);
            var p := late.calls[call];
            var after := Step(late, Event.PublishCommit(call));
            && OnDisk(after, p.generation) && after.final[p.generation].inode == p.inode
            && (p.seen.checkout in after.db.current && after.db.current[p.seen.checkout] == p.generation
                <==> !after.db.generations[p.generation].sourceMoved)
            && (Issued(w, p.generation) ==>
                  && IsActive(w.db, p.operation) && IsStaging(w.db, p.generation)
                  && (forall c <- w.calls :: !Lists(w.calls[c], p.generation)))
  {
    hide Step, Run, CommitSucceeds, Inv;
    var w := Run(START, before);
    StartOk();
    RunKeeps(START, before);
    RunKeeps(w, events);
    var late := Run(w, events);
    CommitPublishes(late, call);
    InPhaseOfCommit(late, call);
    var g := late.calls[call].generation;
    if Issued(w, g) {
      if Doomed(w.db, g) {
        DoomedForever(w, events, g);
        assert false;
      }
      StagingSince(w, events, g);
      StagingIsUnlisted(w, g);
    }
  }

  lemma StagingIsUnlisted(w: World, g: Uuid)
    requires Inv(w) && g in w.db.generations && IsStaging(w.db, g)
    ensures forall c <- w.calls :: !Lists(w.calls[c], g)
  {
    forall c <- w.calls ensures !Lists(w.calls[c], g) {
      assert CallOk(w, w.calls[c]);
    }
  }

  /** A row that is staging in the end was staging all along, and its owner was never ended before. */
  lemma {:induction false} StagingSince(w: World, events: seq<Event>, g: Uuid)
    requires Inv(w) && g in w.db.generations && IsStaging(Run(w, events).db, g)
    requires IsActive(Run(w, events).db, Run(w, events).db.generations[g].owner)
    ensures IsStaging(w.db, g) && w.db.generations[g].owner == Run(w, events).db.generations[g].owner
    ensures IsActive(w.db, w.db.generations[g].owner)
    decreases events
  {
    hide Step, Inv, Follows, Evolves;
    if events != [] {
      var next := Step(w, events[0]);
      OneStep(w, events[0]);
      if g !in next.db.generations {
        RowIsIssued(w, next, g);
        DoomedForever(next, events[1..], g);
        assert false;
      }
      StagingSince(next, events[1..], g);
      StagingBefore(w, next, g);
    }
  }

  lemma RowIsIssued(w: World, next: World, g: Uuid)
    requires Inv(w) && Follows(w, next) && g in w.db.generations
    ensures Issued(next, g)
  {
    assert Issued(w, g);
  }

  /** One event back from a staging row with an active owner. */
  lemma StagingBefore(w: World, next: World, g: Uuid)
    requires Inv(w) && Follows(w, next) && g in w.db.generations && IsStaging(next.db, g)
    requires IsActive(next.db, next.db.generations[g].owner)
    ensures IsStaging(w.db, g) && w.db.generations[g].owner == next.db.generations[g].owner
    ensures IsActive(w.db, w.db.generations[g].owner)
  {
    assert OwnersOk(w.db);
  }

  // ---- Exclusion -------------------------------------------------------------------------------

  /** Claims belong to active operations, and a forget's claim leaves no room for a writer. */
  lemma ClaimsExclude(events: seq<Event>)
    ensures var db := Run(START, events).db;
            && (forall k, o | HoldsWriter(db, k, o) :: IsActive(db, o) && !(k in db.enrollments && db.enrollments[k].forgetting))
            && (forall k <- db.enrollments :: IsActive(db, db.enrollments[k].operation))
            && (db.native.Some? ==> IsActive(db, db.native.value))
  {
    hide Run;
    StartOk();
    RunKeeps(START, events);
  }

  /** The forget that holds `claim` on `checkout` keeps it at every state of the run. */
  ghost predicate ClaimHeld(w: World, events: seq<Event>, checkout: Key, claim: EnrollmentClaim)
    decreases events
  {
    && checkout in w.db.enrollments && w.db.enrollments[checkout] == claim
    && (events != [] ==> ClaimHeld(Step(w, events[0]), events[1..], checkout, claim))
  }

  /** While a forget holds its claim, nothing re-creates the current pointer it has deleted. */
  lemma {:induction false} ForgottenStaysForgotten(w: World, events: seq<Event>, checkout: Key, claim: EnrollmentClaim)
    requires Inv(w) && claim.forgetting && ClaimHeld(w, events, checkout, claim)
    requires checkout !in w.db.current
    ensures checkout !in Run(w, events).db.current
    decreases events
  {
    hide Step;
    if events != [] {
      OneStep(w, events[0]);
      ForgottenStaysForgotten(Step(w, events[0]), events[1..], checkout, claim);
    }
  }
}
