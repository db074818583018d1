/**
 The invariant of the transition system, kept by every event and so by every run.
 */
module ProtocolInvariant {
  import opened Wrappers
  import opened Contracts
  import opened StateModel
  import opened StateInvariant
  import opened Protocol

  /** A generation that can no longer be published: its row is gone or is being deleted. */
  predicate Doomed(db: Db, id: Uuid) {
    id in db.generations ==> db.generations[id].status.Deleting?
  }

  predicate Issued(w: World, id: Uuid) {
    id in w.issued
  }

  ghost predicate IdsOk(w: World) {
    && (forall i, j :: 0 <= i < j < |w.issued| ==> w.issued[i] != w.issued[j])
    && (forall g <- w.db.generations :: Issued(w, g))
    && (forall g <- w.temp :: Issued(w, g))
    && (forall g <- w.final :: Issued(w, g))
  }

  /** Every base was issued before the generations built on it. */
  ghost predicate BasesEarlier(w: World) {
    forall j | 0 <= j < |w.issued| && w.issued[j] in w.db.generations && w.db.generations[w.issued[j]].base.Some? ::
      w.db.generations[w.issued[j]].base.value in w.issued[..j]
  }

  ghost predicate DirsOk(w: World) {
    && (forall g <- w.db.generations | IsReady(w.db, g) :: g in w.final)
    && w.temp.Keys !! w.final.Keys
  }

  /** What a call in progress relies on. */
  ghost predicate CallOk(w: World, call: Call) {
    match call
    case Making(g) => Issued(w, g) && g !in w.temp && g !in w.final
    case Writing(g) => Issued(w, g) && g !in w.final
    case Publishing(o, g, seen, inode, _, phase) =>
      && Issued(w, g)
      && seen.owner == o
      && (g in w.db.generations ==> SameIdentity(seen, w.db.generations[g]))
      && (!phase.Opened? && g in w.temp ==> w.temp[g].inode == inode)
      && (!phase.Opened? && g in w.final ==> w.final[g].inode == inode)
      && (phase.Renamed? || phase.Confirmed? ==> IsStaging(w.db, g) ==> g in w.final)
    case Pruning(todo, _, removed) =>
      && (forall g <- todo :: Issued(w, g) && Doomed(w.db, g))
      && (forall g <- removed :: Issued(w, g) && Doomed(w.db, g))
  }

  /** Only prunes work on a generation beside its builder. */
  ghost predicate BuildsAlone(w: World) {
    forall c, d | c in w.calls && d in w.calls && c != d && !w.calls[c].Pruning? && !w.calls[d].Pruning? ::
      Builds(w.calls[c], w.calls[c].generation) ==> w.calls[d].generation != w.calls[c].generation
  }

  ghost predicate CallsOk(w: World) {
    (forall c <- w.calls :: CallOk(w, w.calls[c])) && BuildsAlone(w)
  }

  ghost predicate Inv(w: World) {
    Consistent(w.db) && IdsOk(w) && BasesEarlier(w) && DirsOk(w) && CallsOk(w)
  }

  lemma CallSurvives(w: World, db: Db, call: Call)
    requires CallOk(w, call)
    requires GenerationsEvolve(w.db, db) && db.generations.Keys <= w.db.generations.Keys
    ensures CallOk(w.(db := db), call)
  {
  }

  /** A transaction that inserts no generation and makes none ready whose directory is missing. */
  lemma DbStepKeeps(w: World, db: Db)
    requires Inv(w) && Consistent(db) && GenerationsEvolve(w.db, db)
    requires db.generations.Keys <= w.db.generations.Keys
    requires forall g <- db.generations | IsReady(db, g) :: g in w.final
    ensures Inv(w.(db := db))
  {
    var after := w.(db := db);
    assert IdsOk(after) && DirsOk(after) && BasesEarlier(after) && Consistent(after.db) by {
      assert IdsOk(w) && DirsOk(w) && BasesEarlier(w);
    }
    assert CallsOk(after) by {
      forall c <- after.calls ensures CallOk(after, after.calls[c]) {
        CallSurvives(w, db, w.calls[c]);
      }
    }
  }

  lemma CommitKeeps(w: World, outcome: Result<Db, ErrorCode>)
    requires Inv(w)
    requires outcome.Ok? ==> Consistent(outcome.value) && Evolves(w.db, outcome.value)
    requires outcome.Ok? ==> outcome.value.generations == w.db.generations
    ensures Inv(Commit(w, outcome))
  {
    if outcome.Ok? {
      DbStepKeeps(w, outcome.value);
    }
  }

  lemma EndKeeps(w: World, call: nat)
    requires Inv(w)
    ensures Inv(End(w, call))
  {
    var after := End(w, call);
    forall c <- after.calls ensures CallOk(after, after.calls[c]) {
      assert CallOk(w, w.calls[c]);
    }
  }

  /** Starting a call, or moving it on, when nothing but the call changes. */
  lemma CallKeeps(w: World, call: nat, c: Call)
    requires Inv(w) && CallOk(w, c)
    requires c.Publishing? || c.Pruning?
    requires c.Publishing? ==> forall d <- w.calls | d != call :: !Builds(w.calls[d], c.generation)
    ensures Inv(w.(calls := w.calls[call := c]))
  {
    var after := w.(calls := w.calls[call := c]);
    forall d <- after.calls ensures CallOk(after, after.calls[d]) {
      assert CallOk(w, if d == call then c else w.calls[d]);
    }
  }

  // ---- Rows ------------------------------------------------------------------------------------

  lemma BeginOperationStepKeeps(w: World, e: Event)
    requires Inv(w) && e.BeginOperation?
    ensures Inv(StepRows(w, e))
  {
    var r := StateModel.BeginOperation(w.db, e.id, e.opening, e.pid, e.now);
    if e.id !in w.db.operations {
      if r.Ok? {
        BeginOperationConsistent(w.db, e.id, e.opening, e.pid, e.now);
        BeginOperationEvolves(w.db, e.id, e.opening, e.pid, e.now);
      }
      CommitKeeps(w, r);
    }
  }

  lemma FinishKeeps(w: World, operation: Uuid, outcome: OperationState)
    requires Inv(w) && !outcome.Active?
    ensures Inv(w.(db := StateModel.FinishOperation(w.db, operation, outcome)))
  {
    FinishOperationConsistent(w.db, operation, outcome);
    FinishOperationEvolves(w.db, operation, outcome);
    CommitKeeps(w, Ok(StateModel.FinishOperation(w.db, operation, outcome)));
  }

  lemma ConsistentRows(w: World)
    requires Inv(w)
    ensures Consistent(w.db)
  {
  }

  lemma AcquireCurrentStepKeeps(w: World, e: Event)
    requires Inv(w) && e.AcquireCurrent?
    ensures Inv(StepRows(w, e))
  {
    hide Inv, Consistent, Evolves, StateModel.AcquireCurrent;
    ConsistentRows(w);
    AcquireMovesNothing(w.db, e.operation, e.checkout);
    var r := StateModel.AcquireCurrent(w.db, e.operation, e.checkout);
    if r.Ok? {
      AcquireCurrentConsistent(w.db, e.operation, e.checkout);
      AcquireCurrentEvolves(w.db, e.operation, e.checkout);
      CommitKeeps(w, Ok(r.value.0));
    }
  }

  lemma ClaimStepKeeps(w: World, e: Event)
    requires Inv(w) && (e.AcquireNative? || e.ClaimEnrollment? || e.ReleaseEnrollment? || e.DeleteCurrent?)
    ensures Inv(StepRows(w, e))
  {
    hide Inv, Consistent, Evolves;
    ConsistentRows(w);
    match e
    case AcquireNative(operation) =>
      if StateModel.AcquireNative(w.db, operation).Ok? {
        AcquireNativeKeeps(w.db, operation);
      }
      CommitKeeps(w, StateModel.AcquireNative(w.db, operation));
    case ClaimEnrollment(checkout, operation, forgetting) =>
      if StateModel.ClaimEnrollment(w.db, checkout, operation, forgetting).Ok? {
        ClaimEnrollmentKeeps(w.db, checkout, operation, forgetting);
      }
      CommitKeeps(w, StateModel.ClaimEnrollment(w.db, checkout, operation, forgetting));
    case ReleaseEnrollment(checkout, operation) =>
      ReleaseEnrollmentKeeps(w.db, checkout, operation);
      CommitKeeps(w, Ok(StateModel.ReleaseEnrollment(w.db, checkout, operation)));
    case DeleteCurrent(checkout) =>
      DeleteCurrentKeeps(w.db, checkout);
      CommitKeeps(w, Ok(StateModel.DeleteCurrent(w.db, checkout)));
  }

  lemma StepRowsKeeps(w: World, e: Event)
    requires Inv(w)
    requires IsRows(e)
    ensures Inv(StepRows(w, e))
  {
    match e
    case BeginOperation(_, _, _, _) => BeginOperationStepKeeps(w, e);
    case FinishOperation(operation, outcome) =>
      if !outcome.Active? {
        FinishKeeps(w, operation, outcome);
      }
    case Recover(operation, seen) => FinishKeeps(w, operation, Interrupted);
    case AcquireCurrent(_, _) => AcquireCurrentStepKeeps(w, e);
    case _ => ClaimStepKeeps(w, e);
  }

  // ---- Generations -----------------------------------------------------------------------------

  lemma BeginGenerationBases(w: World, id: Uuid, input: GenerationInput)
    requires Consistent(w.db) && IdsOk(w) && BasesEarlier(w)
    requires id !in w.issued && StateModel.BeginGeneration(w.db, id, input).Ok?
    ensures BasesEarlier(w.(db := StateModel.BeginGeneration(w.db, id, input).value, issued := w.issued + [id]))
  {
    var db := StateModel.BeginGeneration(w.db, id, input).value;
    var issued := w.issued + [id];
    forall j | 0 <= j < |issued| && issued[j] in db.generations && db.generations[issued[j]].base.Some?
      ensures db.generations[issued[j]].base.value in issued[..j]
    {
      var base := db.generations[issued[j]].base.value;
      if j < |w.issued| {
        assert w.issued[j] == issued[j] && w.issued[..j] == issued[..j];
        assert base in w.issued[..j];
      } else {
        assert Issued(w, base);
        assert issued[..j] == w.issued;
      }
    }
  }

  lemma InsertionSpares(w: World, after: World, c: Call, id: Uuid)
    requires CallOk(w, c) && id !in w.issued && after.temp == w.temp && after.final == w.final && after.issued == w.issued + [id]
    requires GenerationsEvolve(w.db, after.db) && after.db.generations.Keys == w.db.generations.Keys + {id}
    ensures CallOk(after, c)
  {
    assert forall g :: Issued(w, g) ==> Issued(after, g) && g != id;
  }

  lemma BeginGenerationCalls(w: World, call: nat, id: Uuid, db: Db)
    requires Inv(w) && call !in w.calls && id !in w.issued
    requires GenerationsEvolve(w.db, db) && db.generations.Keys == w.db.generations.Keys + {id}
    ensures CallsOk(w.(db := db, calls := w.calls[call := Making(id)], issued := w.issued + [id]))
  {
    var after := w.(db := db, calls := w.calls[call := Making(id)], issued := w.issued + [id]);
    assert !Issued(w, id) && Issued(after, id) && IdsOk(w);
    forall c <- after.calls ensures CallOk(after, after.calls[c]) {
      if c != call {
        assert CallOk(w, w.calls[c]);
        InsertionSpares(w, after, w.calls[c], id);
      }
    }
    forall d <- w.calls | !w.calls[d].Pruning? ensures w.calls[d].generation != id {
      assert CallOk(w, w.calls[d]);
    }
    assert BuildsAlone(w);
  }

  lemma BeginGenerationIds(w: World, after: World, id: Uuid)
    requires IdsOk(w) && DirsOk(w) && id !in w.issued && after.issued == w.issued + [id]
    requires after.temp == w.temp && after.final == w.final && after.db.generations.Keys == w.db.generations.Keys + {id}
    requires forall g <- after.db.generations | IsReady(after.db, g) :: g in w.db.generations && IsReady(w.db, g)
    ensures IdsOk(after) && DirsOk(after)
  {
    assert forall g :: Issued(after, g) <==> Issued(w, g) || g == id;
  }

  lemma BeginGenerationStepKeeps(w: World, call: nat, id: Uuid, input: GenerationInput)
    requires Inv(w)
    ensures Inv(StepGeneration(w, Event.BeginGeneration(call, id, input)))
  {
    var r := StateModel.BeginGeneration(w.db, id, input);
    if call !in w.calls && id !in w.issued && r.Ok? {
      BeginGenerationKeeps(w.db, id, input);
      BeginGenerationBases(w, id, input);
      BeginGenerationCalls(w, call, id, r.value);
      var after := w.(db := r.value, calls := w.calls[call := Making(id)], issued := w.issued + [id]);
      assert StepGeneration(w, Event.BeginGeneration(call, id, input)) == after;
      hide CallsOk, Consistent, Evolves, StateModel.BeginGeneration;
      BeginGenerationIds(w, after, id);
    }
  }

  lemma MakeTempKeeps(w: World, call: nat)
    requires Inv(w)
    ensures Inv(StepGeneration(w, MakeTemp(call)))
  {
    if call in w.calls && w.calls[call].Making? {
      assert CallOk(w, w.calls[call]);
      var after, id := StepGeneration(w, MakeTemp(call)), w.calls[call].generation;
      WrittenRows(w, after, id);
      hide Consistent, IdsOk, DirsOk, BasesEarlier, StepGeneration, CallOk;
      assert Builds(w.calls[call], id);
      forall c <- after.calls ensures CallOk(after, after.calls[c]) {
        if c != call { WriteSurvives(w, after, id, w.calls[c]); } else { WritingOk(after, id); }
      }
    }
  }

  lemma WritingOk(w: World, id: Uuid)
    requires Issued(w, id) && id !in w.final
    ensures CallOk(w, Writing(id))
  {
  }

  lemma WriteTempKeeps(w: World, call: nat, store: Store, last: bool)
    requires Inv(w)
    ensures Inv(StepGeneration(w, WriteTemp(call, store, last)))
  {
    if call in w.calls && w.calls[call].Writing? {
      var after := StepGeneration(w, WriteTemp(call, store, last));
      WrittenRows(w, after, w.calls[call].generation);
      hide Consistent, IdsOk, DirsOk, BasesEarlier, StepGeneration, CallOk;
      assert Builds(w.calls[call], w.calls[call].generation);
      forall c <- after.calls ensures CallOk(after, after.calls[c]) {
        WriteSurvives(w, after, w.calls[call].generation, w.calls[c]);
      }
    }
  }

  lemma WriteSurvives(w: World, after: World, id: Uuid, c: Call)
    requires CallOk(w, c) && (c.Writing? || c.Pruning? || c.generation != id)
    requires after == w.(temp := after.temp, calls := after.calls, inodes := after.inodes)
    requires forall g :: g != id ==> (g in after.temp <==> g in w.temp) && (g in w.temp ==> after.temp[g] == w.temp[g])
    ensures CallOk(after, c)
  {
  }

  lemma WrittenRows(w: World, after: World, id: Uuid)
    requires Inv(w) && Issued(w, id) && id !in w.final && after == w.(temp := after.temp, calls := after.calls, inodes := after.inodes)
    requires after.temp.Keys == w.temp.Keys + {id}
    ensures Consistent(after.db) && IdsOk(after) && BasesEarlier(after) && DirsOk(after)
  {
    hide Consistent, CallsOk;
  }

  // ---- Publication -----------------------------------------------------------------------------

  lemma PublishEnterKeeps(w: World, call: nat, operation: Uuid, id: Uuid, finalize: Option<Finalize>)
    requires Inv(w)
    ensures Inv(StepPublish(w, PublishEnter(call, operation, id, finalize)))
  {
    var entry := PublishEntry(w.db, operation, id);
    if call !in w.calls && entry.Ok? && Unbuilt(w, id) {
      assert Issued(w, id);
      CallKeeps(w, call, Publishing(operation, id, entry.value, 0, finalize, Opened));
    }
  }

  lemma PublishStatKeeps(w: World, call: nat)
    requires Inv(w)
    ensures Inv(StepPublish(w, PublishStat(call)))
  {
    EndKeeps(w, call);
    if InPhase(w, call, Opened) && w.calls[call].generation in w.temp {
      var p := w.calls[call];
      assert CallOk(w, p);
      CallKeeps(w, call, p.(inode := w.temp[p.generation].inode, phase := Entered));
    }
  }

  lemma PublishRenameKeeps(w: World, call: nat)
    requires Inv(w)
    ensures Inv(StepPublish(w, PublishRename(call)))
    ensures InPhase(w, call, Rechecked) && w.calls[call].generation in w.temp ==> w.calls[call].generation !in w.final
  {
    if InPhase(w, call, Rechecked) {
      assert CallOk(w, w.calls[call]);
      if w.calls[call].generation in w.temp {
        var after := StepPublish(w, PublishRename(call));
        forall c <- after.calls ensures CallOk(after, after.calls[c]) {
          assert CallOk(w, w.calls[c]);
        }
      } else {
        EndKeeps(w, call);
      }
    }
  }

  lemma PublishCommitStepKeeps(w: World, call: nat)
    requires Inv(w)
    ensures Inv(StepPublish(w, Event.PublishCommit(call)))
  {
    hide Inv, StateModel.PublishCommit, Consistent, GenerationsEvolve;
    if InPhase(w, call, Confirmed) {
      var p := w.calls[call];
      var r := StateModel.PublishCommit(w.db, p.operation, p.generation, p.seen, p.finalize);
      if r.Ok? {
        CommittedRows(w, call);
        DbStepKeeps(w, r.value);
        EndKeeps(w.(db := r.value), call);
      } else {
        EndKeeps(w, call);
      }
    }
  }

  lemma CommittedRows(w: World, call: nat)
    requires Inv(w) && InPhase(w, call, Confirmed)
    requires var p := w.calls[call]; StateModel.PublishCommit(w.db, p.operation, p.generation, p.seen, p.finalize).Ok?
    ensures var p := w.calls[call];
            var db := StateModel.PublishCommit(w.db, p.operation, p.generation, p.seen, p.finalize).value;
            && Consistent(db) && GenerationsEvolve(w.db, db) && db.generations.Keys <= w.db.generations.Keys
            && forall g <- db.generations | IsReady(db, g) :: g in w.final
  {
    var p := w.calls[call];
    assert CallOk(w, p);
    PublishCommitConsistent(w.db, p.operation, p.generation, p.seen, p.finalize);
    PublishCommitEvolves(w.db, p.operation, p.generation, p.seen, p.finalize);
    hide Consistent, SameIdentity, CallsOk, IdsOk, BasesEarlier;
  }

  lemma StepPublishKeeps(w: World, e: Event)
    requires Inv(w)
    requires IsPublish(e)
    ensures Inv(StepPublish(w, e))
  {
    match e
    case PublishEnter(call, operation, id, finalize) => PublishEnterKeeps(w, call, operation, id, finalize);
    case PublishRename(call) => PublishRenameKeeps(w, call);
    case PublishCommit(call) => PublishCommitStepKeeps(w, call);
    case PublishStat(call) => PublishStatKeeps(w, call);
    case PublishAccept(call) => AdvanceKeeps(w, call, Entered, Accepted);
    case PublishFree(call) => AdvanceKeeps(w, call, Accepted, Free);
    case PublishRecheck(call) => AdvanceKeeps(w, call, Free, Rechecked);
    case PublishConfirm(call) => AdvanceKeeps(w, call, Renamed, Confirmed);
  }

  lemma AdvanceKeeps(w: World, call: nat, from: Phase, to: Phase)
    requires Inv(w)
    requires !from.Opened? && (to.Accepted? || to.Free? || to.Rechecked? || (from.Renamed? && to.Confirmed?))
    ensures Inv(End(w, call))
    ensures InPhase(w, call, from) ==> Inv(Advance(w, call, to))
  {
    EndKeeps(w, call);
    if InPhase(w, call, from) {
      assert CallOk(w, w.calls[call]);
      CallKeeps(w, call, w.calls[call].(phase := to));
    }
  }

  // ---- Prune -----------------------------------------------------------------------------------

  lemma PruneDeleteKeeps(db: Db, removed: seq<Uuid>)
    requires Consistent(db)
    requires forall g <- removed :: Doomed(db, g)
    ensures StateModel.PruneDelete(db, removed).Ok?
    ensures var after := StateModel.PruneDelete(db, removed).value;
            && Consistent(after) && Evolves(db, after)
            && after.generations == (map g | g in db.generations && g !in removed :: db.generations[g])
            && after == db.(generations := after.generations)
  {
    hide Consistent, StateModel.PruneDelete;
    DeletedRows(db, removed);
  }

  lemma {:induction false} DeletedRows(db: Db, removed: seq<Uuid>)
    requires Consistent(db)
    requires forall g <- removed :: Doomed(db, g)
    ensures StateModel.PruneDelete(db, removed).Ok?
    ensures var after := StateModel.PruneDelete(db, removed).value;
            && Consistent(after) && after == db.(generations := Without(db.generations, removed))
    decreases removed
  {
    hide Consistent, Evolves;
    if removed == [] {
      assert Without(db.generations, []) == db.generations;
    } else {
      assert Doomed(db, removed[0]);
      DeleteRowKeeps(db, removed[0]);
      DeletedRow(db, removed[0]);
      var rest := DeleteRow(db, removed[0]).value;
      forall g <- removed[1..] ensures Doomed(rest, g) {
        assert Doomed(db, g);
      }
      DeletedRows(rest, removed[1..]);
      assert Without(Without(db.generations, [removed[0]]), removed[1..]) == Without(db.generations, removed);
    }
  }

  function Without(generations: map<Uuid, Generation>, removed: seq<Uuid>): map<Uuid, Generation> {
    map g | g in generations && g !in removed :: generations[g]
  }

  lemma DeletedRow(db: Db, id: Uuid)
    requires Consistent(db) && Doomed(db, id)
    ensures DeleteRow(db, id).Ok? && DeleteRow(db, id).value == db.(generations := Without(db.generations, [id]))
  {
  }

  lemma PruneMarkStepKeeps(w: World, call: nat, order: seq<Uuid>)
    requires Inv(w)
    ensures Inv(StepPrune(w, Event.PruneMark(call, order)))
  {
    var chosen := Elements(order);
    if call !in w.calls && chosen <= Candidates(w.db) {
      PruneMarkKeeps(w.db, chosen);
      var marked := StateModel.PruneMark(w.db, chosen).value;
      DbStepKeeps(w, marked);
      forall g <- order ensures Issued(w, g) && Doomed(marked, g) {
        assert g in chosen && g in Candidates(w.db);
      }
      CallKeeps(w.(db := marked), call, Pruning(order, Unseen, []));
    }
  }

  lemma EraseSurvives(w: World, id: Uuid, call: Call)
    requires CallOk(w, call) && Doomed(w.db, id)
    ensures CallOk(w.(temp := w.temp - {id}), call)
    ensures CallOk(w.(final := w.final - {id}), call)
  {
  }

  lemma EraseKeeps(w: World, id: Uuid)
    requires Inv(w) && Doomed(w.db, id)
    ensures Inv(w.(temp := w.temp - {id}))
    ensures Inv(w.(final := w.final - {id}))
  {
    forall c <- w.calls
      ensures CallOk(w.(temp := w.temp - {id}), w.calls[c]) && CallOk(w.(final := w.final - {id}), w.calls[c])
    {
      EraseSurvives(w, id, w.calls[c]);
    }
  }

  lemma PruneEraseKeeps(w: World, call: nat)
    requires Inv(w)
    ensures Inv(StepPrune(w, PruneErase(call)))
  {
    if StepPrune(w, PruneErase(call)) != w {
      var p := w.calls[call];
      assert CallOk(w, p);
      var id := p.todo[0];
      EraseKeeps(w, id);
      var erased := if p.look.rest[0].TempSide? then w.(temp := w.temp - {id}) else w.(final := w.final - {id});
      CallKeeps(erased, call, p.(look := Paths(p.look.rest[1..])));
    }
  }

  lemma StepPruneKeeps(w: World, e: Event)
    requires Inv(w)
    requires IsPrune(e)
    ensures Inv(StepPrune(w, e))
  {
    match e
    case PruneMark(call, order) => PruneMarkStepKeeps(w, call, order);
    case PruneErase(call) => PruneEraseKeeps(w, call);
    case PruneLook(call) =>
      if StepPrune(w, e) != w {
        assert CallOk(w, w.calls[call]);
        CallKeeps(w, call, StepPrune(w, e).calls[call]);
      }
    case PruneNext(call) =>
      if StepPrune(w, e) != w {
        var p := w.calls[call];
        assert CallOk(w, p);
        CallKeeps(w, call, Pruning(p.todo[1..], Unseen, p.removed + [p.todo[0]]));
      }
    case PruneDelete(call) =>
      if call in w.calls && w.calls[call].Pruning? {
        assert CallOk(w, w.calls[call]);
        PruneDeleteKeeps(w.db, w.calls[call].removed);
        var after := StateModel.PruneDelete(w.db, w.calls[call].removed).value;
        DbStepKeeps(w, after);
        EndKeeps(w.(db := after), call);
      }
  }

  // ---- Every event and every run ---------------------------------------------------------------

  lemma StepKeeps(w: World, e: Event)
    requires Inv(w)
    ensures Inv(Step(w, e))
  {
    if e.Stop? {
      EndKeeps(w, e.call);
    } else if IsPublish(e) {
      StepPublishKeeps(w, e);
    } else if IsPrune(e) {
      StepPruneKeeps(w, e);
    } else if e.BeginGeneration? {
      BeginGenerationStepKeeps(w, e.call, e.id, e.input);
    } else if e.MakeTemp? {
      MakeTempKeeps(w, e.call);
    } else if e.WriteTemp? {
      WriteTempKeeps(w, e.call, e.store, e.last);
    } else {
      StepRowsKeeps(w, e);
    }
  }

  lemma {:induction false} RunKeeps(w: World, events: seq<Event>)
    requires Inv(w)
    ensures Inv(Run(w, events))
    decreases events
  {
    if events != [] {
      StepKeeps(w, events[0]);
      RunKeeps(Step(w, events[0]), events[1..]);
    }
  }
}
