/**
 What every transaction keeps about the rows, and how rows may change over time.
 */
module StateInvariant {
  import opened Wrappers
  import opened Contracts
  import opened StateModel

  /** A current pointer names a ready generation of its checkout whose source had not moved. */
  ghost predicate CurrentOk(db: Db) {
    forall k <- db.current ::
      && IsReady(db, db.current[k])
      && db.generations[db.current[k]].checkout == k
      && !db.generations[db.current[k]].sourceMoved
  }

  ghost predicate PinsOk(db: Db) {
    forall o, g | (o, g) in db.pins :: IsActive(db, o) && IsReady(db, g)
  }

  /** Exactly the overlays have a base, and it is ready, of the same repository and compatibility. */
  ghost predicate BasesOk(db: Db) {
    forall g <- db.generations ::
      var generation := db.generations[g];
      && (generation.base.Some? <==> generation.kind.Overlay?)
      && (generation.base.Some? ==>
            && IsReady(db, generation.base.value)
            && db.generations[generation.base.value].repo == generation.repo
            && db.generations[generation.base.value].compatibility == generation.compatibility)
  }

  ghost predicate OwnersOk(db: Db) {
    forall g <- db.generations :: db.generations[g].owner in db.operations
  }

  /** Every claim is held by an active operation, and a forget excludes the writer. */
  ghost predicate ClaimsOk(db: Db) {
    && (forall k <- db.writers :: IsActive(db, db.writers[k]))
    && (forall k <- db.enrollments ::
          && IsActive(db, db.enrollments[k].operation)
          && (db.enrollments[k].forgetting ==> k !in db.writers))
    && (db.native.Some? ==> IsActive(db, db.native.value))
  }

  ghost predicate Consistent(db: Db) {
    CurrentOk(db) && PinsOk(db) && BasesOk(db) && OwnersOk(db) && ClaimsOk(db)
  }

  /** The columns of a generation that no statement updates. */
  predicate SameIdentity(a: Generation, b: Generation) {
    b == a.(status := b.status, sourceMoved := b.sourceMoved, bytes := b.bytes)
  }

  predicate Advances(a: Status, b: Status) {
    a == b || a.Staging? || b.Deleting?
  }

  /** Operation rows are never deleted, change only their state, and never return to active. */
  ghost predicate OperationsEvolve(a: Db, b: Db) {
    forall o <- a.operations ::
      && o in b.operations
      && b.operations[o] == a.operations[o].(state := b.operations[o].state)
      && (!a.operations[o].state.Active? ==> b.operations[o] == a.operations[o])
  }

  /** Only a deleting generation row disappears, and only a staging row appears. */
  ghost predicate GenerationsEvolve(a: Db, b: Db) {
    && (forall g <- a.generations ::
          if g in b.generations then
            && SameIdentity(a.generations[g], b.generations[g])
            && Advances(a.generations[g].status, b.generations[g].status)
            && (a.generations[g].status == b.generations[g].status ==> a.generations[g] == b.generations[g])
          else a.generations[g].status.Deleting?)
    && (forall g <- b.generations :: g in a.generations || b.generations[g].status.Staging?)
  }

  /** An operation keeps its pins, its writer claims and the native slot for as long as it is active. */
  ghost predicate HoldingsEvolve(a: Db, b: Db) {
    && (forall o, g | (o, g) in a.pins && IsActive(b, o) :: (o, g) in b.pins)
    && (forall k <- a.writers | IsActive(b, a.writers[k]) :: HoldsWriter(b, k, a.writers[k]))
    && (a.native.Some? && IsActive(b, a.native.value) ==> b.native == a.native)
  }

  /** How one transaction may change existing rows. */
  ghost predicate Evolves(a: Db, b: Db) {
    OperationsEvolve(a, b) && GenerationsEvolve(a, b) && HoldingsEvolve(a, b)
  }

  lemma BeginOperationConsistent(db: Db, id: Uuid, input: OperationInput, pid: nat, now: nat)
    requires id !in db.operations
    requires Consistent(db)
    requires BeginOperation(db, id, input, pid, now).Ok?
    ensures Consistent(BeginOperation(db, id, input, pid, now).value)
  {
    var after := BeginOperation(db, id, input, pid, now).value;
    assert CurrentOk(after) && PinsOk(after);
    assert BasesOk(after) && OwnersOk(after);
  }

  lemma BeginOperationEvolves(db: Db, id: Uuid, input: OperationInput, pid: nat, now: nat)
    requires id !in db.operations
    requires Consistent(db)
    requires BeginOperation(db, id, input, pid, now).Ok?
    ensures Evolves(db, BeginOperation(db, id, input, pid, now).value)
  {
  }

  lemma FinishOperationConsistent(db: Db, operation: Uuid, outcome: OperationState)
    requires !outcome.Active?
    requires Consistent(db)
    ensures Consistent(FinishOperation(db, operation, outcome))
  {
    var after := FinishOperation(db, operation, outcome);
    assert CurrentOk(after) && PinsOk(after);
    assert BasesOk(after) && OwnersOk(after);
  }

  lemma FinishOperationEvolves(db: Db, operation: Uuid, outcome: OperationState)
    requires !outcome.Active?
    requires Consistent(db)
    ensures Evolves(db, FinishOperation(db, operation, outcome))
  {
  }

  lemma AcquireNativeKeeps(db: Db, operation: Uuid)
    requires Consistent(db)
    requires AcquireNative(db, operation).Ok?
    ensures Consistent(AcquireNative(db, operation).value) && Evolves(db, AcquireNative(db, operation).value)
  {
  }

  lemma BeginGenerationKeeps(db: Db, id: Uuid, input: GenerationInput)
    requires id !in db.generations
    requires Consistent(db)
    requires BeginGeneration(db, id, input).Ok?
    ensures Consistent(BeginGeneration(db, id, input).value) && Evolves(db, BeginGeneration(db, id, input).value)
  {
  }

  lemma AcquireCurrentConsistent(db: Db, operation: Uuid, checkout: Key)
    requires Consistent(db)
    requires AcquireCurrent(db, operation, checkout).Ok?
    ensures Consistent(AcquireCurrent(db, operation, checkout).value.0)
  {
    AcquireAddsPins(db, operation, checkout);
    MorePins(db, AcquireCurrent(db, operation, checkout).value.0.pins);
  }

  /** Acquiring adds pins of an active operation on ready generations, and changes nothing else. */
  lemma AcquireAddsPins(db: Db, operation: Uuid, checkout: Key)
    requires AcquireCurrent(db, operation, checkout).Ok?
    ensures var after := AcquireCurrent(db, operation, checkout).value.0;
            && after == db.(pins := after.pins) && db.pins <= after.pins
            && forall o, g | (o, g) in after.pins - db.pins :: IsActive(db, o) && IsReady(db, g)
  {
  }

  lemma MorePins(db: Db, pins: set<(Uuid, Uuid)>)
    requires Consistent(db) && db.pins <= pins
    requires forall o, g | (o, g) in pins - db.pins :: IsActive(db, o) && IsReady(db, g)
    ensures Consistent(db.(pins := pins)) && Evolves(db, db.(pins := pins))
  {
    var after := db.(pins := pins);
    forall o, g | (o, g) in after.pins ensures IsActive(after, o) && IsReady(after, g) {
      assert (o, g) in db.pins || (o, g) in pins - db.pins;
    }
  }

  lemma AcquireMovesNothing(db: Db, operation: Uuid, checkout: Key)
    ensures var acquired := AcquireCurrent(db, operation, checkout);
            acquired.Ok? ==> acquired.value.0.generations == db.generations && acquired.value.0.current == db.current
  {
  }

  lemma AcquireCurrentEvolves(db: Db, operation: Uuid, checkout: Key)
    requires Consistent(db)
    requires AcquireCurrent(db, operation, checkout).Ok?
    ensures Evolves(db, AcquireCurrent(db, operation, checkout).value.0)
  {
    AcquireAddsPins(db, operation, checkout);
    MorePins(db, AcquireCurrent(db, operation, checkout).value.0.pins);
  }

  lemma PublishCommitConsistent(db: Db, operation: Uuid, id: Uuid, seen: Generation, finalize: Option<Finalize>)
    requires id in db.generations ==> SameIdentity(seen, db.generations[id])
    requires Consistent(db)
    requires PublishCommit(db, operation, id, seen, finalize).Ok?
    ensures Consistent(PublishCommit(db, operation, id, seen, finalize).value)
  {
    var after := PublishCommit(db, operation, id, seen, finalize).value;
    assert CurrentOk(after) && PinsOk(after);
    assert BasesOk(after) && OwnersOk(after);
  }

  lemma PublishCommitEvolves(db: Db, operation: Uuid, id: Uuid, seen: Generation, finalize: Option<Finalize>)
    requires id in db.generations ==> SameIdentity(seen, db.generations[id])
    requires Consistent(db)
    requires PublishCommit(db, operation, id, seen, finalize).Ok?
    ensures Evolves(db, PublishCommit(db, operation, id, seen, finalize).value)
  {
  }

  lemma PruneMarkKeeps(db: Db, chosen: set<Uuid>)
    requires chosen <= Candidates(db)
    requires Consistent(db)
    ensures PruneMark(db, chosen).Ok?
    ensures Consistent(PruneMark(db, chosen).value) && Evolves(db, PruneMark(db, chosen).value)
  {
    assert PruneMark(db, chosen).Ok?;
    MarkConsistent(db, chosen);
    MarkEvolves(db, chosen);
    hide Consistent, Evolves;
  }

  lemma MarkEvolves(db: Db, chosen: set<Uuid>)
    ensures Evolves(db, db.(generations := Mark(db.generations, chosen)))
  {
  }

  lemma MarkConsistent(db: Db, chosen: set<Uuid>)
    requires chosen <= Candidates(db) && Consistent(db)
    ensures Consistent(db.(generations := Mark(db.generations, chosen)))
  {
    var after := db.(generations := Mark(db.generations, chosen));
    forall g <- chosen ensures !IsCurrent(db, g) && !IsBase(db, g) && forall o :: (o, g) !in db.pins {
      assert IsCandidate(db, g);
    }
    assert ClaimsOk(after) && OwnersOk(after);
    assert CurrentOk(after) && PinsOk(after) && BasesOk(after);
  }

  lemma ClaimEnrollmentKeeps(db: Db, checkout: Key, operation: Uuid, forgetting: bool)
    requires Consistent(db)
    requires ClaimEnrollment(db, checkout, operation, forgetting).Ok?
    ensures Consistent(ClaimEnrollment(db, checkout, operation, forgetting).value) && Evolves(db, ClaimEnrollment(db, checkout, operation, forgetting).value)
  {
  }

  lemma ReleaseEnrollmentKeeps(db: Db, checkout: Key, operation: Uuid)
    requires Consistent(db)
    ensures Consistent(ReleaseEnrollment(db, checkout, operation)) && Evolves(db, ReleaseEnrollment(db, checkout, operation))
  {
  }

  lemma DeleteCurrentKeeps(db: Db, checkout: Key)
    requires Consistent(db)
    ensures Consistent(DeleteCurrent(db, checkout)) && Evolves(db, DeleteCurrent(db, checkout))
  {
  }

  lemma DeleteRowKeeps(db: Db, id: Uuid)
    requires id in db.generations ==> db.generations[id].status.Deleting?
    requires Consistent(db)
    ensures DeleteRow(db, id).Ok?
    ensures Consistent(DeleteRow(db, id).value) && Evolves(db, DeleteRow(db, id).value)
  {
  }
}
