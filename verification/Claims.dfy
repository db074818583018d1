/**
 Who may hold what, over whole runs: the native slot, the writer claim and the enrollment claim of a checkout each
 have one holder, who keeps it until it gives it back or ends.
 */
module Claims {
  import opened Wrappers
  import opened StateModel
  import opened Protocol
  import opened ProtocolInvariant
  import opened ProtocolSafety

  /** Once the native slot is taken, nobody else gets it before its holder has ended. */
  lemma {:induction false} NativeSlotLasts(w: World, events: seq<Event>, o: Uuid)
    requires Inv(w) && w.db.native == Some(o)
    ensures var after := Run(w, events).db; IsActive(after, o) ==> after.native == Some(o)
    decreases events
  {
    hide Step;
    if events != [] {
      var next := Step(w, events[0]);
      OneStep(w, events[0]);
      if IsActive(next.db, o) {
        NativeSlotLasts(next, events[1..], o);
      } else {
        HolderExists(w);
        StaysInactive(next, events[1..], o);
      }
    }
  }

  lemma HolderExists(w: World)
    requires Inv(w)
    ensures w.db.native.Some? ==> IsActive(w.db, w.db.native.value)
    ensures forall k <- w.db.writers :: IsActive(w.db, w.db.writers[k])
    ensures forall k <- w.db.enrollments :: IsActive(w.db, w.db.enrollments[k].operation)
  {
  }

  /** A checkout's writer keeps its claim against everybody else until it ends. */
  lemma {:induction false} WriterClaimLasts(w: World, events: seq<Event>, checkout: Key, o: Uuid)
    requires Inv(w) && HoldsWriter(w.db, checkout, o)
    ensures var after := Run(w, events).db; IsActive(after, o) ==> HoldsWriter(after, checkout, o)
    decreases events
  {
    hide Step;
    if events != [] {
      var next := Step(w, events[0]);
      OneStep(w, events[0]);
      if IsActive(next.db, o) {
        WriterClaimLasts(next, events[1..], checkout, o);
      } else {
        HolderExists(w);
        StaysInactive(next, events[1..], o);
      }
    }
  }

  /** The holder of an enrollment claim keeps it until it gives it back or ends. */
  lemma {:induction false} EnrollmentClaimLasts(w: World, events: seq<Event>, checkout: Key, claim: EnrollmentClaim)
    requires Inv(w) && checkout in w.db.enrollments && w.db.enrollments[checkout] == claim
    requires Event.ReleaseEnrollment(checkout, claim.operation) !in events
    ensures var after := Run(w, events).db;
            IsActive(after, claim.operation) ==> checkout in after.enrollments && after.enrollments[checkout] == claim
    decreases events
  {
    hide Step;
    if events != [] {
      var next := Step(w, events[0]);
      OneStep(w, events[0]);
      EnrollmentStep(w, events[0], checkout);
      if IsActive(next.db, claim.operation) {
        assert forall e <- events[1..] :: e in events;
        EnrollmentClaimLasts(next, events[1..], checkout, claim);
      } else {
        HolderExists(w);
        StaysInactive(next, events[1..], claim.operation);
      }
    }
  }

  /** One event takes an enrollment claim only from an operation that it ends, or that gives it back. */
  lemma EnrollmentStep(w: World, e: Event, checkout: Key)
    requires Inv(w) && checkout in w.db.enrollments
    ensures var claim, after := w.db.enrollments[checkout], Step(w, e).db;
            && (e != Event.ReleaseEnrollment(checkout, claim.operation) && IsActive(after, claim.operation) ==>
                  checkout in after.enrollments && after.enrollments[checkout] == claim)
            && (checkout !in w.db.writers ==> checkout !in after.writers)
  {
    hide Inv, Step, StepRows;
    if e.PruneDelete? {
      DeletionKeepsClaims(w, e.call);
    } else if IsRows(e) {
      StepOfRows(w, e);
      RowsKeepClaim(w, e, checkout);
    } else {
      OtherKeepsClaims(w, e);
    }
  }

  lemma StepOfRows(w: World, e: Event)
    requires IsRows(e)
    ensures Step(w, e) == StepRows(w, e)
  {
    hide StepRows, StepPublish, StepPrune, StepGeneration;
  }

  /** The claim is still there if its operation is active, and no writer has begun. */
  ghost predicate ClaimKept(a: Db, b: Db, checkout: Key)
    requires checkout in a.enrollments
  {
    var claim := a.enrollments[checkout];
    && (IsActive(b, claim.operation) ==> checkout in b.enrollments && b.enrollments[checkout] == claim)
    && (checkout !in a.writers ==> checkout !in b.writers)
  }

  lemma FinishKeepsClaim(db: Db, o: Uuid, outcome: OperationState, checkout: Key)
    requires checkout in db.enrollments && !outcome.Active?
    ensures ClaimKept(db, StateModel.FinishOperation(db, o, outcome), checkout)
  {
  }

  lemma RowsKeepClaim(w: World, e: Event, checkout: Key)
    requires IsRows(e) && checkout in w.db.enrollments
    ensures ClaimKept(w.db, StepRows(w, e).db, checkout)
         || e == Event.ReleaseEnrollment(checkout, w.db.enrollments[checkout].operation)
    ensures checkout !in w.db.writers ==> checkout !in StepRows(w, e).db.writers
  {
    match e
    case FinishOperation(o, outcome) =>
      hide StateModel.FinishOperation;
      if !outcome.Active? { FinishKeepsClaim(w.db, o, outcome, checkout); }
    case Recover(o, seen) =>
      hide StateModel.FinishOperation;
      FinishKeepsClaim(w.db, o, Interrupted, checkout);
    case BeginOperation(id, opening, pid, now) => BeginKeepsClaim(w, id, opening, pid, now, checkout);
    case _ => MoreRowsKeepClaim(w, e, checkout);
  }

  lemma BeginKeepsClaim(w: World, id: Uuid, opening: OperationInput, pid: nat, now: nat, checkout: Key)
    requires checkout in w.db.enrollments
    ensures ClaimKept(w.db, StepRows(w, Event.BeginOperation(id, opening, pid, now)).db, checkout)
  {
  }

  lemma MoreRowsKeepClaim(w: World, e: Event, checkout: Key)
    requires e.AcquireNative? || e.AcquireCurrent? || e.ClaimEnrollment? || e.ReleaseEnrollment? || e.DeleteCurrent?
    requires checkout in w.db.enrollments
    ensures ClaimKept(w.db, StepRows(w, e).db, checkout)
         || e == Event.ReleaseEnrollment(checkout, w.db.enrollments[checkout].operation)
    ensures StepRows(w, e).db.writers == w.db.writers
  {
  }

  lemma DeletionKeepsClaims(w: World, call: nat)
    requires Inv(w)
    ensures var after := Step(w, Event.PruneDelete(call)).db; after.enrollments == w.db.enrollments && after.writers == w.db.writers
  {
    if call in w.calls && w.calls[call].Pruning? {
      assert CallOk(w, w.calls[call]);
      PruneDeleteKeeps(w.db, w.calls[call].removed);
      hide Inv, StateModel.PruneDelete;
    }
  }

  lemma OtherKeepsClaims(w: World, e: Event)
    requires !IsRows(e) && !e.PruneDelete?
    ensures Step(w, e).db.enrollments == w.db.enrollments && Step(w, e).db.writers == w.db.writers
  {
    hide StepPublish, StepPrune, StepGeneration, StepRows;
    if IsPublish(e) {
      PublishKeepsClaims(w, e);
    } else if IsPrune(e) {
      PruneKeepsClaims(w, e);
    } else if IsBuilding(e) {
      BuildingKeepsClaims(w, e);
    }
  }

  lemma PublishKeepsClaims(w: World, e: Event)
    requires IsPublish(e)
    ensures StepPublish(w, e).db.enrollments == w.db.enrollments && StepPublish(w, e).db.writers == w.db.writers
  {
  }

  lemma PruneKeepsClaims(w: World, e: Event)
    requires IsPrune(e) && !e.PruneDelete?
    ensures StepPrune(w, e).db.enrollments == w.db.enrollments && StepPrune(w, e).db.writers == w.db.writers
  {
  }

  lemma BuildingKeepsClaims(w: World, e: Event)
    requires IsBuilding(e)
    ensures StepGeneration(w, e).db.enrollments == w.db.enrollments && StepGeneration(w, e).db.writers == w.db.writers
  {
  }

  /** While anybody holds the enrollment claim of a checkout, no writer begins there. */
  lemma {:induction false} NoWriterWhileClaimed(w: World, events: seq<Event>, checkout: Key, claim: EnrollmentClaim)
    requires Inv(w) && ClaimHeld(w, events, checkout, claim) && checkout !in w.db.writers
    ensures checkout !in Run(w, events).db.writers
    decreases events
  {
    hide Step;
    if events != [] {
      OneStep(w, events[0]);
      EnrollmentStep(w, events[0], checkout);
      NoWriterWhileClaimed(Step(w, events[0]), events[1..], checkout, claim);
    }
  }
}
