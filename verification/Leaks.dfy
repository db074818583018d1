/**
 Directories without rows: when a generation that is being deleted, or already is, can still get a directory, and when
 a directory can outlive its row.
 */
module Leaks {
  import opened Wrappers
  import opened Contracts
  import opened StateModel
  import opened StateInvariant
  import opened Protocol
  import opened ProtocolInvariant
  import opened ProtocolSafety
  import opened PruneConvergence
  import opened Publication

  /** A directory of `g` is there, and no row. */
  predicate Leaked(w: World, g: Uuid) {
    HasDir(w, g) && g !in w.db.generations
  }

  /** A publication of `g` that has not renamed yet. */
  predicate MayRename(call: Call, g: Uuid) {
    call.Publishing? && call.generation == g && !call.phase.Renamed? && !call.phase.Confirmed?
  }

  /** A prune that has passed over a directory of `g` which is there now. */
  predicate Missed(w: World, call: Call, g: Uuid) {
    call.Pruning?
    && (|| (g in call.removed && HasDir(w, g))
        || (call.todo != [] && call.todo[0] == g
            && match call.look
               case Unseen => false
               case TempSeen(found) => !found && g in w.temp
               case Paths(rest) => (g in w.temp && TempSide !in rest) || (g in w.final && FinalSide !in rest)))
  }

  /**
   A builder of `g` is at work; or a directory has already lost its row; or a publication may still rename the staging
   directory; or a prune in progress has missed a directory.
   */
  predicate CanLeak(w: World, g: Uuid) {
    || !Unbuilt(w, g)
    || Leaked(w, g)
    || (g in w.temp && exists c <- w.calls :: MayRename(w.calls[c], g))
    || exists c <- w.calls :: Missed(w, w.calls[c], g)
  }

  // ---- A directory that comes back -------------------------------------------------------------

  lemma {:induction false} UnbuiltForever(w: World, events: seq<Event>, g: Uuid)
    requires Inv(w) && Issued(w, g) && Unbuilt(w, g) && !HasDir(w, g)
    ensures !HasDir(Run(w, events), g)
    decreases events
  {
    hide Step;
    if events != [] {
      OneStep(w, events[0]);
      UnbuiltForever(Step(w, events[0]), events[1..], g);
    }
  }

  /** A builder can always make the directory of its generation. */
  lemma BuilderMakes(w: World, call: nat, g: Uuid)
    requires Inv(w) && call in w.calls && Builds(w.calls[call], g)
    ensures var next := Step(w, if w.calls[call].Making? then MakeTemp(call) else WriteTemp(call, Store(None, None, None), true));
            g in next.temp && next.db == w.db
  {
    assert CallOk(w, w.calls[call]);
  }

  /** Some run leads to a directory of `g` exactly when one is there or a builder of `g` is at work. */
  lemma DirectoryComesBack(w: World, g: Uuid)
    requires Inv(w) && Issued(w, g)
    ensures (exists events :: HasDir(Run(w, events), g)) <==> HasDir(w, g) || !Unbuilt(w, g)
  {
    hide Inv, Step;
    if HasDir(w, g) {
      assert HasDir(Run(w, []), g);
    } else if !Unbuilt(w, g) {
      var call :| call in w.calls && Builds(w.calls[call], g);
      BuilderMakes(w, call, g);
      var e := if w.calls[call].Making? then MakeTemp(call) else WriteTemp(call, Store(None, None, None), true);
      RunOne(w, e);
      assert HasDir(Run(w, [e]), g);
    } else {
      forall events ensures !HasDir(Run(w, events), g) { UnbuiltForever(w, events, g); }
    }
  }

  // ---- No leak comes of itself -----------------------------------------------------------------

  ghost predicate Tidy(w: World, g: Uuid) {
    Inv(w) && Issued(w, g) && Doomed(w.db, g) && !CanLeak(w, g)
  }

  lemma RowsTidy(w: World, e: Event, g: Uuid)
    requires !CanLeak(w, g) && IsRows(e)
    ensures !CanLeak(StepRows(w, e), g)
  {
    hide CanLeak;
    RowsKeepGenerations(w, e);
    NotLeaked(w, g);
    hide StepRows;
    SameTidy(w, StepRows(w, e), g);
  }

  lemma RowsKeepGenerations(w: World, e: Event)
    requires IsRows(e)
    ensures var b := StepRows(w, e); b == w.(db := b.db) && b.db.generations == w.db.generations
  {
  }

  lemma NotLeaked(w: World, g: Uuid)
    requires !CanLeak(w, g)
    ensures !Leaked(w, g)
  {
  }

  /** Directories may disappear and calls may end. */
  lemma SameTidy(w: World, b: World, g: Uuid)
    requires !CanLeak(w, g) && (g in b.temp ==> g in w.temp) && (g in b.final ==> g in w.final) && !Leaked(b, g)
    requires forall c <- b.calls :: c in w.calls && b.calls[c] == w.calls[c]
    ensures !CanLeak(b, g)
  {
    forall c <- b.calls ensures !Missed(b, b.calls[c], g) {
      assert !Missed(w, w.calls[c], g);
    }
  }

  /** One call is begun or moved on, and neither builds nor may rename nor has missed anything. */
  lemma CallTidy(w: World, b: World, g: Uuid, call: nat)
    requires !CanLeak(w, g) && call in b.calls && (g in b.temp ==> g in w.temp) && (g in b.final ==> g in w.final) && !Leaked(b, g)
    requires forall c <- b.calls :: c != call ==> c in w.calls && b.calls[c] == w.calls[c]
    requires !Builds(b.calls[call], g) && !Missed(b, b.calls[call], g) && (g in b.temp ==> !MayRename(b.calls[call], g))
    ensures !CanLeak(b, g)
  {
    forall c <- b.calls ensures !Missed(b, b.calls[c], g) {
      if c != call { assert !Missed(w, w.calls[c], g); }
    }
    assert forall c <- b.calls :: c != call ==> !Builds(w.calls[c], g) && (g in w.temp ==> !MayRename(w.calls[c], g));
  }

  lemma BuildingTidy(w: World, e: Event, g: Uuid)
    requires Tidy(w, g) && IsBuilding(e)
    ensures !CanLeak(StepGeneration(w, e), g)
  {
    var b := StepGeneration(w, e);
    if b != w {
      assert e.call in w.calls ==> CallOk(w, w.calls[e.call]);
      assert e.call in w.calls ==> !Builds(w.calls[e.call], g);
      GenerationRows(w, e, g);
      hide Inv, CanLeak, Doomed, StepGeneration, CallOk;
      if e.call in b.calls { CallTidy(w, b, g, e.call); } else { SameTidy(w, b, g); }
    }
  }

  lemma GenerationRows(w: World, e: Event, g: Uuid)
    requires Issued(w, g) && IsBuilding(e) && StepGeneration(w, e) != w
    ensures var b := StepGeneration(w, e);
            && (g in b.db.generations <==> g in w.db.generations)
            && (forall c <- b.calls :: c != e.call ==> c in w.calls && b.calls[c] == w.calls[c])
            && (e.BeginGeneration? ==> e.call in b.calls && b.calls[e.call] == Making(e.id) && e.id != g && b.temp == w.temp && b.final == w.final)
            && (!e.BeginGeneration? ==>
                  && e.call in w.calls && b.final == w.final && (w.calls[e.call].Making? || w.calls[e.call].Writing?)
                  && (w.calls[e.call].generation != g ==> (g in b.temp <==> g in w.temp))
                  && (e.call in b.calls ==> b.calls[e.call] == Writing(w.calls[e.call].generation)))
  {
  }

  lemma PublishTidy(w: World, e: Event, g: Uuid)
    requires Tidy(w, g) && IsPublish(e)
    ensures !CanLeak(StepPublish(w, e), g)
  {
    hide Inv, StepPublish, MayRename, Missed, Doomed;
    var b := StepPublish(w, e);
    if b != w {
      PublishRows(w, e, g);
      PublishingIsNoPrune(w, b, e.call, g);
      assert e.call in w.calls ==> !Builds(w.calls[e.call], g) && (g in w.temp ==> !MayRename(w.calls[e.call], g));
      hide CanLeak;
      if e.call in b.calls { CallTidy(w, b, g, e.call); } else { SameTidy(w, b, g); }
    }
  }

  lemma PublishingIsNoPrune(w: World, b: World, call: nat, g: Uuid)
    ensures call in b.calls && b.calls[call].Publishing? ==>
              && !Missed(b, b.calls[call], g) && !Builds(b.calls[call], g)
              && (b.calls[call].generation != g ==> !MayRename(b.calls[call], g))
  {
  }

  /** What a step of a publication means for a generation that cannot be published. */
  lemma PublishRows(w: World, e: Event, g: Uuid)
    requires Doomed(w.db, g) && IsPublish(e) && StepPublish(w, e) != w
    ensures var b := StepPublish(w, e);
            && (g in b.db.generations <==> g in w.db.generations)
            && (forall c <- b.calls :: c != e.call ==> c in w.calls && b.calls[c] == w.calls[c])
            && (e.call in b.calls ==> b.calls[e.call].Publishing?)
            && (e.call !in w.calls ==> e.call in b.calls && b.calls[e.call].generation != g && b.temp == w.temp && b.final == w.final)
            && (e.call in w.calls ==>
                  && w.calls[e.call].Publishing?
                  && (e.call in b.calls ==>
                        && b.calls[e.call].generation == w.calls[e.call].generation
                        && (MayRename(b.calls[e.call], g) ==> MayRename(w.calls[e.call], g)))
                  && ((g in w.temp && MayRename(w.calls[e.call], g))
                      || ((g in b.temp <==> g in w.temp) && (g in b.final <==> g in w.final))))
  {
    hide StateModel.PublishCommit;
    if e.PublishCommit? { CommitKeepsRows(w.db, w.calls[e.call]); }
  }

  lemma CommitKeepsRows(db: Db, p: Call)
    requires p.Publishing?
    ensures var after := StateModel.PublishCommit(db, p.operation, p.generation, p.seen, p.finalize);
            after.Ok? ==> after.value.generations.Keys == db.generations.Keys
  {
  }

  lemma PruneTidy(w: World, e: Event, g: Uuid)
    requires Tidy(w, g) && IsPrune(e)
    ensures !CanLeak(StepPrune(w, e), g)
  {
    var b := StepPrune(w, e);
    if b != w {
      if e.PruneDelete? {
        DeleteTidy(w, e.call, g);
      } else if e.PruneMark? {
        hide Inv, CanLeak;
        CallTidy(w, b, g, e.call);
      } else {
        assert !Missed(w, w.calls[e.call], g);
        MovesOn(w, e, g);
        hide Inv, CanLeak, Missed, StepPrune;
        CallTidy(w, b, g, e.call);
      }
    }
  }

  /** A prune that has missed nothing misses nothing by its next step. */
  lemma MovesOn(w: World, e: Event, g: Uuid)
    requires e.PruneLook? || e.PruneErase? || e.PruneNext?
    requires StepPrune(w, e) != w && !Missed(w, w.calls[e.call], g) && !Leaked(w, g)
    ensures var b := StepPrune(w, e);
            && b.db == w.db && e.call in b.calls && b.calls[e.call].Pruning?
            && (forall c <- b.calls :: c != e.call ==> c in w.calls && b.calls[c] == w.calls[c])
            && (g in b.temp ==> g in w.temp) && (g in b.final ==> g in w.final)
            && !Missed(b, b.calls[e.call], g)
  {
    var p := w.calls[e.call];
    if e.PruneErase? { assert p.look.rest == [p.look.rest[0]] + p.look.rest[1..]; }
  }

  lemma DeleteTidy(w: World, call: nat, g: Uuid)
    requires Tidy(w, g) && call in w.calls && w.calls[call].Pruning?
    ensures !CanLeak(StepPrune(w, Event.PruneDelete(call)), g)
  {
    assert CallOk(w, w.calls[call]) && !Missed(w, w.calls[call], g);
    PruneDeleteKeeps(w.db, w.calls[call].removed);
    hide Inv, CanLeak, StateModel.PruneDelete;
    SameTidy(w, StepPrune(w, Event.PruneDelete(call)), g);
  }

  lemma StepTidy(w: World, e: Event, g: Uuid)
    requires Tidy(w, g)
    ensures Tidy(Step(w, e), g)
  {
    OneStep(w, e);
    RunOne(w, e);
    DoomedForever(w, [e], g);
    if e.Stop? {
      hide Inv, CanLeak;
      SameTidy(w, End(w, e.call), g);
    } else if IsPublish(e) {
      PublishTidy(w, e, g);
    } else if IsPrune(e) {
      PruneTidy(w, e, g);
    } else if IsBuilding(e) {
      BuildingTidy(w, e, g);
    } else {
      RowsTidy(w, e, g);
    }
  }

  lemma {:induction false} TidyForever(w: World, events: seq<Event>, g: Uuid)
    requires Tidy(w, g)
    ensures Tidy(Run(w, events), g)
    decreases events
  {
    hide Step, Tidy;
    if events != [] {
      StepTidy(w, events[0], g);
      TidyForever(Step(w, events[0]), events[1..], g);
    }
  }

  // ---- How a leak comes about ------------------------------------------------------------------

  lemma RunFirst(w: World, e: Event, rest: seq<Event>)
    ensures Run(w, [e] + rest) == Run(Step(w, e), rest)
  {
    hide Step;
    assert ([e] + rest)[1..] == rest;
  }

  lemma DeletingIsCandidate(w: World, g: Uuid)
    requires Inv(w) && Doomed(w.db, g) && g in w.db.generations
    ensures g in Candidates(w.db)
  {
    assert BasesOk(w.db);
  }

  /** The row is pruned with all directories there are, and then the builder makes one. */
  lemma BuilderLeaks(w: World, call: nat, g: Uuid) returns (events: seq<Event>)
    requires Inv(w) && Doomed(w.db, g) && call in w.calls && Builds(w.calls[call], g)
    ensures Leaked(Run(w, events), g)
  {
    hide Inv, Step, Run, Candidates, Builds;
    var make := if w.calls[call].Making? then MakeTemp(call) else WriteTemp(call, Store(None, None, None), true);
    if g !in w.db.generations {
      events := [make];
      RunOne(w, make);
      BuilderMakes(w, call, g);
    } else {
      var pruner := AboveAll(w.calls.Keys);
      DeletingIsCandidate(w, g);
      assert Elements([g]) == {g};
      UndisturbedPruneIsARound(w, pruner, [g]);
      var prune := PruneEvents(pruner, [g]);
      RunKeeps(w, prune);
      var pruned := Run(w, prune);
      BuilderMakes(pruned, call, g);
      events := prune + [make];
      RunAppend(w, prune, [make]);
      RunOne(pruned, make);
    }
  }

  /** How far a publication is from its rename. */
  function Before(phase: Phase): nat {
    match phase
    case Opened => 4
    case Entered => 3
    case Accepted => 2
    case Free => 1
    case _ => 0
  }

  function Onward(call: nat, phase: Phase): Event {
    match phase
    case Opened => PublishStat(call)
    case Entered => PublishAccept(call)
    case Accepted => PublishFree(call)
    case _ => PublishRecheck(call)
  }

  lemma MovesOnward(w: World, call: nat, g: Uuid)
    requires call in w.calls && MayRename(w.calls[call], g) && g in w.temp && g !in w.final && !w.calls[call].phase.Rechecked?
    requires !w.calls[call].phase.Opened? ==> w.temp[g].inode == w.calls[call].inode
    ensures var next := Step(w, Onward(call, w.calls[call].phase));
            && next == w.(calls := next.calls) && next.calls.Keys == w.calls.Keys
            && MayRename(next.calls[call], g) && Before(next.calls[call].phase) < Before(w.calls[call].phase)
  {
    hide StepPrune, StepGeneration, StepRows;
    if w.calls[call].phase.Opened? { Stats(w, call); } else { Checks(w, call); }
  }

  lemma StagedDir(w: World, call: nat, g: Uuid)
    requires Inv(w) && call in w.calls && MayRename(w.calls[call], g) && g in w.temp
    ensures g !in w.final && (!w.calls[call].phase.Opened? ==> w.temp[g].inode == w.calls[call].inode)
  {
    assert CallOk(w, w.calls[call]);
  }

  lemma {:induction false} ReachesRechecked(w: World, call: nat, g: Uuid) returns (events: seq<Event>)
    requires Inv(w) && call in w.calls && MayRename(w.calls[call], g) && g in w.temp
    ensures var after := Run(w, events);
            && Inv(after) && after == w.(calls := after.calls) && after.calls.Keys == w.calls.Keys
            && InPhase(after, call, Rechecked) && after.calls[call].generation == g
    decreases Before(w.calls[call].phase)
  {
    hide Inv, Step, Onward;
    if w.calls[call].phase.Rechecked? {
      events := [];
    } else {
      var e := Onward(call, w.calls[call].phase);
      StagedDir(w, call, g);
      MovesOnward(w, call, g);
      StepKeeps(w, e);
      var rest := ReachesRechecked(Step(w, e), call, g);
      events := [e] + rest;
      RunFirst(w, e, rest);
    }
  }

  lemma Marks(w: World, call: nat, g: Uuid)
    requires Inv(w) && call !in w.calls && g in Candidates(w.db)
    ensures var next := Step(w, Event.PruneMark(call, [g]));
            && next == w.(db := next.db, calls := w.calls[call := Pruning([g], Unseen, [])])
            && Inv(next) && Doomed(next.db, g)
  {
    hide Step, Inv, Candidates, StateModel.PruneMark;
    assert Elements([g]) == {g};
    MarkSteps(w, call, [g]);
    var next := Step(w, Event.PruneMark(call, [g]));
    StepKeeps(w, Event.PruneMark(call, [g]));
    MarkedIsDoomed(next, call);
    assert next.calls[call].todo[0] == g && g in next.calls[call].todo;
  }

  lemma Deletes(w: World, call: nat, g: Uuid)
    requires Inv(w) && call in w.calls && w.calls[call].Pruning? && g in w.calls[call].removed
    ensures var next := Step(w, Event.PruneDelete(call));
            g !in next.db.generations && next.temp == w.temp && next.final == w.final
  {
    hide Step, Consistent;
    var p := w.calls[call];
    assert CallOk(w, p) && Consistent(w.db);
    hide Inv;
    DeleteSteps(w, call, p.todo, p.look, p.removed);
  }

  /**
   A prune that has looked at both paths just before a publication renames the staging directory erases nothing and
   deletes the row; the renamed directory stays.
   */
  lemma RenameLeaks(w: World, publisher: nat, pruner: nat, g: Uuid)
    requires Inv(w) && InPhase(w, publisher, Rechecked) && w.calls[publisher].generation == g
    requires g in Candidates(w.db) && g in w.temp && pruner !in w.calls
    ensures Leaked(Run(w, [Event.PruneMark(pruner, [g]), PruneLook(pruner), PruneLook(pruner), PublishRename(publisher),
                           PruneErase(pruner), PruneNext(pruner), Event.PruneDelete(pruner)]), g)
  {
    hide Step, Run, Candidates, Inv;
    var mark := Event.PruneMark(pruner, [g]);
    NoBoth(w, g);
    Marks(w, pruner, g);
    var w1 := Step(w, mark);
    LookBoth(w1, pruner, [g], []);
    var w3 := Step(Step(w1, PruneLook(pruner)), PruneLook(pruner));
    assert Seen(w1, g) == [TempSide];
    Renames(w3, publisher);
    var w4 := Step(w3, PublishRename(publisher));
    EraseSteps(w4, pruner, [g], [TempSide], []);
    var w5 := Step(w4, PruneErase(pruner));
    assert [TempSide][1..] == [];
    NextSteps(w5, pruner, [g], []);
    var w6 := Step(w5, PruneNext(pruner));
    var delete := Event.PruneDelete(pruner);
    var events := [mark, PruneLook(pruner), PruneLook(pruner), PublishRename(publisher), PruneErase(pruner), PruneNext(pruner)];
    assert Run(w, events) == w6 by {
      RunFirst(w, mark, events[1..]);
      RunFive(w1, PruneLook(pruner), PruneLook(pruner), PublishRename(publisher), PruneErase(pruner), PruneNext(pruner));
      assert events == [mark] + events[1..];
    }
    RunKeeps(w, events);
    Deletes(w6, pruner, g);
    RunAppend(w, events, [delete]);
    RunOne(w6, delete);
    assert events + [delete] == [mark, PruneLook(pruner), PruneLook(pruner), PublishRename(publisher), PruneErase(pruner),
                                 PruneNext(pruner), delete];
  }

  /** How far a prune is from having done with the generation in hand. */
  function Left(look: Look): nat {
    match look
    case Unseen => 0
    case TempSeen(_) => 3
    case Paths(rest) => |rest| + 1
  }

  /** What the prune does next with the generation in hand. */
  function Following(call: nat, look: Look): Event {
    if look.TempSeen? then PruneLook(call) else if look == Paths([]) then PruneNext(call) else PruneErase(call)
  }

  lemma MissedStays(w: World, call: nat, g: Uuid)
    requires call in w.calls && Missed(w, w.calls[call], g) && !(g in w.calls[call].removed && HasDir(w, g))
    requires !(g in w.temp && g in w.final)
    ensures var next := Step(w, Following(call, w.calls[call].look));
            && call in next.calls && Missed(next, next.calls[call], g)
            && ((g in next.calls[call].removed && HasDir(next, g)) || Left(next.calls[call].look) < Left(w.calls[call].look))
  {
    var p := w.calls[call];
    hide Step;
    if p.look.TempSeen? {
      LooksAgain(w, call, p.todo, p.look.found, p.removed);
    } else if p.look == Paths([]) {
      NextSteps(w, call, p.todo, p.removed);
    } else {
      EraseSteps(w, call, p.todo, p.look.rest, p.removed);
      assert p.look.rest == [p.look.rest[0]] + p.look.rest[1..];
    }
  }

  lemma NoBoth(w: World, g: Uuid)
    requires Inv(w)
    ensures !(g in w.temp && g in w.final)
  {
  }

  /** A prune that has missed a directory goes on to delete the row. */
  lemma {:induction false} MissedLeaks(w: World, call: nat, g: Uuid) returns (events: seq<Event>)
    requires Inv(w) && call in w.calls && Missed(w, w.calls[call], g)
    ensures Leaked(Run(w, events), g)
    decreases if g in w.calls[call].removed && HasDir(w, g) then 0 else Left(w.calls[call].look) + 1
  {
    hide Inv, Step, Run, Missed, Following;
    MissedIsPruning(w, w.calls[call], g);
    if g in w.calls[call].removed && HasDir(w, g) {
      events := [Event.PruneDelete(call)];
      RunOne(w, events[0]);
      Deletes(w, call, g);
    } else {
      NoBoth(w, g);
      MissedStays(w, call, g);
      var e := Following(call, w.calls[call].look);
      StepKeeps(w, e);
      MissedIsPruning(Step(w, e), Step(w, e).calls[call], g);
      var rest := MissedLeaks(Step(w, e), call, g);
      events := [e] + rest;
      RunFirst(w, e, rest);
    }
  }

  lemma MissedIsPruning(w: World, call: Call, g: Uuid)
    requires Missed(w, call, g)
    ensures call.Pruning?
  {
  }

  lemma PublicationLeaks(w: World, call: nat, g: Uuid) returns (events: seq<Event>)
    requires Inv(w) && Doomed(w.db, g) && g in w.db.generations && g in w.temp
    requires call in w.calls && MayRename(w.calls[call], g)
    ensures Leaked(Run(w, events), g)
  {
    hide Inv, Step, Run, Candidates, Leaked, MayRename;
    var first := ReachesRechecked(w, call, g);
    var after := Run(w, first);
    var pruner := AboveAll(after.calls.Keys);
    DeletingIsCandidate(after, g);
    RenameLeaks(after, call, pruner, g);
    var second := [Event.PruneMark(pruner, [g]), PruneLook(pruner), PruneLook(pruner), PublishRename(call),
                   PruneErase(pruner), PruneNext(pruner), Event.PruneDelete(pruner)];
    events := first + second;
    RunAppend(w, first, second);
  }

  lemma SomeRunLeaks(w: World, g: Uuid) returns (events: seq<Event>)
    requires Inv(w) && Doomed(w.db, g) && CanLeak(w, g)
    ensures Leaked(Run(w, events), g)
  {
    hide Inv, Step, Builds, Missed, MayRename, Leaked, Doomed;
    if !Unbuilt(w, g) {
      var call :| call in w.calls && Builds(w.calls[call], g);
      events := BuilderLeaks(w, call, g);
    } else if Leaked(w, g) {
      events := [];
    } else if exists c <- w.calls :: Missed(w, w.calls[c], g) {
      var call :| call in w.calls && Missed(w, w.calls[call], g);
      events := MissedLeaks(w, call, g);
    } else {
      var call :| call in w.calls && MayRename(w.calls[call], g);
      RowIsThere(w, g);
      events := PublicationLeaks(w, call, g);
    }
  }

  lemma RowIsThere(w: World, g: Uuid)
    requires g in w.temp && !Leaked(w, g)
    ensures g in w.db.generations
  {
  }

  /**
   A directory of a generation that is being deleted can come to outlive its row exactly when a builder of it is at
   work, when that has already happened, when a publication may still rename its staging directory, or when a prune
   in progress has missed one of its directories.
   */
  lemma LeaksExactlyWhen(w: World, g: Uuid)
    requires Inv(w) && Issued(w, g) && Doomed(w.db, g)
    ensures (exists events :: Leaked(Run(w, events), g)) <==> CanLeak(w, g)
  {
    hide Inv, Step, CanLeak, Doomed, Run;
    if CanLeak(w, g) {
      var events := SomeRunLeaks(w, g);
    } else {
      forall events ensures !Leaked(Run(w, events), g) {
        TidyForever(w, events, g);
        TidyIsClean(Run(w, events), g);
      }
    }
  }

  lemma TidyIsClean(w: World, g: Uuid)
    requires Tidy(w, g)
    ensures !Leaked(w, g)
  {
    hide Inv;
  }

  // ---- Leaks that are reachable ----------------------------------------------------------------

  const OPENING := OperationInput("build", "build", Some(0), true, false)

  function FirstBuild(compatibility: Compatibility, digest: Digest): seq<Event> {
    [Event.BeginOperation(0, OPENING, 1, 0),
     Event.BeginGeneration(0, 0, GenerationInput(0, 0, 0, Full, None, compatibility, digest, false, 0))]
  }

  /** A build that fails, or is recovered, and a prune that marks its generation. */
  const ABANDONED := [Event.FinishOperation(0, Failed), Event.PruneMark(2, [0])]

  lemma FirstRow(compatibility: Compatibility, digest: Digest)
    ensures var w := Run(START, FirstBuild(compatibility, digest));
            && w.calls == map[0 := Making(0)] && w.temp == map[] && w.issued == [0] && IsActive(w.db, 0)
            && w.db.generations == map[0 := Generation(0, 0, 0, Full, None, compatibility, digest, false, 0, Staging)]
  {
    hide Step, Run;
    var begin, insert := FirstBuild(compatibility, digest)[0], FirstBuild(compatibility, digest)[1];
    assert FirstBuild(compatibility, digest) == [begin] + [insert];
    RunFirst(START, begin, [insert]);
    FirstOperation();
    RunOne(Step(START, begin), insert);
    FirstInsertion(Step(START, begin), compatibility, digest);
  }

  lemma FirstOperation()
    ensures var w := Step(START, Event.BeginOperation(0, OPENING, 1, 0));
            && w == START.(db := w.db) && IsActive(w.db, 0) && w.db.writers == map[0 := 0] && w.db.generations == map[]
  {
    hide StepPublish, StepPrune, StepGeneration;
  }

  lemma FirstInsertion(w: World, compatibility: Compatibility, digest: Digest)
    requires w == START.(db := w.db) && IsActive(w.db, 0) && HoldsWriter(w.db, 0, 0) && w.db.generations == map[]
    ensures var next := Step(w, FirstBuild(compatibility, digest)[1]);
            && next.calls == map[0 := Making(0)] && next.temp == map[] && next.issued == [0] && IsActive(next.db, 0)
            && next.db.generations == map[0 := Generation(0, 0, 0, Full, None, compatibility, digest, false, 0, Staging)]
  {
    hide StepPublish, StepPrune, StepRows;
  }

  /** Once its operation is over, the row of a staging generation is marked, whatever its builder and its publication do. */
  lemma AbandonedIsMarked(w: World)
    requires Inv(w) && IsStaging(w.db, 0) && w.db.generations.Keys == {0} && w.db.generations[0].base.None?
    requires w.db.generations[0].owner == 0 && 2 !in w.calls
    ensures var after := Run(w, ABANDONED);
            && Inv(after) && Issued(after, 0) && Doomed(after.db, 0) && 0 in after.db.generations
            && after.temp == w.temp && after.calls == w.calls[2 := Pruning([0], Unseen, [])]
  {
    hide Inv, Step, Run;
    var finish, mark := ABANDONED[0], ABANDONED[1];
    assert ABANDONED == [finish] + [mark];
    RunFirst(w, finish, [mark]);
    var ended := Step(w, finish);
    StepKeeps(w, finish);
    RunOne(ended, mark);
    EndedIsCandidate(w);
    Marks(ended, 2, 0);
    RowStays(ended, 2, 0);
  }

  lemma EndedIsCandidate(w: World)
    requires IsStaging(w.db, 0) && w.db.generations.Keys == {0} && w.db.generations[0].base.None? && w.db.generations[0].owner == 0
    ensures var ended := Step(w, Event.FinishOperation(0, Failed));
            0 in Candidates(ended.db) && ended == w.(db := ended.db) && ended.db.generations == w.db.generations
  {
  }

  lemma RowStays(w: World, call: nat, g: Uuid)
    requires Inv(w) && call !in w.calls && g in Candidates(w.db)
    ensures var next := Step(w, Event.PruneMark(call, [g])); g in next.db.generations && Issued(next, g)
  {
    MarkSteps(w, call, [g]);
    hide Consistent;
    assert Issued(w, g);
  }

  /** From the empty state: the row of a build goes before the build makes its directory. */
  lemma ABuildLeaks(compatibility: Compatibility, digest: Digest) returns (events: seq<Event>)
    ensures Leaked(Run(START, events), 0)
  {
    hide Inv, Step, Run, CanLeak, Leaked, Doomed;
    var first := FirstBuild(compatibility, digest);
    FirstRow(compatibility, digest);
    StartOk();
    RunKeeps(START, first);
    var w := Run(START, first);
    AbandonedIsMarked(w);
    var marked := Run(w, ABANDONED);
    assert Builds(marked.calls[0], 0);
    assert CanLeak(marked, 0) by { assert !Unbuilt(marked, 0); UnbuiltCanLeak(marked, 0); }
    var rest := SomeRunLeaks(marked, 0);
    events := first + (ABANDONED + rest);
    RunAppend(w, ABANDONED, rest);
    RunAppend(START, first, ABANDONED + rest);
  }

  lemma UnbuiltCanLeak(w: World, g: Uuid)
    requires !Unbuilt(w, g)
    ensures CanLeak(w, g)
  {
  }

  /** The events of a builder that has written its store and begun to publish it. */
  function ThenPublish(store: Store): seq<Event> {
    [MakeTemp(0), WriteTemp(0, store, true), PublishEnter(1, 0, 0, None)]
  }

  lemma PublicationBegins(w: World, store: Store)
    requires w.calls == map[0 := Making(0)] && w.temp == map[] && IsActive(w.db, 0)
    requires 0 in w.db.generations && w.db.generations[0].status.Staging? && w.db.generations[0].owner == 0
    ensures var after := Run(w, ThenPublish(store));
            && after.db == w.db && 0 in after.temp && after.calls.Keys == {1} && MayRename(after.calls[1], 0)
  {
    hide Step, Run;
    var make, write, enter := MakeTemp(0), WriteTemp(0, store, true), PublishEnter(1, 0, 0, None);
    assert ThenPublish(store) == [make] + ([write] + [enter]);
    RunFirst(w, make, [write] + [enter]);
    Written(w, store);
    var w1 := Step(w, make);
    RunFirst(w1, write, [enter]);
    RunOne(Step(w1, write), enter);
    Enters0(Step(w1, write));
  }

  lemma Written(w: World, store: Store)
    requires w.calls == map[0 := Making(0)] && w.temp == map[]
    ensures var after := Step(Step(w, MakeTemp(0)), WriteTemp(0, store, true));
            after.db == w.db && after.calls == map[] && 0 in after.temp
  {
    hide StepPublish, StepPrune, StepRows;
    assert Step(w, MakeTemp(0)).calls == map[0 := Writing(0)];
  }

  lemma Enters0(w: World)
    requires w.calls == map[] && 0 in w.temp && IsActive(w.db, 0)
    requires 0 in w.db.generations && w.db.generations[0].status.Staging? && w.db.generations[0].owner == 0
    ensures var after := Step(w, PublishEnter(1, 0, 0, None));
            after.db == w.db && 0 in after.temp && after.calls.Keys == {1} && MayRename(after.calls[1], 0)
  {
    hide StepGeneration, StepPrune, StepRows;
  }

  /** From the empty state: a publication renames between the looks of a prune and its erasures. */
  lemma APublicationLeaks(compatibility: Compatibility, digest: Digest, store: Store) returns (events: seq<Event>)
    ensures Leaked(Run(START, events), 0)
  {
    hide Inv, Step, Run, CanLeak, Leaked, Doomed, MayRename;
    var first, second := FirstBuild(compatibility, digest), ThenPublish(store);
    FirstRow(compatibility, digest);
    StartOk();
    RunKeeps(START, first);
    var w := Run(START, first);
    PublicationBegins(w, store);
    RunKeeps(w, second);
    var begun := Run(w, second);
    AbandonedIsMarked(begun);
    var marked := Run(begun, ABANDONED);
    var rest := PublicationLeaks(marked, 1, 0);
    events := first + (second + (ABANDONED + rest));
    RunAppend(begun, ABANDONED, rest);
    RunAppend(w, second, ABANDONED + rest);
    RunAppend(START, first, second + (ABANDONED + rest));
  }
}
