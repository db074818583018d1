/** A publication that nothing disturbs succeeds. */
module Publication {
  import opened Wrappers
  import opened Contracts
  import opened StateModel
  import opened StateInvariant
  import opened Protocol
  import opened ProtocolInvariant
  import opened PruneConvergence
  import ProtocolSafety

  function PublishEvents(call: nat, o: Uuid, g: Uuid, finalize: Option<Finalize>): seq<Event> {
    [PublishEnter(call, o, g, finalize), PublishStat(call), PublishAccept(call), PublishFree(call), PublishRecheck(call),
     PublishRename(call), PublishConfirm(call), Event.PublishCommit(call)]
  }

  lemma RunEight(w: World, a: Event, b: Event, c: Event, d: Event, e: Event, f: Event, g: Event, h: Event)
    ensures Run(w, [a, b, c, d, e, f, g, h]) == Step(Step(Step(Step(Step(Step(Step(Step(w, a), b), c), d), e), f), g), h)
  {
    hide Step, Run;
    assert [a, b, c, d] + [e, f, g, h] == [a, b, c, d, e, f, g, h];
    RunAppend(w, [a, b, c, d], [e, f, g, h]);
    RunFour(w, a, b, c, d);
    RunFour(Run(w, [a, b, c, d]), e, f, g, h);
  }

  // ---- An undisturbed publication --------------------------------------------------------------

  /** What the caller of publish must have arranged. */
  ghost predicate MayPublish(w: World, o: Uuid, g: Uuid) {
    && IsStaging(w.db, g) && w.db.generations[g].owner == o && IsActive(w.db, o)
    && HoldsWriter(w.db, w.db.generations[g].checkout, o)
    && g in w.temp && g !in w.final && Unbuilt(w, g)
  }

  function Moved(seen: Generation, finalize: Option<Finalize>): bool {
    if finalize.Some? then finalize.value.sourceMoved else seen.sourceMoved
  }

  lemma Enters(w: World, call: nat, o: Uuid, g: Uuid, finalize: Option<Finalize>)
    requires call !in w.calls && MayPublish(w, o, g)
    ensures Step(w, PublishEnter(call, o, g, finalize))
         == w.(calls := w.calls[call := Publishing(o, g, w.db.generations[g], 0, finalize, Opened)])
  {
  }

  lemma Stats(w: World, call: nat)
    requires InPhase(w, call, Opened) && w.calls[call].generation in w.temp
    ensures Step(w, PublishStat(call))
         == w.(calls := w.calls[call := w.calls[call].(inode := w.temp[w.calls[call].generation].inode, phase := Entered)])
  {
  }

  lemma Checks(w: World, call: nat)
    requires call in w.calls && w.calls[call].Publishing? && w.calls[call].generation !in w.final
    requires SameDir(w.temp, w.calls[call].generation, w.calls[call].inode)
    ensures InPhase(w, call, Entered) ==> Step(w, PublishAccept(call)) == Advance(w, call, Accepted)
    ensures InPhase(w, call, Accepted) ==> Step(w, PublishFree(call)) == Advance(w, call, Free)
    ensures InPhase(w, call, Free) ==> Step(w, PublishRecheck(call)) == Advance(w, call, Rechecked)
  {
  }

  lemma Renames(w: World, call: nat)
    requires InPhase(w, call, Rechecked) && w.calls[call].generation in w.temp
    ensures var g := w.calls[call].generation;
            Step(w, PublishRename(call)) == Advance(w.(temp := w.temp - {g}, final := w.final[g := w.temp[g]]), call, Renamed)
  {
  }

  lemma Confirms(w: World, call: nat)
    requires InPhase(w, call, Renamed) && SameDir(w.final, w.calls[call].generation, w.calls[call].inode)
    ensures Step(w, PublishConfirm(call)) == Advance(w, call, Confirmed)
  {
  }

  function Opening(w: World, o: Uuid, g: Uuid, finalize: Option<Finalize>, inode: nat, phase: Phase): Call
    requires g in w.db.generations
  {
    Publishing(o, g, w.db.generations[g], inode, finalize, phase)
  }

  /** Up to the rename, nothing but the call itself changes. */
  lemma ReachesRename(w: World, call: nat, o: Uuid, g: Uuid, finalize: Option<Finalize>)
    requires call !in w.calls && MayPublish(w, o, g)
    ensures Step(Step(Step(Step(Step(w, PublishEnter(call, o, g, finalize)), PublishStat(call)), PublishAccept(call)),
                      PublishFree(call)), PublishRecheck(call))
         == w.(calls := w.calls[call := Opening(w, o, g, finalize, w.temp[g].inode, Rechecked)])
  {
    hide Step, MayPublish;
    Enters(w, call, o, g, finalize);
    Present(w, o, g);
    var w1 := Step(w, PublishEnter(call, o, g, finalize));
    Stats(w1, call);
    var w2 := Step(w1, PublishStat(call));
    Checks(w2, call);
    var w3 := Step(w2, PublishAccept(call));
    Checks(w3, call);
    var w4 := Step(w3, PublishFree(call));
    Checks(w4, call);
    assert Step(w4, PublishRecheck(call)).calls == w.calls[call := Opening(w, o, g, finalize, w.temp[g].inode, Rechecked)];
  }

  /** Up to the transaction, only the directory moves. */
  lemma ReachesCommit(w: World, call: nat, g: Uuid)
    requires InPhase(w, call, Rechecked) && w.calls[call].generation == g && SameDir(w.temp, g, w.calls[call].inode)
    ensures Step(Step(w, PublishRename(call)), PublishConfirm(call))
         == w.(temp := w.temp - {g}, final := w.final[g := w.temp[g]], calls := w.calls[call := w.calls[call].(phase := Confirmed)])
  {
    hide Step;
    Renames(w, call);
    var w1 := Step(w, PublishRename(call));
    Confirms(w1, call);
  }

  lemma Present(w: World, o: Uuid, g: Uuid)
    requires MayPublish(w, o, g)
    ensures g in w.temp && g !in w.final && g in w.db.generations
  {
  }

  /**
   A publication that nothing interrupts makes its generation ready with the very directory it was given, and makes
   it current unless its source had moved; it changes nothing else.
   */
  lemma UndisturbedPublicationSucceeds(w: World, call: nat, o: Uuid, g: Uuid, finalize: Option<Finalize>)
    requires call !in w.calls && MayPublish(w, o, g)
    ensures var after := Run(w, PublishEvents(call, o, g, finalize));
            var seen := w.db.generations[g];
            && IsReady(after.db, g) && after.db.generations[g].sourceMoved == Moved(seen, finalize)
            && after.final == w.final[g := w.temp[g]] && after.temp == w.temp - {g} && after.calls == w.calls
            && after.db.current == (if Moved(seen, finalize) then w.db.current else w.db.current[seen.checkout := g])
            && after == w.(db := w.db.(current := after.db.current,
                                       generations := w.db.generations[g := seen.(status := Ready, sourceMoved := Moved(seen, finalize),
                                                        bytes := if finalize.Some? then finalize.value.bytes else seen.bytes)]),
                           temp := after.temp, final := after.final)
  {
    hide Step, Run;
    RunEight(w, PublishEnter(call, o, g, finalize), PublishStat(call), PublishAccept(call), PublishFree(call),
             PublishRecheck(call), PublishRename(call), PublishConfirm(call), Event.PublishCommit(call));
    ReachesRename(w, call, o, g, finalize);
    var p := Opening(w, o, g, finalize, w.temp[g].inode, Rechecked);
    var w5 := w.(calls := w.calls[call := p]);
    ReachesCommit(w5, call, g);
    var w7 := Step(Step(w5, PublishRename(call)), PublishConfirm(call));
    ProtocolSafety.Commits(w7, call);
    assert StateModel.PublishCommit(w.db, o, g, w.db.generations[g], finalize).Ok?;
    assert w7.calls - {call} == w.calls;
  }
}
