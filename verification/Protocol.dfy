/**
 The whole state owner as a transition system: any number of calls in progress, interleaved at every boundary
 between a transaction and a filesystem action, each of which may stop at any point.
 */
module Protocol {
  import opened Wrappers
  import opened Contracts
  import opened StateModel
  import opened StateInvariant

  /** A directory: `inode` is its identity, `store` its content. */
  datatype Dir = Dir(inode: nat, store: Store)

  datatype Side = TempSide | FinalSide

  /** What a publication did last: read the row, looked at the staging directory, validated it, found the final path free, and so on. */
  datatype Phase = Opened | Entered | Accepted | Free | Rechecked | Renamed | Confirmed

  /** What a prune knows about the directories of the generation in hand. */
  datatype Look = Unseen | TempSeen(found: bool) | Paths(rest: seq<Side>)

  /** A call in progress: it has committed a transaction or read a row, and has not yet finished. */
  datatype Call =
    | Making(generation: Uuid)
    | Writing(generation: Uuid)
    | Publishing(operation: Uuid, generation: Uuid, seen: Generation, inode: nat, finalize: Option<Finalize>, phase: Phase)
    | Pruning(todo: seq<Uuid>, look: Look, removed: seq<Uuid>)

  /** `issued` is every generation id ever inserted, oldest first. */
  datatype World = World(db: Db, temp: map<Uuid, Dir>, final: map<Uuid, Dir>, calls: map<nat, Call>, issued: seq<Uuid>, inodes: nat)

  const START := World(EMPTY, map[], map[], map[], [], 0)

  datatype Event =
    | BeginOperation(id: Uuid, opening: OperationInput, pid: nat, now: nat)
    | FinishOperation(operation: Uuid, outcome: OperationState)
    | AcquireNative(operation: Uuid)
    | Recover(operation: Uuid, seen: Operation)
    | AcquireCurrent(operation: Uuid, checkout: Key)
    | ClaimEnrollment(checkout: Key, operation: Uuid, forgetting: bool)
    | ReleaseEnrollment(checkout: Key, operation: Uuid)
    | DeleteCurrent(checkout: Key)
    | BeginGeneration(call: nat, id: Uuid, input: GenerationInput)
    | MakeTemp(call: nat)
    | WriteTemp(call: nat, store: Store, last: bool)
    | PublishEnter(call: nat, operation: Uuid, generation: Uuid, finalize: Option<Finalize>)
    | PublishStat(call: nat)
    | PublishAccept(call: nat)
    | PublishFree(call: nat)
    | PublishRecheck(call: nat)
    | PublishRename(call: nat)
    | PublishConfirm(call: nat)
    | PublishCommit(call: nat)
    | PruneMark(call: nat, order: seq<Uuid>)
    | PruneLook(call: nat)
    | PruneErase(call: nat)
    | PruneNext(call: nat)
    | PruneDelete(call: nat)
    | Stop(call: nat)

  predicate IsPublish(e: Event) {
    || e.PublishEnter? || e.PublishStat? || e.PublishAccept? || e.PublishFree? || e.PublishRecheck? || e.PublishRename?
    || e.PublishConfirm? || e.PublishCommit?
  }

  predicate IsPrune(e: Event) {
    e.PruneMark? || e.PruneLook? || e.PruneErase? || e.PruneNext? || e.PruneDelete?
  }

  predicate IsBuilding(e: Event) {
    e.BeginGeneration? || e.MakeTemp? || e.WriteTemp?
  }

  predicate IsRows(e: Event) {
    || e.BeginOperation? || e.FinishOperation? || e.AcquireNative? || e.Recover? || e.AcquireCurrent?
    || e.ClaimEnrollment? || e.ReleaseEnrollment? || e.DeleteCurrent?
  }

  function End(w: World, call: nat): World {
    w.(calls := w.calls - {call})
  }

  function Commit(w: World, outcome: Result<Db, ErrorCode>): World {
    if outcome.Ok? then w.(db := outcome.value) else w
  }

  // ---- Publication -----------------------------------------------------------------------------

  predicate SameDir(dirs: map<Uuid, Dir>, generation: Uuid, inode: nat) {
    generation in dirs && dirs[generation].inode == inode
  }

  predicate InPhase(w: World, call: nat, phase: Phase) {
    call in w.calls && w.calls[call].Publishing? && w.calls[call].phase == phase
  }

  /** A call that makes or fills the staging directory of `g`. */
  predicate Builds(call: Call, g: Uuid) {
    (call.Making? || call.Writing?) && call.generation == g
  }

  /** No builder is at work on `g`. */
  predicate Unbuilt(w: World, g: Uuid) {
    forall c <- w.calls :: !Builds(w.calls[c], g)
  }

  function Advance(w: World, call: nat, phase: Phase): World
    requires call in w.calls && w.calls[call].Publishing?
  {
    w.(calls := w.calls[call := w.calls[call].(phase := phase)])
  }

  function StepPublish(w: World, e: Event): World
    requires IsPublish(e)
  {
    match e
    case PublishEnter(call, operation, id, finalize) =>
      // A builder publishes after its last write.
      if call in w.calls || !Unbuilt(w, id) then w
      else
        var entry := StateModel.PublishEntry(w.db, operation, id);
        if entry.Err? then w
        else w.(calls := w.calls[call := Publishing(operation, id, entry.value, 0, finalize, Opened)])
    case PublishStat(call) =>
      if !InPhase(w, call, Opened) then w
      else
        var p := w.calls[call];
        if p.generation !in w.temp then End(w, call)
        else w.(calls := w.calls[call := p.(inode := w.temp[p.generation].inode, phase := Entered)])
    case PublishAccept(call) =>
      if !InPhase(w, call, Entered) then w
      else if !SameDir(w.temp, w.calls[call].generation, w.calls[call].inode) then End(w, call)
      else Advance(w, call, Accepted)
    case PublishFree(call) =>
      if !InPhase(w, call, Accepted) then w
      else if w.calls[call].generation in w.final then End(w, call)
      else Advance(w, call, Free)
    case PublishRecheck(call) =>
      if !InPhase(w, call, Free) then w
      else if !SameDir(w.temp, w.calls[call].generation, w.calls[call].inode) then End(w, call)
      else Advance(w, call, Rechecked)
    case PublishRename(call) =>
      if !InPhase(w, call, Rechecked) then w
      else
        var id := w.calls[call].generation;
        if id !in w.temp then End(w, call)
        else Advance(w.(temp := w.temp - {id}, final := w.final[id := w.temp[id]]), call, Renamed)
    case PublishConfirm(call) =>
      if !InPhase(w, call, Renamed) then w
      else if !SameDir(w.final, w.calls[call].generation, w.calls[call].inode) then End(w, call)
      else Advance(w, call, Confirmed)
    case PublishCommit(call) =>
      if !InPhase(w, call, Confirmed) then w
      else
        var p := w.calls[call];
        End(Commit(w, StateModel.PublishCommit(w.db, p.operation, p.generation, p.seen, p.finalize)), call)
  }

  // ---- Prune -----------------------------------------------------------------------------------

  /** A prune with a generation in hand. */
  predicate Prunes(w: World, call: nat) {
    call in w.calls && w.calls[call].Pruning? && w.calls[call].todo != []
  }

  function StepPrune(w: World, e: Event): World
    requires IsPrune(e)
  {
    match e
    case PruneMark(call, order) =>
      // Which candidates are selected depends on the caller's limit and on the clock.
      var chosen := Elements(order);
      if call in w.calls || !(chosen <= Candidates(w.db)) then w
      else
        var marked := StateModel.PruneMark(w.db, chosen);
        if marked.Err? then w
        else w.(db := marked.value, calls := w.calls[call := Pruning(order, Unseen, [])])
    case PruneLook(call) =>
      // First at the staging path, then at the final path.
      if !Prunes(w, call) || w.calls[call].look.Paths? then w
      else
        var p := w.calls[call];
        var look := if p.look.Unseen? then TempSeen(p.todo[0] in w.temp)
                    else Paths((if p.look.found then [TempSide] else []) + (if p.todo[0] in w.final then [FinalSide] else []));
        w.(calls := w.calls[call := p.(look := look)])
    case PruneErase(call) =>
      if !Prunes(w, call) || !w.calls[call].look.Paths? || w.calls[call].look.rest == [] then w
      else
        var p := w.calls[call];
        var next := w.(calls := w.calls[call := p.(look := Paths(p.look.rest[1..]))]);
        if p.look.rest[0].TempSide? then next.(temp := w.temp - {p.todo[0]})
        else next.(final := w.final - {p.todo[0]})
    case PruneNext(call) =>
      if !Prunes(w, call) || w.calls[call].look != Paths([]) then w
      else
        var p := w.calls[call];
        w.(calls := w.calls[call := Pruning(p.todo[1..], Unseen, p.removed + [p.todo[0]])])
    case PruneDelete(call) =>
      // A deadline may end the removal of directories at any point.
      if call !in w.calls || !w.calls[call].Pruning? then w
      else End(Commit(w, StateModel.PruneDelete(w.db, w.calls[call].removed)), call)
  }

  // ---- One step --------------------------------------------------------------------------------

  function StepGeneration(w: World, e: Event): World
    requires IsBuilding(e)
  {
    match e
    case BeginGeneration(call, id, input) =>
      if call in w.calls || id in w.issued then w
      else
        var begun := StateModel.BeginGeneration(w.db, id, input);
        if begun.Err? then w
        else w.(db := begun.value, calls := w.calls[call := Making(id)], issued := w.issued + [id])
    case MakeTemp(call) =>
      if call !in w.calls || !w.calls[call].Making? then w
      else
        var id := w.calls[call].generation;
        if id in w.temp then End(w, call)
        else w.(calls := w.calls[call := Writing(id)], temp := w.temp[id := Dir(w.inodes, Store(None, None, None))], inodes := w.inodes + 1)
    case WriteTemp(call, store, last) =>
      // Every writer makes the directory first if it is not there, so an erased one comes back.
      if call !in w.calls || !w.calls[call].Writing? then w
      else
        var id := w.calls[call].generation;
        var dir := Dir(if id in w.temp then w.temp[id].inode else w.inodes, store);
        w.(temp := w.temp[id := dir], inodes := w.inodes + 1, calls := if last then w.calls - {call} else w.calls)
  }

  function StepRows(w: World, e: Event): World
    requires IsRows(e)
  {
    match e
    case BeginOperation(id, opening, pid, now) =>
      if id in w.db.operations then w else Commit(w, StateModel.BeginOperation(w.db, id, opening, pid, now))
    case FinishOperation(operation, outcome) =>
      if outcome.Active? then w else w.(db := StateModel.FinishOperation(w.db, operation, outcome))
    case AcquireNative(operation) => Commit(w, StateModel.AcquireNative(w.db, operation))
    case Recover(operation, seen) => Commit(w, StateModel.Recover(w.db, operation, seen))
    case AcquireCurrent(operation, checkout) =>
      var acquired := StateModel.AcquireCurrent(w.db, operation, checkout);
      if acquired.Ok? then w.(db := acquired.value.0) else w
    case ClaimEnrollment(checkout, operation, forgetting) =>
      Commit(w, StateModel.ClaimEnrollment(w.db, checkout, operation, forgetting))
    case ReleaseEnrollment(checkout, operation) => w.(db := StateModel.ReleaseEnrollment(w.db, checkout, operation))
    case DeleteCurrent(checkout) => w.(db := StateModel.DeleteCurrent(w.db, checkout))
  }

  /** One event. An event whose guard fails, or whose call throws, changes at most the call itself. */
  function Step(w: World, e: Event): World {
    if e.Stop? then End(w, e.call)
    else if IsPublish(e) then StepPublish(w, e)
    else if IsPrune(e) then StepPrune(w, e)
    else if IsBuilding(e) then StepGeneration(w, e)
    else StepRows(w, e)
  }

  function Run(w: World, events: seq<Event>): World
    decreases events
  {
    if events == [] then w else Run(Step(w, events[0]), events[1..])
  }
}
