/**
 The state owner as an object whose rows and directories are updated in place. Each method runs undisturbed;
 its new state is the one the transaction functions of `StateModel` describe.
 */
module StateStore {
  import opened Wrappers
  import opened Contracts
  import opened Sorting
  import opened StateModel
  import opened StateInvariant
  import Protocol

  const PRUNE_MAX_GENERATIONS := 100

  /** The caller's limit, when it is a positive integer, capped. */
  function PruneLimit(maxGenerations: Option<int>): (limit: nat)
    ensures 1 <= limit <= PRUNE_MAX_GENERATIONS
    ensures forall n :: 1 <= n <= 100 && maxGenerations == Some(n) ==> limit == n
    ensures maxGenerations.None? || maxGenerations.value < 1 || maxGenerations.value > 100 ==> limit == 100
  {
    if maxGenerations.Some? && maxGenerations.value > 0
    then if maxGenerations.value < PRUNE_MAX_GENERATIONS then maxGenerations.value else PRUNE_MAX_GENERATIONS
    else PRUNE_MAX_GENERATIONS
  }

  /** The least `limit` members of `candidates`, in ascending order. */
  ghost predicate Selects(candidates: set<Uuid>, limit: nat, selected: seq<Uuid>) {
    && Elements(selected) <= candidates
    && |selected| == (if |candidates| < limit then |candidates| else limit)
    && (forall i, j :: 0 <= i < j < |selected| ==> selected[i] < selected[j])
    && (forall s, c | s in selected && c in candidates && c !in selected :: s < c)
  }

  class State {
    var operations: map<Uuid, Operation>
    var generations: map<Uuid, Generation>
    var current: map<Key, Uuid>
    var pins: set<(Uuid, Uuid)>
    var writers: map<Key, Uuid>
    var enrollments: map<Key, EnrollmentClaim>
    var native: Option<Uuid>
    var temp: map<Uuid, Protocol.Dir>
    var final: map<Uuid, Protocol.Dir>

    function Rows(): Db
      reads this
    {
      Db(operations, generations, current, pins, writers, enrollments, native)
    }

    constructor ()
      ensures Rows() == EMPTY && temp == map[] && final == map[]
    {
      operations, generations, current, pins := map[], map[], map[], {};
      writers, enrollments, native := map[], map[], None;
      temp, final := map[], map[];
    }

    method BeginOperation(id: Uuid, input: OperationInput, pid: nat, now: nat) returns (r: Result<(), ErrorCode>)
      requires id !in operations
      modifies this`operations, this`writers, this`native
      ensures r.Ok? <==> StateModel.BeginOperation(old(Rows()), id, input, pid, now).Ok?
      ensures r.Ok? <==>
                && input.command != "" && input.kind != ""
                && (input.writer ==> input.checkout.Some? && input.checkout.value !in old(writers)
                                     && input.checkout.value !in old(enrollments))
                && (input.native ==> old(native).None?)
      ensures r.Ok? ==> operations == old(operations)[id := Operation(input.command, input.kind, input.checkout, pid, now, Active)]
      ensures r.Ok? ==> writers == if input.writer then old(writers)[input.checkout.value := id] else old(writers)
      ensures r.Ok? ==> native == if input.native then Some(id) else old(native)
      ensures r.Ok? ==> Rows() == StateModel.BeginOperation(old(Rows()), id, input, pid, now).value
      ensures r.Err? ==> r.error == if input.command == "" || input.kind == "" || (input.writer && input.checkout.None?)
                                    then InvalidOperation else Busy
      ensures r.Err? ==> Rows() == old(Rows()) && r.error == StateModel.BeginOperation(old(Rows()), id, input, pid, now).error
    {
      if input.command == "" { return Err(InvalidOperation); }
      if input.kind == "" { return Err(InvalidOperation); }
      if input.writer && input.checkout.None? { return Err(InvalidOperation); }
      if input.writer && input.checkout.Some? {
        if input.checkout.value in writers { return Err(Busy); }
        if input.checkout.value in enrollments { return Err(Busy); }
      }
      if input.native && native.Some? { return Err(Busy); }
      operations := operations[id := Operation(input.command, input.kind, input.checkout, pid, now, Active)];
      if input.writer && input.checkout.Some? {
        writers := writers[input.checkout.value := id];
      }
      if input.native {
        native := Some(id);
      }
      return Ok(());
    }

    method FinishOperation(operation: Uuid, outcome: OperationState)
      modifies this`operations, this`pins, this`writers, this`native, this`enrollments
      ensures Rows() == StateModel.FinishOperation(old(Rows()), operation, outcome)
      ensures operations.Keys == old(operations).Keys && forall o <- operations ::
                operations[o] == if o == operation && old(operations)[o].state.Active? then old(operations)[o].(state := outcome)
                                 else old(operations)[o]
      ensures (forall g :: (operation, g) !in pins) && (forall k :: !HoldsWriter(Rows(), k, operation)) && native != Some(operation)
      ensures forall k <- enrollments :: enrollments[k].operation != operation
    {
      if operation in operations && operations[operation].state.Active? {
        operations := operations[operation := operations[operation].(state := outcome)];
      }
      pins := DropPins(pins, operation);
      writers := DropWriters(writers, operation);
      if native == Some(operation) {
        native := None;
      }
      enrollments := DropEnrollments(enrollments, operation);
    }

    method AcquireNative(operation: Uuid) returns (r: Result<(), ErrorCode>)
      modifies this`native
      ensures r.Ok? <==> IsActive(Rows(), operation) && (old(native).None? || old(native) == Some(operation))
      ensures native == if r.Ok? then Some(operation) else old(native)
      ensures r.Err? ==> r.error == if IsActive(Rows(), operation) then Busy else InvalidOperation
      ensures match StateModel.AcquireNative(old(Rows()), operation)
              case Ok(db) => r.Ok? && Rows() == db
              case Err(e) => r == Err(e) && Rows() == old(Rows())
    {
      if !IsActive(Rows(), operation) { return Err(InvalidOperation); }
      if native.Some? {
        if native.value == operation { return Ok(()); }
        return Err(Busy);
      }
      native := Some(operation);
      return Ok(());
    }

    /** `seen` was read before the probe, and the probe found its process dead. */
    method Recover(operation: Uuid, seen: Operation) returns (r: Result<(), ErrorCode>)
      modifies this`operations, this`pins, this`writers, this`native, this`enrollments
      ensures r.Ok? <==>
                && IsActive(old(Rows()), operation)
                && old(operations)[operation].pid == seen.pid && old(operations)[operation].createdAt == seen.createdAt
      ensures r.Ok? ==>
                && operation in operations && operations[operation].state == Interrupted && native != Some(operation)
                && (forall g :: (operation, g) !in pins) && (forall k :: !HoldsWriter(Rows(), k, operation))
                && (forall k <- enrollments :: enrollments[k].operation != operation)
      ensures match StateModel.Recover(old(Rows()), operation, seen)
              case Ok(db) => r.Ok? && Rows() == db
              case Err(e) => r == Err(e) && Rows() == old(Rows())
    {
      if operation !in operations || !operations[operation].state.Active?
         || operations[operation].pid != seen.pid || operations[operation].createdAt != seen.createdAt {
        return Err(StateMismatch);
      }
      FinishOperation(operation, Interrupted);
      return Ok(());
    }

    /** The row is inserted first and the staging directory made after it; a stale directory is refused. */
    method BeginGeneration(id: Uuid, input: GenerationInput, inode: nat) returns (r: Result<(), ErrorCode>)
      requires id !in generations
      modifies this`generations, this`temp
      ensures id in generations <==>
                && IsActive(Rows(), input.operation) && HoldsWriter(Rows(), input.checkout, input.operation)
                && (input.kind.Full? <==> input.base.None?)
                && (input.base.Some? ==>
                      && (input.operation, input.base.value) in pins && IsReady(old(Rows()), input.base.value)
                      && old(generations)[input.base.value].repo == input.repo
                      && old(generations)[input.base.value].compatibility == input.compatibility)
      ensures match StateModel.BeginGeneration(old(Rows()), id, input)
              case Ok(db) => Rows() == db && r == (if id in old(temp) then Err(PathExists) else Ok(()))
              case Err(e) => Rows() == old(Rows()) && r == Err(e)
      ensures temp == if r.Ok? then old(temp)[id := Protocol.Dir(inode, Store(None, None, None))] else old(temp)
    {
      if input.kind.Full? && input.base.Some? { return Err(InvalidGeneration); }
      if input.kind.Overlay? && input.base.None? { return Err(InvalidGeneration); }
      if !IsActive(Rows(), input.operation) { return Err(InvalidOperation); }
      if !HoldsWriter(Rows(), input.checkout, input.operation) { return Err(InvalidGeneration); }
      if input.kind.Overlay? {
        if (input.operation, input.base.value) !in pins { return Err(InvalidGeneration); }
        if input.base.value !in generations { return Err(InvalidGeneration); }
        var base := generations[input.base.value];
        if !base.status.Ready? { return Err(InvalidGeneration); }
        if base.repo != input.repo { return Err(InvalidGeneration); }
        if base.compatibility != input.compatibility { return Err(InvalidGeneration); }
      }
      generations := generations[id := Generation(input.operation, input.checkout, input.repo, input.kind, input.base,
                                                  input.compatibility, input.digest, input.sourceMoved, input.bytes, Staging)];
      if id in temp { return Err(PathExists); }
      temp := temp[id := Protocol.Dir(inode, Store(None, None, None))];
      return Ok(());
    }

    method AcquireCurrent(operation: Uuid, checkout: Key) returns (r: Result<Acquired, ErrorCode>)
      modifies this`pins
      ensures r.Ok? <==> IsActive(Rows(), operation)
      ensures old(pins) <= pins && forall o, g | (o, g) in pins - old(pins) :: o == operation
      ensures match StateModel.AcquireCurrent(old(Rows()), operation, checkout)
              case Ok((db, acquired)) => r == Ok(acquired) && Rows() == db
              case Err(e) => r == Err(e) && Rows() == old(Rows())
    {
      if !IsActive(Rows(), operation) { return Err(InvalidOperation); }
      if checkout !in current { return Ok(Acquired(None, None)); }
      var id := current[checkout];
      if id !in generations || !generations[id].status.Ready? { return Ok(Acquired(None, None)); }
      var generation := generations[id];
      pins := pins + {(operation, id)};
      var base := None;
      if generation.base.Some? {
        var candidate := generation.base.value;
        if candidate in generations && generations[candidate].status.Ready? {
          base := Some((candidate, generations[candidate]));
          pins := pins + {(operation, candidate)};
          assert pins == old(pins) + {(operation, id), (operation, candidate)};
        }
      }
      return Ok(Acquired(Some((id, generation)), base));
    }

    /** `accepted` is the validator's verdict on the staging directory. */
    method Publish(operation: Uuid, id: Uuid, accepted: bool, finalize: Option<Finalize>) returns (r: Result<(), ErrorCode>)
      modifies this`generations, this`current, this`temp, this`final
      ensures r.Ok? <==>
              && IsActive(old(Rows()), operation) && IsStaging(old(Rows()), id) && old(generations)[id].owner == operation
              && HoldsWriter(old(Rows()), old(generations)[id].checkout, operation)
              && id in old(temp) && accepted && id !in old(final)
      ensures temp != old(temp) <==>
              && IsActive(old(Rows()), operation) && IsStaging(old(Rows()), id) && old(generations)[id].owner == operation
              && id in old(temp) && accepted && id !in old(final)
      ensures r.Ok? <==>
              && PublishEntry(old(Rows()), operation, id).Ok? && id in old(temp) && accepted && id !in old(final)
              && PublishCommit(old(Rows()), operation, id, old(Rows()).generations[id], finalize).Ok?
      ensures r.Ok? ==> Rows() == PublishCommit(old(Rows()), operation, id, old(Rows()).generations[id], finalize).value
      ensures r.Err? ==> Rows() == old(Rows())
      ensures if temp == old(temp) then final == old(final)
              else id in old(temp) && id !in old(final) && temp == old(temp) - {id} && final == old(final)[id := old(temp)[id]]
      ensures r.Ok? ==> temp != old(temp)
    {
      if id !in generations { return Err(InvalidGeneration); }
      var generation := generations[id];
      if !IsActive(Rows(), operation) { return Err(InvalidOperation); }
      if generation.owner != operation { return Err(StateMismatch); }
      if !generation.status.Staging? { return Err(InvalidGeneration); }
      if id !in temp { return Err(ValidationFailed); }
      if !accepted { return Err(ValidationFailed); }
      if id in final { return Err(PathExists); }
      final := final[id := temp[id]];
      temp := temp - {id};
      assert id in old(temp) && id !in temp;
      var claim := HoldsWriter(Rows(), generation.checkout, operation);
      if !claim { return Err(StateMismatch); }
      var moved := if finalize.Some? then finalize.value.sourceMoved else generation.sourceMoved;
      var bytes := if finalize.Some? then finalize.value.bytes else generation.bytes;
      generations := generations[id := generation.(status := Ready, sourceMoved := moved, bytes := bytes)];
      if !moved {
        current := current[generation.checkout := id];
      }
      return Ok(());
    }

    method ClaimEnrollment(checkout: Key, operation: Uuid, forgetting: bool) returns (r: Result<(), ErrorCode>)
      modifies this`enrollments
      ensures r.Ok? <==> IsActive(Rows(), operation) && checkout !in old(enrollments) && (forgetting ==> checkout !in writers)
      ensures match StateModel.ClaimEnrollment(old(Rows()), checkout, operation, forgetting)
              case Ok(db) => r.Ok? && Rows() == db
              case Err(e) => r == Err(e) && Rows() == old(Rows())
    {
      if !IsActive(Rows(), operation) { return Err(InvalidOperation); }
      if forgetting && checkout in writers { return Err(Busy); }
      if checkout in enrollments { return Err(Busy); }
      enrollments := enrollments[checkout := EnrollmentClaim(operation, forgetting)];
      return Ok(());
    }

    method ReleaseEnrollment(checkout: Key, operation: Uuid)
      modifies this`enrollments
      ensures Rows() == StateModel.ReleaseEnrollment(old(Rows()), checkout, operation)
      ensures forall k :: k in enrollments <==>
                k in old(enrollments) && (k != checkout || old(enrollments)[k].operation != operation)
    {
      if checkout in enrollments && enrollments[checkout].operation == operation {
        enrollments := enrollments - {checkout};
      }
    }

    /**
     Forgetting a checkout: refused while it has a writer or an enrollment editor, and otherwise the current
     pointer goes and nothing else but the finished operation row is left behind.
     */
    method ForgetCheckout(checkout: Key, id: Uuid, pid: nat, now: nat) returns (r: Result<(), ErrorCode>)
      requires id !in operations && Consistent(Rows())
      modifies this
      ensures temp == old(temp) && final == old(final)
      ensures r.Ok? <==> checkout !in old(writers) && checkout !in old(enrollments)
      ensures r.Err? ==> r.error == Busy
      ensures Rows() == old(Rows()).(
                operations := old(operations)[id := Operation("enrollment", "metadata", Some(checkout), pid, now, Finished)],
                current := if r.Ok? then old(current) - {checkout} else old(current))
    {
      hide StateModel.BeginOperation, StateModel.ClaimEnrollment, StateModel.ReleaseEnrollment, StateModel.FinishOperation, Consistent;
      ghost var db := Rows();
      ForgetClaims(db, checkout, id, pid, now);
      ForgetLeavesOneRow(db, checkout, id, pid, now);
      var began := BeginOperation(id, OperationInput("enrollment", "metadata", Some(checkout), false, false), pid, now);
      ghost var begun := Rows();
      r := ClaimEnrollment(checkout, id, true);
      ghost var claimed := Rows();
      if r.Ok? {
        current := current - {checkout};
      }
      assert Rows() == if r.Ok? then StateModel.DeleteCurrent(claimed, checkout) else begun;
      hide StateModel.DeleteCurrent;
      ReleaseEnrollment(checkout, id);
      FinishOperation(id, Finished);
    }

    // ---- Prune ---------------------------------------------------------------------------------

    /** Marking: at most the limit, least ids first, and no trigger ever fires. */
    method PruneMark(maxGenerations: Option<int>) returns (selected: seq<Uuid>)
      requires Consistent(Rows())
      modifies this`generations
      ensures Selects(Candidates(old(Rows())), PruneLimit(maxGenerations), selected)
      ensures StateModel.PruneMark(old(Rows()), Elements(selected)) == Ok(Rows())
    {
      selected := SelectCandidates(maxGenerations);
      SelectedAreMarked(Rows(), PruneLimit(maxGenerations), selected);
      hide Consistent, Candidates, Selects, Mark, StateModel.PruneMark, PruneLimit;
      MarkNone(generations);
      assert selected[..0] == [];
      for i := 0 to |selected|
        invariant generations == Mark(old(generations), Elements(selected[..i]))
      {
        var id := selected[i];
        MarkOne(old(generations), selected, i);
        generations := generations[id := generations[id].(status := Deleting)];
      }
      assert selected[..|selected|] == selected;
    }

    method SelectCandidates(maxGenerations: Option<int>) returns (selected: seq<Uuid>)
      ensures Selects(Candidates(Rows()), PruneLimit(maxGenerations), selected)
    {
      var candidates := CandidateList();
      SortedCandidates(Candidates(Rows()), candidates);
      candidates := StableSort((a: Uuid, b: Uuid) => a <= b, candidates);
      var limit := PruneLimit(maxGenerations);
      selected := [];
      for i := 0 to |candidates|
        invariant selected == candidates[..i] && i <= limit
      {
        if |selected| >= limit { break; }
        selected := selected + [candidates[i]];
      }
      PrefixSelects(Candidates(Rows()), limit, candidates, selected);
    }

    /** The candidate loop over the generation rows, in whatever order the query returns them. */
    method CandidateList() returns (candidates: seq<Uuid>)
      ensures forall g :: g in candidates <==> g in Candidates(Rows())
      ensures forall i, j :: 0 <= i < j < |candidates| ==> candidates[i] != candidates[j]
    {
      candidates := [];
      var rows := generations.Keys;
      while rows != {}
        invariant rows <= generations.Keys
        invariant forall g :: g in candidates <==> g in Candidates(Rows()) && g !in rows
        invariant forall i, j :: 0 <= i < j < |candidates| ==> candidates[i] != candidates[j]
        decreases |rows|
      {
        var id :| id in rows;
        rows := rows - {id};
        if IsBase(Rows(), id) { continue; }
        if generations[id].status.Deleting? {
          candidates := candidates + [id];
          continue;
        }
        if generations[id].status.Staging? {
          if !IsActive(Rows(), generations[id].owner) { candidates := candidates + [id]; }
          continue;
        }
        if IsCurrent(Rows(), id) { continue; }
        if IsPinned(Rows(), id) { continue; }
        candidates := candidates + [id];
      }
    }

    /** A whole prune that no deadline cuts short: it is one round on the selected generations. */
    method Prune(maxGenerations: Option<int>) returns (removed: seq<Uuid>)
      requires Consistent(Rows())
      modifies this`generations, this`pins, this`temp, this`final
      ensures Selects(Candidates(old(Rows())), PruneLimit(maxGenerations), removed)
      ensures removed == [] <==> Candidates(old(Rows())) == {}
      ensures Rows() == old(Rows()).(generations := old(generations) - Elements(removed))
      ensures temp == old(temp) - Elements(removed)
      ensures final == old(final) - Elements(removed)
    {
      var marked := PruneMark(maxGenerations);
      removed := RemoveDirectories(marked);
      DeleteRows(removed, Rows());
      forall id <- removed ensures forall pin <- old(pins) :: pin.1 != id {
        assert id in Elements(removed);
        NotPinned(old(Rows()), id);
      }
      assert pins == old(pins);
      assert generations == old(generations) - Elements(removed);
    }

    method RemoveDirectories(marked: seq<Uuid>) returns (removed: seq<Uuid>)
      modifies this`temp, this`final
      ensures removed == marked
      ensures temp == old(temp) - Elements(marked)
      ensures final == old(final) - Elements(marked)
    {
      removed := [];
      for i := 0 to |marked|
        invariant removed == marked[..i]
        invariant temp == old(temp) - Elements(marked[..i]) && final == old(final) - Elements(marked[..i])
      {
        var id := marked[i];
        assert marked[..i + 1] == marked[..i] + [id];
        assert Elements(marked[..i + 1]) == Elements(marked[..i]) + {id};
        if id in temp { temp := temp - {id}; }
        if id in final { final := final - {id}; }
        removed := removed + [id];
      }
      assert marked[..|marked|] == marked;
    }

    method DeleteRows(removed: seq<Uuid>, ghost before: Db)
      requires before == Rows()
      modifies this`generations, this`pins
      ensures generations == before.generations - Elements(removed)
      ensures pins == set pin | pin in before.pins && pin.1 !in Elements(removed)
    {
      for i := 0 to |removed|
        invariant generations == before.generations - Elements(removed[..i])
        invariant pins == set pin | pin in before.pins && pin.1 !in Elements(removed[..i])
      {
        var id := removed[i];
        assert removed[..i + 1] == removed[..i] + [id];
        assert Elements(removed[..i + 1]) == Elements(removed[..i]) + {id};
        generations := generations - {id};
        pins := set pin | pin in pins && pin.1 != id;
      }
      assert removed[..|removed|] == removed;
    }
  }

  lemma SelectedAreMarked(db: Db, limit: nat, selected: seq<Uuid>)
    requires Consistent(db) && Selects(Candidates(db), limit, selected)
    ensures StateModel.PruneMark(db, Elements(selected)) == Ok(db.(generations := Mark(db.generations, Elements(selected))))
    ensures forall id <- selected :: id in db.generations
  {
    PruneMarkKeeps(db, Elements(selected));
    forall id <- selected ensures id in db.generations {
      assert id in Elements(selected) && id in Candidates(db);
    }
  }

  lemma MarkNone(generations: map<Uuid, Generation>)
    ensures Mark(generations, Elements([])) == generations
  {
  }

  lemma MarkOne(generations: map<Uuid, Generation>, selected: seq<Uuid>, i: nat)
    requires i < |selected| && selected[i] in generations
    ensures var before := Mark(generations, Elements(selected[..i]));
            && selected[i] in before
            && Mark(generations, Elements(selected[..i + 1])) == before[selected[i] := before[selected[i]].(status := Deleting)]
  {
    assert selected[..i + 1] == selected[..i] + [selected[i]];
    assert Elements(selected[..i + 1]) == Elements(selected[..i]) + {selected[i]};
  }

  /** The operation that forgets a checkout starts, and its claim is refused only while another one holds the checkout. */
  lemma ForgetClaims(db: Db, checkout: Key, id: Uuid, pid: nat, now: nat)
    ensures var began := StateModel.BeginOperation(db, id, OperationInput("enrollment", "metadata", Some(checkout), false, false), pid, now);
            && began.Ok?
            && var claimed := StateModel.ClaimEnrollment(began.value, checkout, id, true);
               if checkout in db.writers || checkout in db.enrollments then claimed == Err(Busy) else claimed.Ok?
  {
  }

  /** Releasing and finishing leave nothing of the operation but its row, whether or not it had the claim. */
  lemma ForgetLeavesOneRow(db: Db, checkout: Key, id: Uuid, pid: nat, now: nat)
    requires id !in db.operations && Consistent(db)
    ensures var began := StateModel.BeginOperation(db, id, OperationInput("enrollment", "metadata", Some(checkout), false, false), pid, now).value;
            var claimed := StateModel.ClaimEnrollment(began, checkout, id, true);
            var claiming := if claimed.Ok? then StateModel.DeleteCurrent(claimed.value, checkout) else began;
            StateModel.FinishOperation(StateModel.ReleaseEnrollment(claiming, checkout, id), id, Finished)
            == db.(operations := db.operations[id := Operation("enrollment", "metadata", Some(checkout), pid, now, Finished)],
                   current := claiming.current)
            && claiming.current == if claimed.Ok? then db.current - {checkout} else db.current
  {
    NewcomerHoldsNothing(db, id);
  }

  lemma NewcomerHoldsNothing(db: Db, id: Uuid)
    requires Consistent(db) && id !in db.operations
    ensures DropPins(db.pins, id) == db.pins && DropWriters(db.writers, id) == db.writers
    ensures DropEnrollments(db.enrollments, id) == db.enrollments && db.native != Some(id)
    ensures forall k :: k !in db.enrollments ==>
              db.enrollments[k := EnrollmentClaim(id, true)] - {k} == db.enrollments
  {
    forall pin <- db.pins ensures pin.0 != id {
      assert (pin.0, pin.1) in db.pins;
    }
  }

  lemma NotPinned(db: Db, id: Uuid)
    requires Consistent(db) && id in Candidates(db)
    ensures forall pin <- db.pins :: pin.1 != id
  {
    forall pin <- db.pins ensures pin.1 != id {
      assert (pin.0, pin.1) in db.pins;
      if pin.1 == id { assert IsPinned(db, id); }
    }
  }

  lemma SortedCandidates(all: set<Uuid>, list: seq<Uuid>)
    requires forall g :: g in list <==> g in all
    requires NoRepeats(list)
    ensures var sorted := StableSort((a: Uuid, b: Uuid) => a <= b, list);
            && Elements(sorted) == all && |sorted| == |all|
            && (forall i, j :: 0 <= i < j < |sorted| ==> sorted[i] < sorted[j])
  {
    var le := (a: Uuid, b: Uuid) => a <= b;
    StableSortSorts(le, list);
    StableSortKeepsDistinct(le, list);
    hide StableSort;
    var sorted := StableSort(le, list);
    forall i, j | 0 <= i < j < |sorted| ensures sorted[i] < sorted[j] {
      assert le(sorted[i], sorted[j]) && sorted[i] != sorted[j];
    }
    AscendingSize(sorted);
  }

  lemma {:induction false} AscendingSize(s: seq<Uuid>)
    requires forall i, j :: 0 <= i < j < |s| ==> s[i] < s[j]
    ensures |Elements(s)| == |s|
  {
    if s != [] {
      AscendingSize(s[1..]);
      assert Elements(s) == {s[0]} + Elements(s[1..]);
    }
  }

  lemma PrefixSelects(all: set<Uuid>, limit: nat, sorted: seq<Uuid>, selected: seq<Uuid>)
    requires Elements(sorted) == all && |sorted| == |all|
    requires forall i, j :: 0 <= i < j < |sorted| ==> sorted[i] < sorted[j]
    requires selected == if |sorted| <= limit then sorted else sorted[..limit]
    ensures Selects(all, limit, selected)
  {
    forall s, c | s in selected && c in all && c !in selected ensures s < c {
      var i :| 0 <= i < |selected| && selected[i] == s;
      assert c in sorted;
      var j :| 0 <= j < |sorted| && sorted[j] == c;
      assert sorted[i] == s && j >= |selected|;
    }
  }
}
