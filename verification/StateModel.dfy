/**
 The generation database: its rows, and one function for every immediate transaction of the state owner.
 A transaction that throws is rolled back, so it is `Err` and has no new database.
 */
module StateModel {
  import opened Wrappers
  import opened Contracts

  /** Canonical lowercase UUIDs are ordered as the numbers they spell. */
  type Uuid = nat

  /** Checkout and repository keys: 64 lowercase hex characters, also read as numbers. */
  type Key = nat

  datatype ErrorCode = Busy | InvalidOperation | InvalidGeneration | ValidationFailed | PathExists | StateMismatch | Constraint

  datatype OperationState = Active | Finished | Failed | Interrupted

  datatype Operation = Operation(command: string, kind: string, checkout: Option<Key>, pid: nat, createdAt: nat, state: OperationState)

  datatype OperationInput = OperationInput(command: string, kind: string, checkout: Option<Key>, writer: bool, native: bool)

  datatype GenerationKind = Full | Overlay

  datatype Status = Staging | Ready | Deleting

  datatype Generation = Generation(owner: Uuid, checkout: Key, repo: Key, kind: GenerationKind, base: Option<Uuid>,
                                   compatibility: Compatibility, digest: Digest, sourceMoved: bool, bytes: nat, status: Status)

  datatype GenerationInput = GenerationInput(operation: Uuid, checkout: Key, repo: Key, kind: GenerationKind, base: Option<Uuid>,
                                             compatibility: Compatibility, digest: Digest, sourceMoved: bool, bytes: nat)

  datatype Finalize = Finalize(sourceMoved: bool, bytes: nat)

  /** `forgetting` is not a column: it remembers which call inserted the claim. */
  datatype EnrollmentClaim = EnrollmentClaim(operation: Uuid, forgetting: bool)

  datatype Db = Db(
    operations: map<Uuid, Operation>,
    generations: map<Uuid, Generation>,
    current: map<Key, Uuid>,
    pins: set<(Uuid, Uuid)>,
    writers: map<Key, Uuid>,
    enrollments: map<Key, EnrollmentClaim>,
    native: Option<Uuid>)

  datatype Acquired = Acquired(current: Option<(Uuid, Generation)>, base: Option<(Uuid, Generation)>)

  const EMPTY := Db(map[], map[], map[], {}, map[], map[], None)

  predicate IsActive(db: Db, operation: Uuid) {
    operation in db.operations && db.operations[operation].state.Active?
  }

  predicate IsReady(db: Db, generation: Uuid) {
    generation in db.generations && db.generations[generation].status.Ready?
  }

  predicate IsStaging(db: Db, generation: Uuid) {
    generation in db.generations && db.generations[generation].status.Staging?
  }

  predicate HoldsWriter(db: Db, checkout: Key, operation: Uuid) {
    checkout in db.writers && db.writers[checkout] == operation
  }

  /** Some generation row names `generation` as its base. */
  predicate IsBase(db: Db, generation: Uuid) {
    exists g <- db.generations :: db.generations[g].base == Some(generation)
  }

  predicate IsCurrent(db: Db, generation: Uuid) {
    exists k <- db.current :: db.current[k] == generation
  }

  predicate IsPinned(db: Db, generation: Uuid) {
    exists pin <- db.pins :: pin.1 == generation
  }

  // ---- Operations ------------------------------------------------------------------------------

  function BeginOperation(db: Db, id: Uuid, input: OperationInput, pid: nat, now: nat): Result<Db, ErrorCode> {
    var claims := input.writer && input.checkout.Some?;
    if input.command == "" || input.kind == "" then Err(InvalidOperation)
    else if input.writer && input.checkout.None? then Err(InvalidOperation)
    else if claims && input.checkout.value in db.writers then Err(Busy)
    else if claims && input.checkout.value in db.enrollments then Err(Busy)
    else if input.native && db.native.Some? then Err(Busy)
    else Ok(db.(
      operations := db.operations[id := Operation(input.command, input.kind, input.checkout, pid, now, Active)],
      writers := if claims then db.writers[input.checkout.value := id] else db.writers,
      native := if input.native then Some(id) else db.native))
  }

  /** The row of an active operation takes its outcome; any other row is left alone. */
  function EndOperation(operations: map<Uuid, Operation>, operation: Uuid, outcome: OperationState): map<Uuid, Operation> {
    if operation in operations && operations[operation].state.Active?
    then operations[operation := operations[operation].(state := outcome)]
    else operations
  }

  function DropPins(pins: set<(Uuid, Uuid)>, operation: Uuid): set<(Uuid, Uuid)> {
    set pin | pin in pins && pin.0 != operation
  }

  function DropWriters(writers: map<Key, Uuid>, operation: Uuid): map<Key, Uuid> {
    map k | k in writers && writers[k] != operation :: writers[k]
  }

  function DropEnrollments(enrollments: map<Key, EnrollmentClaim>, operation: Uuid): map<Key, EnrollmentClaim> {
    map k | k in enrollments && enrollments[k].operation != operation :: enrollments[k]
  }

  /** Ending an operation, if it is active, and deleting its pins and claims whether it is or not. */
  function FinishOperation(db: Db, operation: Uuid, outcome: OperationState): Db {
    db.(
      operations := EndOperation(db.operations, operation, outcome),
      pins := DropPins(db.pins, operation),
      writers := DropWriters(db.writers, operation),
      native := if db.native == Some(operation) then None else db.native,
      enrollments := DropEnrollments(db.enrollments, operation))
  }

  function AcquireNative(db: Db, operation: Uuid): Result<Db, ErrorCode> {
    if !IsActive(db, operation) then Err(InvalidOperation)
    else if db.native.Some? then if db.native.value == operation then Ok(db) else Err(Busy)
    else Ok(db.(native := Some(operation)))
  }

  /** The transaction of `recover`, after the owner recorded in `seen` was probed and found dead. */
  function Recover(db: Db, operation: Uuid, seen: Operation): Result<Db, ErrorCode> {
    if !IsActive(db, operation)
       || db.operations[operation].pid != seen.pid
       || db.operations[operation].createdAt != seen.createdAt then Err(StateMismatch)
    else Ok(FinishOperation(db, operation, Interrupted))
  }

  // ---- Generations -----------------------------------------------------------------------------

  function BeginGeneration(db: Db, id: Uuid, input: GenerationInput): Result<Db, ErrorCode> {
    if input.kind.Full? && input.base.Some? then Err(InvalidGeneration)
    else if input.kind.Overlay? && input.base.None? then Err(InvalidGeneration)
    else if !IsActive(db, input.operation) then Err(InvalidOperation)
    else if !HoldsWriter(db, input.checkout, input.operation) then Err(InvalidGeneration)
    else if input.kind.Overlay? && (input.operation, input.base.value) !in db.pins then Err(InvalidGeneration)
    else if input.kind.Overlay? && input.base.value !in db.generations then Err(InvalidGeneration)
    else if input.kind.Overlay?
         && (var base := db.generations[input.base.value];
             !base.status.Ready? || base.repo != input.repo || base.compatibility != input.compatibility) then Err(InvalidGeneration)
    else Ok(db.(generations := db.generations[id :=
      Generation(input.operation, input.checkout, input.repo, input.kind, input.base, input.compatibility,
                 input.digest, input.sourceMoved, input.bytes, Staging)]))
  }

  function AcquireCurrent(db: Db, operation: Uuid, checkout: Key): Result<(Db, Acquired), ErrorCode> {
    if !IsActive(db, operation) then Err(InvalidOperation)
    else if checkout !in db.current || !IsReady(db, db.current[checkout]) then Ok((db, Acquired(None, None)))
    else
      var id := db.current[checkout];
      var generation := db.generations[id];
      if generation.base.Some? && IsReady(db, generation.base.value) then
        Ok((db.(pins := db.pins + {(operation, id), (operation, generation.base.value)}),
            Acquired(Some((id, generation)), Some((generation.base.value, db.generations[generation.base.value])))))
      else
        Ok((db.(pins := db.pins + {(operation, id)}), Acquired(Some((id, generation)), None)))
  }

  /** The checks `publish` makes on rows before it looks at the staging directory. */
  function PublishEntry(db: Db, operation: Uuid, id: Uuid): Result<Generation, ErrorCode> {
    if id !in db.generations then Err(InvalidGeneration)
    else if !IsActive(db, operation) then Err(InvalidOperation)
    else if db.generations[id].owner != operation then Err(StateMismatch)
    else if !db.generations[id].status.Staging? then Err(InvalidGeneration)
    else Ok(db.generations[id])
  }

  /** The publishing transaction; `seen` is the row read when `publish` was entered. */
  function PublishCommit(db: Db, operation: Uuid, id: Uuid, seen: Generation, finalize: Option<Finalize>): Result<Db, ErrorCode> {
    if !IsActive(db, operation) then Err(InvalidOperation)
    else if !IsStaging(db, id) || db.generations[id].owner != operation then Err(StateMismatch)
    else if !HoldsWriter(db, seen.checkout, operation) then Err(StateMismatch)
    else
      var moved := if finalize.Some? then finalize.value.sourceMoved else seen.sourceMoved;
      var bytes := if finalize.Some? then finalize.value.bytes else seen.bytes;
      var published := db.generations[id].(status := Ready, sourceMoved := moved, bytes := bytes);
      // The triggers on current rows want a ready generation of the same checkout.
      if !moved && published.checkout != seen.checkout then Err(Constraint)
      else Ok(db.(
        generations := db.generations[id := published],
        current := if moved then db.current else db.current[seen.checkout := id]))
  }

  // ---- Prune -----------------------------------------------------------------------------------

  predicate IsCandidate(db: Db, id: Uuid) {
    && id in db.generations
    && !IsBase(db, id)
    && match db.generations[id].status
       case Deleting => true
       case Staging => !IsActive(db, db.generations[id].owner)
       case Ready => !IsCurrent(db, id) && !IsPinned(db, id)
  }

  function Candidates(db: Db): set<Uuid> {
    set g | g in db.generations && IsCandidate(db, g)
  }

  function Elements(ids: seq<Uuid>): set<Uuid> {
    set g | g in ids
  }

  /** Marking the selected candidates; a trigger keeps a current generation from leaving ready. */
  function PruneMark(db: Db, chosen: set<Uuid>): Result<Db, ErrorCode> {
    if exists g <- chosen :: IsCurrent(db, g) then Err(Constraint)
    else Ok(db.(generations := Mark(db.generations, chosen)))
  }

  function Mark(generations: map<Uuid, Generation>, chosen: set<Uuid>): map<Uuid, Generation> {
    map g | g in generations :: if g in chosen then generations[g].(status := Deleting) else generations[g]
  }

  /** Deleting one generation row: foreign keys protect current and base rows, and pins cascade. */
  function DeleteRow(db: Db, id: Uuid): Result<Db, ErrorCode> {
    if id in db.generations && (IsCurrent(db, id) || IsBase(db, id)) then Err(Constraint)
    else Ok(db.(generations := (map g | g in db.generations && g != id :: db.generations[g]),
                pins := (set pin | pin in db.pins && pin.1 != id)))
  }

  function PruneDelete(db: Db, removed: seq<Uuid>): Result<Db, ErrorCode>
    decreases removed
  {
    if removed == [] then Ok(db)
    else match DeleteRow(db, removed[0])
      case Ok(rest) => PruneDelete(rest, removed[1..])
      case Err(e) => Err(e)
  }

  // ---- Enrollment ------------------------------------------------------------------------------

  function ClaimEnrollment(db: Db, checkout: Key, operation: Uuid, forgetting: bool): Result<Db, ErrorCode> {
    if !IsActive(db, operation) then Err(InvalidOperation)
    else if forgetting && checkout in db.writers then Err(Busy)
    else if checkout in db.enrollments then Err(Busy)
    else Ok(db.(enrollments := db.enrollments[checkout := EnrollmentClaim(operation, forgetting)]))
  }

  function ReleaseEnrollment(db: Db, checkout: Key, operation: Uuid): Db {
    if checkout in db.enrollments && db.enrollments[checkout].operation == operation
    then db.(enrollments := db.enrollments - {checkout})
    else db
  }

  function DeleteCurrent(db: Db, checkout: Key): Db {
    db.(current := db.current - {checkout})
  }
}
