/**
 The embedding cache: rows keyed by namespace and text hash, bounded in number, evicted least recently used first.
 */
module EmbeddingCache {
  import opened Wrappers
  import opened Contracts
  import opened Sorting
  import opened Sets
  import opened Manifest
  import IndexRows

  const DEFAULT_MAX_ROWS := 100_000
  const BATCH := 16

  /** The primary key; `hash` is the hexadecimal SHA-256 of a text. */
  datatype Key = Key(namespace: string, hash: string)

  /** `vector` is what the stored blob decodes to, `None` when it is not a vector of finite numbers. */
  datatype CacheRow = CacheRow(dimensions: nat, vector: Option<Vector>, createdAt: int, lastUsedAt: int, hitCount: nat)

  type Rows = map<Key, CacheRow>

  datatype PutRow = PutRow(hash: string, embedding: Vector)

  datatype CacheError = ResourceBudget | InvalidMaxRows | InvalidVector

  // ---- Eviction order --------------------------------------------------------------------------

  /** The columns that eviction orders by. */
  datatype Stamp = Stamp(lastUsedAt: int, createdAt: int, namespace: string, hash: string)

  function StampOf(rows: Rows, key: Key): Stamp
    requires key in rows
  {
    Stamp(rows[key].lastUsedAt, rows[key].createdAt, key.namespace, key.hash)
  }

  function KeyOf(stamp: Stamp): Key {
    Key(stamp.namespace, stamp.hash)
  }

  function KeysOf(stamps: seq<Stamp>): set<Key> {
    set stamp | stamp in stamps :: KeyOf(stamp)
  }

  predicate StampLe(a: Stamp, b: Stamp) {
    || a.lastUsedAt < b.lastUsedAt
    || (a.lastUsedAt == b.lastUsedAt
        && (|| a.createdAt < b.createdAt
            || (a.createdAt == b.createdAt
                && (if a.namespace == b.namespace then PathLe(a.hash, b.hash) else PathLe(a.namespace, b.namespace)))))
  }

  lemma StampOrder()
    ensures TotalPreorder(StampLe) && Antisymmetric(StampLe)
  {
    PathOrder();
    hide PathLe;
  }

  /** The rows in eviction order. */
  ghost predicate Lists(stamps: seq<Stamp>, rows: Rows) {
    && SortedBy(StampLe, stamps) && NoRepeats(stamps) && |stamps| == |rows|
    && (forall key <- rows :: StampOf(rows, key) in stamps)
    && (forall stamp <- stamps :: KeyOf(stamp) in rows && stamp == StampOf(rows, KeyOf(stamp)))
  }

  /** `after` is `before` without its `n` least rows. */
  ghost predicate Evicts(before: Rows, after: Rows, n: nat) {
    && after.Keys <= before.Keys
    && (forall key <- after :: after[key] == before[key])
    && |before| == |after| + n
    && forall gone <- before.Keys - after.Keys, kept <- after.Keys :: StampLe(StampOf(before, gone), StampOf(before, kept))
  }

  /** Rows and number decide what an eviction leaves. */
  lemma EvictionIsUnique(before: Rows, a: Rows, b: Rows, n: nat)
    requires Evicts(before, a, n)
    ensures Evicts(before, b, n) <==> a == b
  {
    if Evicts(before, b, n) {
      assert |a| == |a.Keys| && |b| == |b.Keys|;
      hide StampLe;
      if k :| k in a.Keys && k !in b.Keys {
        if b.Keys <= a.Keys { SubsetSize(b.Keys + {k}, a.Keys); }
        var j :| j in b.Keys && j !in a.Keys;
        SameStamp(before, j, k);
        assert false;
      }
      SameSize(a.Keys, b.Keys);
      assert a == b;
    }
  }

  lemma SameStamp(rows: Rows, j: Key, k: Key)
    requires j in rows && k in rows && StampLe(StampOf(rows, j), StampOf(rows, k)) && StampLe(StampOf(rows, k), StampOf(rows, j))
    ensures j == k
  {
    StampOrder();
  }

  lemma SameSize<T>(a: set<T>, b: set<T>)
    requires a <= b && |a| == |b|
    ensures a == b
  {
    if x :| x in b && x !in a { SubsetSize(a + {x}, b); }
  }

  /** Evicting in portions is evicting at once. */
  lemma EvictionComposes(before: Rows, middle: Rows, after: Rows, m: nat, n: nat)
    requires Evicts(before, middle, m) && Evicts(middle, after, n)
    ensures Evicts(before, after, m + n)
  {
    hide StampLe;
    forall gone <- before.Keys - after.Keys, kept <- after.Keys ensures StampLe(StampOf(before, gone), StampOf(before, kept)) {
      if gone in middle {
        assert StampOf(middle, gone) == StampOf(before, gone) && StampOf(middle, kept) == StampOf(before, kept);
      }
    }
  }

  lemma NoEviction(rows: Rows)
    ensures Evicts(rows, rows, 0)
  {
  }

  /** What an eviction takes was used no later than what it keeps, was created no later then, and comes first by key after that. */
  lemma OldestGoFirst(before: Rows, after: Rows, n: nat)
    requires Evicts(before, after, n)
    ensures forall gone <- before.Keys - after.Keys, kept <- after.Keys ::
              var a, b := before[gone], before[kept];
              && a.lastUsedAt <= b.lastUsedAt && (a.lastUsedAt == b.lastUsedAt ==> a.createdAt <= b.createdAt)
              && (a.lastUsedAt == b.lastUsedAt && a.createdAt == b.createdAt ==>
                    if gone.namespace == kept.namespace then PathLe(gone.hash, kept.hash) else PathLe(gone.namespace, kept.namespace))
  {
    hide PathLe;
  }

  // ---- Storing ---------------------------------------------------------------------------------

  predicate Encodes(embedding: Vector) {
    |embedding| == IndexRows.CODE_INDEX_DIMENSIONS
  }

  /** A conflicting row keeps its creation time and its hit count. */
  function Upsert(rows: Rows, namespace: string, entry: PutRow, nowMs: int): Rows {
    var key, dimensions := Key(namespace, entry.hash), IndexRows.CODE_INDEX_DIMENSIONS;
    rows[key := if key in rows then rows[key].(dimensions := dimensions, vector := Some(entry.embedding), lastUsedAt := nowMs)
                else CacheRow(dimensions, Some(entry.embedding), nowMs, nowMs, 0)]
  }

  function UpsertAll(rows: Rows, namespace: string, entries: seq<PutRow>, nowMs: int): Rows {
    if entries == [] then rows
    else Upsert(UpsertAll(rows, namespace, entries[..|entries| - 1], nowMs), namespace, entries[|entries| - 1], nowMs)
  }

  function Min(a: int, b: int): int {
    if a < b then a else b
  }

  function Overflow(rows: Rows, limit: nat): nat {
    if |rows| <= limit then 0 else |rows| - limit
  }

  function BatchAt(entries: seq<PutRow>, offset: nat): seq<PutRow>
    requires offset <= |entries|
  {
    entries[offset..if offset + BATCH < |entries| then offset + BATCH else |entries|]
  }

  /** One committed transaction: a batch is stored and the cache trimmed to its capacity. */
  ghost predicate Stored(before: Rows, after: Rows, namespace: string, batch: seq<PutRow>, nowMs: int, maxRows: nat) {
    var upserted := UpsertAll(before, namespace, batch, nowMs);
    Evicts(upserted, after, Overflow(upserted, maxRows)) && forall entry <- batch :: Encodes(entry.embedding)
  }

  lemma {:induction false} UpsertAllGrowth(rows: Rows, namespace: string, entries: seq<PutRow>, nowMs: int)
    ensures |UpsertAll(rows, namespace, entries, nowMs)| <= |rows| + |entries|
    decreases |entries|
  {
    if entries != [] {
      var front := entries[..|entries| - 1];
      UpsertAllGrowth(rows, namespace, front, nowMs);
      var before, after := UpsertAll(rows, namespace, front, nowMs), UpsertAll(rows, namespace, entries, nowMs);
      var key := Key(namespace, entries[|entries| - 1].hash);
      assert after.Keys == before.Keys + {key};
      assert |after| == |after.Keys| && |before| == |before.Keys|;
    }
  }

  /** The last vector put for a text. */
  function LastVector(entries: seq<PutRow>, hash: string): Option<Vector> {
    if entries == [] then None
    else if entries[|entries| - 1].hash == hash then Some(entries[|entries| - 1].embedding)
    else LastVector(entries[..|entries| - 1], hash)
  }

  /** The last vector put for a text is the one stored, marked as used now; rows of other texts stay as they are. */
  lemma {:induction false} UpsertedRow(rows: Rows, namespace: string, entries: seq<PutRow>, nowMs: int, key: Key)
    ensures var after, put := UpsertAll(rows, namespace, entries, nowMs), LastVector(entries, key.hash);
            if key.namespace != namespace || put.None?
            then (key in after <==> key in rows) && (key in rows ==> after[key] == rows[key])
            else
              && key in after && after[key].vector == put && after[key].lastUsedAt == nowMs
              && after[key].createdAt == (if key in rows then rows[key].createdAt else nowMs)
              && after[key].hitCount == (if key in rows then rows[key].hitCount else 0)
    decreases |entries|
  {
    if entries != [] {
      UpsertedRow(rows, namespace, entries[..|entries| - 1], nowMs, key);
    }
  }

  /** State `k` of a history is state `k - 1` with the next batch stored, and within the capacity. */
  ghost predicate StoredAt(history: seq<Rows>, k: int, namespace: string, entries: seq<PutRow>, nowMs: int, maxRows: nat) {
    && 1 <= k < |history| && (k - 1) * BATCH < |entries| && |history[k]| <= maxRows
    && Stored(history[k - 1], history[k], namespace, BatchAt(entries, (k - 1) * BATCH), nowMs, maxRows)
  }

  ghost predicate History(history: seq<Rows>, namespace: string, entries: seq<PutRow>, nowMs: int, maxRows: nat) {
    history != [] && forall k :: 1 <= k < |history| ==> StoredAt(history, k, namespace, entries, nowMs, maxRows)
  }

  lemma HistoryStarts(rows: Rows, namespace: string, entries: seq<PutRow>, nowMs: int, maxRows: nat)
    ensures History([rows], namespace, entries, nowMs, maxRows)
  {
  }

  lemma HistoryExtends(history: seq<Rows>, after: Rows, namespace: string, entries: seq<PutRow>, nowMs: int, maxRows: nat)
    requires History(history, namespace, entries, nowMs, maxRows)
    requires (|history| - 1) * BATCH < |entries| && |after| <= maxRows
    requires Stored(history[|history| - 1], after, namespace, BatchAt(entries, (|history| - 1) * BATCH), nowMs, maxRows)
    ensures History(history + [after], namespace, entries, nowMs, maxRows)
  {
    hide Stored;
    forall k | 1 <= k < |history + [after]| ensures StoredAt(history + [after], k, namespace, entries, nowMs, maxRows) {
      if k < |history| { assert StoredAt(history, k, namespace, entries, nowMs, maxRows); }
    }
  }

  // ---- Portions of a pruning -------------------------------------------------------------------

  function Last(before: Rows, states: seq<Rows>): Rows {
    if states == [] then before else states[|states| - 1]
  }

  /** Portion `k` removes the least rows, as many as overflow but at most 100. */
  ghost predicate PortionAt(before: Rows, portions: seq<Rows>, k: int, limit: nat)
    requires 0 <= k < |portions|
  {
    var previous := Last(before, portions[..k]);
    Evicts(previous, portions[k], Min(Overflow(previous, limit), 100))
  }

  ghost predicate Portions(before: Rows, portions: seq<Rows>, limit: nat) {
    forall k :: 0 <= k < |portions| ==> PortionAt(before, portions, k, limit)
  }

  lemma NoPortions(before: Rows, limit: nat)
    ensures Portions(before, [], limit)
  {
  }

  lemma PortionsExtend(before: Rows, portions: seq<Rows>, after: Rows, limit: nat)
    requires Portions(before, portions, limit)
    requires var previous := Last(before, portions); Evicts(previous, after, Min(Overflow(previous, limit), 100))
    ensures Portions(before, portions + [after], limit)
  {
    hide Evicts;
    forall k | 0 <= k < |portions + [after]| ensures PortionAt(before, portions + [after], k, limit) {
      if k < |portions| {
        assert PortionAt(before, portions, k, limit) && (portions + [after])[..k] == portions[..k];
      } else {
        assert (portions + [after])[..k] == portions;
      }
    }
  }

  lemma {:induction false} PortionsShrink(before: Rows, portions: seq<Rows>, limit: nat, k: nat)
    requires Portions(before, portions, limit) && k < |portions|
    ensures |portions[k]| <= |portions[0]| == |before| - Min(Overflow(before, limit), 100)
  {
    assert PortionAt(before, portions, 0, limit) && portions[..0] == [];
    if k > 0 {
      PortionsShrink(before, portions, limit, k - 1);
      assert PortionAt(before, portions, k, limit) && Last(before, portions[..k]) == portions[k - 1];
    }
  }

  /** No state that a pruning commits exceeds the limit exactly when at most 100 rows overflowed it. */
  lemma PortionsWithin(before: Rows, portions: seq<Rows>, limit: nat)
    requires Portions(before, portions, limit) && portions != []
    ensures (forall state <- portions :: |state| <= limit) <==> Overflow(before, limit) <= 100
  {
    hide Portions;
    PortionsShrink(before, portions, limit, 0);
    assert portions[0] in portions;
    forall state <- portions ensures |state| <= |portions[0]| {
      var k :| 0 <= k < |portions| && portions[k] == state;
      PortionsShrink(before, portions, limit, k);
    }
  }

  lemma CommittedWithin(before: Rows, portions: seq<Rows>, history: seq<Rows>, namespace: string, entries: seq<PutRow>,
                        nowMs: int, maxRows: nat)
    requires Portions(before, portions, maxRows) && portions != [] && History(history, namespace, entries, nowMs, maxRows)
    ensures (forall state <- portions + history[1..] :: |state| <= maxRows) <==> Overflow(before, maxRows) <= 100
  {
    hide Portions, Stored;
    PortionsWithin(before, portions, maxRows);
    forall state <- history[1..] ensures |state| <= maxRows {
      var k :| 0 <= k < |history[1..]| && history[1..][k] == state;
      assert StoredAt(history, k + 1, namespace, entries, nowMs, maxRows);
    }
    if forall state <- portions + history[1..] :: |state| <= maxRows {
      assert forall state <- portions :: state in portions + history[1..];
    }
  }

  // ---- The cache -------------------------------------------------------------------------------

  class Cache {
    const maxRows: nat
    var rows: Rows
    /** How many further growth checks the disk will pass. */
    var growthLeft: nat

    constructor (existing: Rows, maxRows: nat, growth: nat)
      ensures rows == existing && this.maxRows == (if maxRows < DEFAULT_MAX_ROWS then maxRows else DEFAULT_MAX_ROWS)
      ensures growthLeft == growth
    {
      this.maxRows := if maxRows < DEFAULT_MAX_ROWS then maxRows else DEFAULT_MAX_ROWS;
      rows, growthLeft := existing, growth;
    }

    method BeforeWrite() returns (ok: bool)
      modifies `growthLeft
      ensures ok <==> old(growthLeft) > 0
      ensures growthLeft == if ok then old(growthLeft) - 1 else 0
    {
      ok := growthLeft > 0;
      if ok { growthLeft := growthLeft - 1; }
    }

    /** The rows in eviction order, as the deleting statement selects them. */
    method Ordered() returns (stamps: seq<Stamp>)
      ensures Lists(stamps, rows)
    {
      hide StampLe;
      var unsorted: seq<Stamp> := [];
      var keys := rows.Keys;
      while keys != {}
        invariant keys <= rows.Keys && |unsorted| + |keys| == |rows.Keys|
        invariant NoRepeats(unsorted)
        invariant forall key <- rows.Keys - keys :: StampOf(rows, key) in unsorted
        invariant forall stamp <- unsorted :: KeyOf(stamp) in rows.Keys - keys && stamp == StampOf(rows, KeyOf(stamp))
        decreases |keys|
      {
        var key :| key in keys;
        keys := keys - {key};
        assert KeyOf(StampOf(rows, key)) == key;
        unsorted := unsorted + [StampOf(rows, key)];
      }
      assert |rows| == |rows.Keys|;
      StampOrder();
      StableSortSorts(StampLe, unsorted);
      StableSortKeepsDistinct(StampLe, unsorted);
      stamps := StableSort(StampLe, unsorted);
    }

    /** One deleting statement: the least rows, as many as overflow the limit but at most `maxDeletes`. */
    method Prune(limit: nat, maxDeletes: nat) returns (changes: nat)
      modifies `rows
      ensures changes == Min(Overflow(old(rows), limit), maxDeletes)
      ensures Evicts(old(rows), rows, changes)
      ensures forall gone <- old(rows).Keys - rows.Keys, kept <- rows.Keys ::
                var a, b := old(rows)[gone], old(rows)[kept];
                && a.lastUsedAt <= b.lastUsedAt && (a.lastUsedAt == b.lastUsedAt ==> a.createdAt <= b.createdAt)
                && (a.lastUsedAt == b.lastUsedAt && a.createdAt == b.createdAt ==>
                      if gone.namespace == kept.namespace then PathLe(gone.hash, kept.hash) else PathLe(gone.namespace, kept.namespace))
    {
      hide StampLe, Lists, KeysOf, Evicts;
      var overflow := |rows| - limit;
      if overflow <= 0 {
        NoEviction(rows);
        return 0;
      }
      changes := if overflow < maxDeletes then overflow else maxDeletes;
      var stamps := Ordered();
      ListedSize(stamps, rows);
      FirstAreLeast(rows, stamps, changes);
      ghost var before := rows;
      rows := rows - KeysOf(stamps[..changes]);
      OldestGoFirst(before, rows, changes);
    }

    /**
     Prunes in portions of 100 until nothing overflows, the deadline passes or a growth check fails. `portions` lists
     the states that its transactions commit.
     */
    method PruneUnused(limit: int, deadline: Option<nat>) returns (result: Result<nat, CacheError>, ghost portions: seq<Rows>)
      modifies `rows, `growthLeft
      ensures limit >= 0 ==> Portions(old(rows), portions, Min(limit, maxRows))
      ensures rows == Last(old(rows), portions)
      ensures portions != [] <==> limit >= 0 && old(growthLeft) > 0 && deadline != Some(0)
      ensures old(growthLeft) == 0 ==> result == Err(ResourceBudget)
      ensures |rows| <= |old(rows)| && Evicts(old(rows), rows, |old(rows)| - |rows|)
      ensures limit >= 0 ==> |rows| >= Min(|old(rows)|, Min(limit, maxRows))
      ensures result.Ok? ==> result.value == |old(rows)| - |rows|
      ensures result.Ok? && deadline.None? ==> limit >= 0 && |rows| == Min(|old(rows)|, Min(limit, maxRows))
      ensures result == Err(InvalidMaxRows) ==> limit < 0
      ensures result != Err(InvalidVector) && (result == Err(ResourceBudget) ==> growthLeft == 0)
      ensures limit >= 0 && old(growthLeft) > Overflow(old(rows), Min(limit, maxRows)) ==> result.Ok?
    {
      hide Portions, PortionAt;
      portions := [];
      NoEviction(rows);
      if limit >= 0 { NoPortions(rows, Min(limit, maxRows)); }
      var ok := BeforeWrite();
      if !ok { return Err(ResourceBudget), portions; }
      var removed: nat := 0;
      var rounds: nat := 0;
      while deadline.None? || rounds < deadline.value
        invariant limit >= 0 ==> Portions(old(rows), portions, Min(limit, maxRows))
        invariant rows == Last(old(rows), portions) && |portions| == rounds && (limit < 0 ==> rounds == 0)
        invariant old(growthLeft) > 0 && (deadline.Some? ==> rounds <= deadline.value)
        invariant |rows| <= |old(rows)| && removed == |old(rows)| - |rows| && Evicts(old(rows), rows, removed)
        invariant limit >= 0 ==> |rows| >= Min(|old(rows)|, Min(limit, maxRows))
        invariant limit >= 0 && old(growthLeft) > Overflow(old(rows), Min(limit, maxRows)) ==>
                    growthLeft >= Overflow(rows, Min(limit, maxRows))
        decreases if limit >= 0 then Overflow(rows, Min(limit, maxRows)) else 0
      {
        if Min(limit, maxRows) < 0 { return Err(InvalidMaxRows), portions; }
        ghost var before := rows;
        var count := Prune(Min(limit, maxRows), 100);
        EvictionComposes(old(rows), before, rows, removed, count);
        PortionsExtend(old(rows), portions, rows, Min(limit, maxRows));
        portions := portions + [rows];
        removed := removed + count;
        if count == 0 { break; }
        ok := BeforeWrite();
        if !ok { return Err(ResourceBudget), portions; }
        rounds := rounds + 1;
      }
      result := Ok(removed);
    }

    /** Stores one batch in a transaction; a vector that cannot be encoded rolls the batch back. */
    method StoreBatch(namespace: string, batch: seq<PutRow>, nowMs: int) returns (ok: bool)
      requires |batch| <= BATCH && |rows| <= maxRows
      modifies `rows
      ensures ok <==> forall entry <- batch :: Encodes(entry.embedding)
      ensures if ok then Stored(old(rows), rows, namespace, batch, nowMs, maxRows) && |rows| <= maxRows else rows == old(rows)
    {
      var before := rows;
      for i := 0 to |batch|
        invariant rows == UpsertAll(before, namespace, batch[..i], nowMs)
        invariant forall entry <- batch[..i] :: Encodes(entry.embedding)
      {
        assert batch[..i + 1][..i] == batch[..i];
        if !Encodes(batch[i].embedding) {
          rows := before;
          assert batch[i] in batch;
          return false;
        }
        rows := Upsert(rows, namespace, batch[i], nowMs);
      }
      assert batch[..|batch|] == batch;
      UpsertAllGrowth(before, namespace, batch, nowMs);
      var _ := Prune(maxRows, 100);
      ok := true;
    }

    /**
     Trims the cache, then stores the rows in batches. `portions` lists the states that the trimming commits, and
     `history` the trimmed cache and the states that the batches commit. None of all these exceeds the capacity
     exactly when the first portion could remove all that overflows it.
     */
    method PutMany(namespace: string, entries: seq<PutRow>, nowMs: int)
      returns (result: Option<CacheError>, ghost portions: seq<Rows>, ghost history: seq<Rows>)
      modifies `rows, `growthLeft
      ensures history != [] && rows == history[|history| - 1]
      ensures Portions(old(rows), portions, maxRows) && history[0] == Last(old(rows), portions)
      ensures portions != [] <==> old(growthLeft) > 0
      ensures portions != [] ==>
                ((forall state <- portions + history[1..] :: |state| <= maxRows) <==> Overflow(old(rows), maxRows) <= 100)
      ensures |history[0]| <= |old(rows)| && Evicts(old(rows), history[0], |old(rows)| - |history[0]|)
      ensures |history| > 1 || result.None? ==> |history[0]| == Min(|old(rows)|, maxRows)
      ensures History(history, namespace, entries, nowMs, maxRows)
      ensures result.None? ==> (|history| - 1) * BATCH >= |entries|
      ensures result == Some(ResourceBudget) ==> growthLeft == 0
      ensures result != Some(InvalidMaxRows)
      ensures result == Some(InvalidVector) ==> exists entry <- entries :: !Encodes(entry.embedding)
    {
      hide Evicts, Stored, History, Portions, StoredAt, Last;
      var pruned;
      pruned, portions := PruneUnused(maxRows, None);
      history := [rows];
      HistoryStarts(rows, namespace, entries, nowMs, maxRows);
      if portions != [] { CommittedWithin(old(rows), portions, history, namespace, entries, nowMs, maxRows); }
      if pruned.Err? { return Some(pruned.error), portions, history; }
      var offset := 0;
      while offset < |entries|
        invariant history != [] && rows == history[|history| - 1] && |rows| <= maxRows
        invariant offset == (|history| - 1) * BATCH
        invariant history[0] == Last(old(rows), portions) && portions != []
        invariant |history[0]| <= |old(rows)| && Evicts(old(rows), history[0], |old(rows)| - |history[0]|)
        invariant |history[0]| == Min(|old(rows)|, maxRows)
        invariant History(history, namespace, entries, nowMs, maxRows)
        decreases |entries| - offset
      {
        CommittedWithin(old(rows), portions, history, namespace, entries, nowMs, maxRows);
        var granted := BeforeWrite();
        if !granted { return Some(ResourceBudget), portions, history; }
        var batch := BatchAt(entries, offset);
        var ok := StoreBatch(namespace, batch, nowMs);
        if !ok {
          var entry :| entry in batch && !Encodes(entry.embedding);
          assert entry in entries;
          return Some(InvalidVector), portions, history;
        }
        HistoryExtends(history, rows, namespace, entries, nowMs, maxRows);
        history := history + [rows];
        offset := offset + BATCH;
      }
      CommittedWithin(old(rows), portions, history, namespace, entries, nowMs, maxRows);
      result := None;
    }

    /** Looks up texts by hash: usable rows are returned and marked as used, unusable ones are deleted. */
    method GetMany(namespace: string, hashes: seq<string>, nowMs: int)
      returns (result: Option<CacheError>, hits: map<string, Vector>, invalidRows: nat)
      modifies `rows, `growthLeft
      ensures result.None? ==> LookedUp(old(rows), rows, hits, namespace, hashes, nowMs)
      ensures result.None? ==> hits == Found(old(rows), namespace, Members(hashes))
      ensures result.None? ==> rows == Looked(old(rows), namespace, Members(hashes), nowMs)
      ensures |rows| + invalidRows == |old(rows)|
      ensures result.Some? ==> result.value == ResourceBudget && growthLeft == 0
    {
      hits, invalidRows := map[], 0;
      var unique := UniqueStrings(hashes);
      NothingLooked(rows, namespace, nowMs);
      for index := 0 to |unique|
        invariant hits == Found(old(rows), namespace, Members(unique[..index]))
        invariant rows == Looked(old(rows), namespace, Members(unique[..index]), nowMs)
        invariant |rows| + invalidRows == |old(rows)|
      {
        if index % BATCH == 0 {
          var granted := BeforeWrite();
          if !granted { return Some(ResourceBudget), hits, invalidRows; }
        }
        var hash, key := unique[index], Key(namespace, unique[index]);
        assert unique[..index + 1] == unique[..index] + [hash];
        assert hash !in unique[..index];
        LookedNext(old(rows), namespace, unique[..index], hash, nowMs);
        if key !in rows { continue; }
        if !Usable(rows[key]) {
          rows := rows - {key};
          invalidRows := invalidRows + 1;
          continue;
        }
        hits := hits[hash := rows[key].vector.value];
        rows := rows[key := Touched(rows[key], nowMs)];
      }
      assert unique[..|unique|] == unique;
      assert Members(unique) == Members(hashes);
      LookUpIsExact(old(rows), namespace, hashes, nowMs);
      result := None;
    }
  }

  /**
   What a look-up leaves behind: a usable row asked for is marked as used now, and once more, its vector is the
   answer, an unusable one is gone, and every other row is as it was.
   */
  ghost predicate LookedUp(before: Rows, after: Rows, hits: map<string, Vector>, namespace: string, hashes: seq<string>, nowMs: int) {
    && (forall key <- before ::
          if key.namespace != namespace || key.hash !in hashes then key in after && after[key] == before[key]
          else if before[key].dimensions != 768 || before[key].vector.None? then key !in after
          else
            && key in after && after[key].lastUsedAt == nowMs && after[key].hitCount == before[key].hitCount + 1
            && after[key].vector == before[key].vector && after[key].dimensions == before[key].dimensions
            && after[key].createdAt == before[key].createdAt
            && key.hash in hits && hits[key.hash] == before[key].vector.value)
    && after.Keys <= before.Keys
    && forall hash <- hits :: hash in hashes && Key(namespace, hash) in after
  }

  lemma LookUpIsExact(rows: Rows, namespace: string, hashes: seq<string>, nowMs: int)
    ensures LookedUp(rows, Looked(rows, namespace, Members(hashes), nowMs), Found(rows, namespace, Members(hashes)), namespace, hashes, nowMs)
  {
  }

  method UniqueStrings(values: seq<string>) returns (unique: seq<string>)
    ensures NoRepeats(unique) && forall v :: v in unique <==> v in values
  {
    unique := [];
    for i := 0 to |values|
      invariant NoRepeats(unique) && forall v :: v in unique <==> v in values[..i]
    {
      assert values[..i + 1] == values[..i] + [values[i]];
      if values[i] !in unique { unique := unique + [values[i]]; }
    }
    assert values[..|values|] == values;
  }

  predicate Usable(row: CacheRow) {
    row.dimensions == IndexRows.CODE_INDEX_DIMENSIONS && row.vector.Some?
  }

  function Touched(row: CacheRow, nowMs: int): CacheRow {
    row.(lastUsedAt := nowMs, hitCount := row.hitCount + 1)
  }

  predicate Asked(key: Key, namespace: string, hashes: set<string>) {
    key.namespace == namespace && key.hash in hashes
  }

  /** The cache after a look-up. */
  function Looked(rows: Rows, namespace: string, hashes: set<string>, nowMs: int): Rows {
    map key | key in rows && (Asked(key, namespace, hashes) ==> Usable(rows[key])) ::
      if Asked(key, namespace, hashes) then Touched(rows[key], nowMs) else rows[key]
  }

  function Found(rows: Rows, namespace: string, hashes: set<string>): map<string, Vector> {
    map hash | hash in hashes && Key(namespace, hash) in rows && Usable(rows[Key(namespace, hash)]) ::
      rows[Key(namespace, hash)].vector.value
  }

  lemma NothingLooked(rows: Rows, namespace: string, nowMs: int)
    ensures Looked(rows, namespace, Members([]), nowMs) == rows && Found(rows, namespace, Members([])) == map[]
  {
  }

  lemma LookedNext(rows: Rows, namespace: string, front: seq<string>, hash: string, nowMs: int)
    requires hash !in front
    ensures var key, before, after := Key(namespace, hash), Members(front), Members(front + [hash]);
            var now, next := Looked(rows, namespace, before, nowMs), Looked(rows, namespace, after, nowMs);
            && (key in now <==> key in rows) && (key in rows ==> now[key] == rows[key])
            && next == (if key !in now then now else if !Usable(now[key]) then now - {key} else now[key := Touched(now[key], nowMs)])
            && Found(rows, namespace, after)
               == (if key in now && Usable(now[key]) then Found(rows, namespace, before)[hash := now[key].vector.value]
                   else Found(rows, namespace, before))
  {
    assert Members(front + [hash]) == Members(front) + {hash};
    forall k: Key | k != Key(namespace, hash) ensures Asked(k, namespace, Members(front + [hash])) == Asked(k, namespace, Members(front)) {}
  }

  /** What has just been put, and not evicted, is found again with its last vector. */
  lemma PutThenFound(before: Rows, after: Rows, namespace: string, batch: seq<PutRow>, nowMs: int, maxRows: nat, hash: string)
    requires Stored(before, after, namespace, batch, nowMs, maxRows)
    requires LastVector(batch, hash).Some? && Key(namespace, hash) in after
    ensures hash in Found(after, namespace, {hash}) && Found(after, namespace, {hash})[hash] == LastVector(batch, hash).value
  {
    UpsertedRow(before, namespace, batch, nowMs, Key(namespace, hash));
    UpsertedDimensions(before, namespace, batch, nowMs, hash);
    hide StampLe, UpsertAll, LastVector;
  }

  lemma {:induction false} UpsertedDimensions(rows: Rows, namespace: string, entries: seq<PutRow>, nowMs: int, hash: string)
    requires LastVector(entries, hash).Some?
    ensures var after := UpsertAll(rows, namespace, entries, nowMs);
            Key(namespace, hash) in after && after[Key(namespace, hash)].dimensions == IndexRows.CODE_INDEX_DIMENSIONS
    decreases |entries|
  {
    if entries[|entries| - 1].hash != hash {
      UpsertedDimensions(rows, namespace, entries[..|entries| - 1], nowMs, hash);
    }
  }

  // ---- What is put stays -----------------------------------------------------------------------

  function PutKeys(namespace: string, entries: seq<PutRow>): set<Key> {
    set entry <- entries :: Key(namespace, entry.hash)
  }

  /** A text that was put is stored with its last vector as used now; every other row was used before. */
  ghost predicate PutAt(rows: Rows, namespace: string, put: seq<PutRow>, nowMs: int, key: Key) {
    if key.namespace == namespace && LastVector(put, key.hash).Some?
    then key in rows && Usable(rows[key]) && rows[key].vector == LastVector(put, key.hash) && rows[key].lastUsedAt == nowMs
    else key in rows ==> rows[key].lastUsedAt < nowMs
  }

  ghost predicate JustPut(rows: Rows, namespace: string, put: seq<PutRow>, nowMs: int) {
    forall key: Key :: PutAt(rows, namespace, put, nowMs, key)
  }

  lemma {:induction false} LastVectorAppend(front: seq<PutRow>, back: seq<PutRow>, hash: string)
    ensures LastVector(front + back, hash) == if LastVector(back, hash).Some? then LastVector(back, hash) else LastVector(front, hash)
    decreases |back|
  {
    if back == [] {
      assert front + back == front;
    } else {
      LastVectorAppend(front, back[..|back| - 1], hash);
      assert (front + back)[..|front + back| - 1] == front + back[..|back| - 1];
    }
  }

  lemma {:induction false} LastVectorIsPut(namespace: string, entries: seq<PutRow>, hash: string)
    ensures LastVector(entries, hash).Some? <==> Key(namespace, hash) in PutKeys(namespace, entries)
  {
    if entries != [] {
      var front := entries[..|entries| - 1];
      LastVectorIsPut(namespace, front, hash);
      assert entries == front + [entries[|entries| - 1]];
    }
  }

  /** Before the eviction of its transaction, a batch is stored. */
  lemma UpsertedIsPut(rows: Rows, namespace: string, put: seq<PutRow>, batch: seq<PutRow>, nowMs: int)
    requires JustPut(rows, namespace, put, nowMs)
    ensures JustPut(UpsertAll(rows, namespace, batch, nowMs), namespace, put + batch, nowMs)
  {
    hide UpsertAll, LastVector;
    forall key: Key ensures PutAt(UpsertAll(rows, namespace, batch, nowMs), namespace, put + batch, nowMs, key) {
      assert PutAt(rows, namespace, put, nowMs, key);
      UpsertedRow(rows, namespace, batch, nowMs, key);
      LastVectorAppend(put, batch, key.hash);
      if LastVector(batch, key.hash).Some? { UpsertedDimensions(rows, namespace, batch, nowMs, key.hash); }
    }
  }

  /** An eviction never removes a row just put while no more texts were put than the cache holds. */
  lemma EvictionSparesPut(before: Rows, after: Rows, namespace: string, put: seq<PutRow>, nowMs: int, maxRows: nat)
    requires JustPut(before, namespace, put, nowMs) && Evicts(before, after, Overflow(before, maxRows))
    requires |PutKeys(namespace, put)| <= maxRows
    ensures JustPut(after, namespace, put, nowMs)
  {
    hide LastVector;
    var keys := PutKeys(namespace, put);
    forall key: Key ensures PutAt(after, namespace, put, nowMs, key) {
      assert PutAt(before, namespace, put, nowMs, key);
      LastVectorIsPut(namespace, put, key.hash);
      if key in keys && key !in after {
        forall kept <- after.Keys ensures kept in keys - {key} {
          assert PutAt(before, namespace, put, nowMs, kept);
          LastVectorIsPut(namespace, put, kept.hash);
          assert StampLe(StampOf(before, key), StampOf(before, kept));
        }
        SubsetSize(after.Keys, keys - {key});
        assert |after| == |after.Keys| && |before| == |before.Keys|;
        SubsetSize(after.Keys + {key}, before.Keys);
        assert false;
      }
    }
  }

  lemma PutKeysGrow(namespace: string, front: seq<PutRow>, entries: seq<PutRow>)
    requires front <= entries
    ensures |PutKeys(namespace, front)| <= |PutKeys(namespace, entries)|
  {
    SubsetSize(PutKeys(namespace, front), PutKeys(namespace, entries));
  }

  /** How many of the entries the first `k` batches put. */
  function PutBy(entries: seq<PutRow>, k: nat): seq<PutRow> {
    entries[..Min(k * BATCH, |entries|)]
  }

  lemma NextPut(entries: seq<PutRow>, k: nat)
    requires k * BATCH < |entries|
    ensures PutBy(entries, k + 1) == PutBy(entries, k) + BatchAt(entries, k * BATCH)
  {
  }

  lemma {:induction false} HistoryPuts(history: seq<Rows>, namespace: string, entries: seq<PutRow>, nowMs: int, maxRows: nat, k: nat)
    requires History(history, namespace, entries, nowMs, maxRows) && k < |history|
    requires forall key <- history[0] :: history[0][key].lastUsedAt < nowMs
    requires |PutKeys(namespace, entries)| <= maxRows
    ensures JustPut(history[k], namespace, PutBy(entries, k), nowMs)
  {
    hide Evicts, UpsertAll, JustPut, PutKeys, BatchAt;
    if k == 0 {
      NothingPut(history[0], namespace, nowMs);
      assert PutBy(entries, 0) == [];
    } else {
      HistoryPuts(history, namespace, entries, nowMs, maxRows, k - 1);
      assert StoredAt(history, k, namespace, entries, nowMs, maxRows);
      NextPut(entries, k - 1);
      var batch := BatchAt(entries, (k - 1) * BATCH);
      UpsertedIsPut(history[k - 1], namespace, PutBy(entries, k - 1), batch, nowMs);
      PutKeysGrow(namespace, PutBy(entries, k), entries);
      EvictionSparesPut(UpsertAll(history[k - 1], namespace, batch, nowMs), history[k], namespace, PutBy(entries, k), nowMs, maxRows);
    }
  }

  lemma NothingPut(rows: Rows, namespace: string, nowMs: int)
    requires forall key <- rows :: rows[key].lastUsedAt < nowMs
    ensures JustPut(rows, namespace, [], nowMs)
  {
  }

  /**
   When no row was used since, and no more texts are put than the cache holds, every text put is found afterwards,
   with its last vector.
   */
  lemma PutManyThenFound(history: seq<Rows>, namespace: string, entries: seq<PutRow>, nowMs: int, maxRows: nat, hashes: set<string>)
    requires History(history, namespace, entries, nowMs, maxRows) && (|history| - 1) * BATCH >= |entries|
    requires forall key <- history[0] :: history[0][key].lastUsedAt < nowMs
    requires |PutKeys(namespace, entries)| <= maxRows
    ensures var found := Found(history[|history| - 1], namespace, hashes);
            forall hash <- hashes :: LastVector(entries, hash).Some? ==> hash in found && found[hash] == LastVector(entries, hash).value
  {
    hide History, LastVector;
    var last := |history| - 1;
    HistoryPuts(history, namespace, entries, nowMs, maxRows, last);
    assert PutBy(entries, last) == entries;
    forall hash <- hashes | LastVector(entries, hash).Some?
      ensures var found := Found(history[last], namespace, hashes); hash in found && found[hash] == LastVector(entries, hash).value
    {
      assert PutAt(history[last], namespace, entries, nowMs, Key(namespace, hash));
    }
  }

  // ---- What is looked up stays longer than what is not -----------------------------------------

  /** The row has been used since `nowMs`, or no row is left that has not. */
  ghost predicate Outlasts(rows: Rows, key: Key, nowMs: int) {
    (key in rows && rows[key].lastUsedAt >= nowMs) || forall other <- rows :: rows[other].lastUsedAt >= nowMs
  }

  lemma EvictionOutlasts(before: Rows, after: Rows, n: nat, key: Key, nowMs: int)
    requires Outlasts(before, key, nowMs) && Evicts(before, after, n)
    ensures Outlasts(after, key, nowMs)
  {
    forall other <- after | key in before && key !in after ensures after[other].lastUsedAt >= nowMs || before[key].lastUsedAt < nowMs {
      assert StampLe(StampOf(before, key), StampOf(before, other));
    }
  }

  lemma {:induction false} UpsertOutlasts(rows: Rows, namespace: string, entries: seq<PutRow>, at: int, key: Key, nowMs: int)
    requires Outlasts(rows, key, nowMs) && nowMs <= at
    ensures Outlasts(UpsertAll(rows, namespace, entries, at), key, nowMs)
    decreases |entries|
  {
    if entries != [] { UpsertOutlasts(rows, namespace, entries[..|entries| - 1], at, key, nowMs); }
  }

  /**
   A row that a look-up has just found is evicted, by the trimming and the batches of a later `putMany`, only when no
   row is left that was last used before the look-up.
   */
  lemma {:induction false} FoundOutlastsOthers(looked: Rows, history: seq<Rows>, n: nat, namespace: string, entries: seq<PutRow>, at: int,
                                               maxRows: nat, k: nat, key: Key, nowMs: int)
    requires History(history, namespace, entries, at, maxRows) && k < |history| && Evicts(looked, history[0], n)
    requires key in looked && looked[key].lastUsedAt == nowMs <= at
    ensures key in history[k] || forall other <- history[k] :: history[k][other].lastUsedAt >= nowMs
    ensures Outlasts(history[k], key, nowMs)
  {
    hide Evicts, UpsertAll, BatchAt;
    if k == 0 {
      EvictionOutlasts(looked, history[0], n, key, nowMs);
    } else {
      FoundOutlastsOthers(looked, history, n, namespace, entries, at, maxRows, k - 1, key, nowMs);
      assert StoredAt(history, k, namespace, entries, at, maxRows);
      var batch := BatchAt(entries, (k - 1) * BATCH);
      var upserted := UpsertAll(history[k - 1], namespace, batch, at);
      UpsertOutlasts(history[k - 1], namespace, batch, at, key, nowMs);
      EvictionOutlasts(upserted, history[k], Overflow(upserted, maxRows), key, nowMs);
    }
  }

  /** Removing the first rows of the eviction order is an eviction. */
  lemma FirstAreLeast(rows: Rows, stamps: seq<Stamp>, n: nat)
    requires n <= |stamps| && Lists(stamps, rows)
    ensures Evicts(rows, rows - KeysOf(stamps[..n]), n)
  {
    hide StampLe;
    var doomed := KeysOf(stamps[..n]);
    var after := rows - doomed;
    DoomedRows(rows, stamps, n);
    DifferenceSize(rows.Keys, doomed);
    assert after.Keys == rows.Keys - doomed;
    assert |rows| == |rows.Keys| && |after| == |after.Keys|;
    forall gone <- rows.Keys - after.Keys, kept <- after.Keys ensures StampLe(StampOf(rows, gone), StampOf(rows, kept)) {
      DoomedIsLeast(rows, stamps, n, gone, kept);
    }
  }

  lemma ListedSize(stamps: seq<Stamp>, rows: Rows)
    requires Lists(stamps, rows)
    ensures |stamps| == |rows|
  {
    hide StampLe;
  }

  lemma {:induction false} DoomedRows(rows: Rows, stamps: seq<Stamp>, n: nat)
    requires n <= |stamps| && Lists(stamps, rows)
    ensures KeysOf(stamps[..n]) <= rows.Keys && |KeysOf(stamps[..n])| == n
  {
    hide Lists, KeyOf, KeysOf;
    if n > 0 {
      DoomedRows(rows, stamps, n - 1);
      NextIsNew(rows, stamps, n - 1);
      NextKeys(stamps, n - 1);
    } else {
      NoKeys(stamps);
    }
  }

  lemma NoKeys(stamps: seq<Stamp>)
    ensures KeysOf(stamps[..0]) == {}
  {
  }

  lemma NextKeys(stamps: seq<Stamp>, i: nat)
    requires i < |stamps|
    ensures KeysOf(stamps[..i + 1]) == KeysOf(stamps[..i]) + {KeyOf(stamps[i])}
  {
    hide KeyOf;
    assert stamps[..i + 1] == stamps[..i] + [stamps[i]];
  }

  lemma NextIsNew(rows: Rows, stamps: seq<Stamp>, i: nat)
    requires i < |stamps| && Lists(stamps, rows)
    ensures KeyOf(stamps[i]) in rows && KeyOf(stamps[i]) !in KeysOf(stamps[..i])
  {
    hide StampLe, KeyOf;
    assert stamps[i] in stamps;
    forall stamp <- stamps[..i] ensures KeyOf(stamp) != KeyOf(stamps[i]) {
      var k :| 0 <= k < i && stamps[k] == stamp;
      assert stamps[k] in stamps;
    }
  }

  lemma DoomedIsLeast(rows: Rows, stamps: seq<Stamp>, n: nat, gone: Key, kept: Key)
    requires n <= |stamps| && Lists(stamps, rows)
    requires gone in KeysOf(stamps[..n]) && kept in rows && kept !in KeysOf(stamps[..n])
    ensures gone in rows && StampLe(StampOf(rows, gone), StampOf(rows, kept))
  {
    hide StampLe, NoRepeats;
    var stamp :| stamp in stamps[..n] && KeyOf(stamp) == gone;
    var i :| 0 <= i < n && stamps[i] == stamp;
    assert stamps[i] in stamps;
    var j :| 0 <= j < |stamps| && stamps[j] == StampOf(rows, kept);
    assert stamps[j] !in stamps[..n];
    assert StampLe(stamps[i], stamps[j]);
  }
}
