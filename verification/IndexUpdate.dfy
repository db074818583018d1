/**
 `buildCodeIndex` and its validators: the rows and manifest a build leaves behind, and why an incremental build
 from a previous store and a cold build of the same snapshot cannot be told apart.
 */
module IndexUpdate {
  import opened Wrappers
  import opened Contracts
  import opened Sorting
  import opened Manifest
  import opened IndexRows
  import opened IndexBuild
  import Chunking

  // ---- Rows from chunks ------------------------------------------------------------------------

  ghost predicate Indexed(chunks: seq<CodeChunk>) {
    forall c <- chunks :: 0 <= c.chunkIndex
  }

  /** Upserting rows one after the other into an empty index. */
  ghost function ChunkRows(t: Toolchain, chunks: seq<CodeChunk>): map<string, Row>
    requires Indexed(chunks)
  {
    if chunks == [] then map[]
    else
      var last := chunks[|chunks| - 1];
      ChunkRows(t, chunks[..|chunks| - 1])[MakeCodeChunkId(last.path, last.chunkIndex) := RowOf(t, last)]
  }

  lemma {:induction false} ChunkRowsAppend(t: Toolchain, a: seq<CodeChunk>, b: seq<CodeChunk>)
    requires Indexed(a) && Indexed(b)
    ensures Indexed(a + b) && ChunkRows(t, a + b) == ChunkRows(t, a) + ChunkRows(t, b)
    decreases |b|
  {
    hide RowOf, MakeCodeChunkId;
    if b == [] {
      assert a + b == a;
    } else {
      var front, last := b[..|b| - 1], b[|b| - 1];
      ChunkRowsAppend(t, a, front);
      assert (a + b)[..|a + b| - 1] == a + front;
      assert (a + b)[|a + b| - 1] == last;
      UnionUpdate(ChunkRows(t, a), ChunkRows(t, front), MakeCodeChunkId(last.path, last.chunkIndex), RowOf(t, last));
    }
  }

  lemma UnionUpdate(a: map<string, Row>, b: map<string, Row>, id: string, row: Row)
    ensures (a + b)[id := row] == a + b[id := row]
  {
  }

  lemma NoFileIds(p: Path)
    ensures FileIds(p, 0) == {}
  {
  }

  lemma NextFileId(p: Path, n: nat)
    ensures FileIds(p, n + 1) == FileIds(p, n) + {MakeCodeChunkId(p, n)}
  {
    hide MakeCodeChunkId;
  }

  lemma {:induction false} NumberedRows(t: Toolchain, p: Path, chunks: seq<CodeChunk>)
    requires Chunking.NumberedChunks(p, chunks)
    ensures Indexed(chunks)
    ensures ChunkRows(t, chunks).Keys == FileIds(p, |chunks|)
    ensures forall i: nat | i < |chunks| :: MakeCodeChunkId(p, i) in ChunkRows(t, chunks)
                                            && ChunkRows(t, chunks)[MakeCodeChunkId(p, i)] == RowOf(t, chunks[i])
    decreases |chunks|
  {
    hide RowOf, MakeCodeChunkId, FileIds;
    NoFileIds(p);
    if chunks != [] {
      var n := |chunks| - 1;
      NumberedRows(t, p, chunks[..n]);
      NextFileId(p, n);
      forall i: nat | i < n ensures MakeCodeChunkId(p, i) != MakeCodeChunkId(p, n) {
        ChunkIdIsInjective(p, i, p, n);
      }
    }
  }

  lemma FileColdIds(t: Toolchain, p: Path, bytes: Bytes)
    ensures ColdIndex(t, map[p := bytes]).Keys == FileIds(p, |Chunks(t, p, bytes)|)
  {
    hide Chunks, RowOf, MakeCodeChunkId;
  }

  /** The rows of one file's chunks are its cold index. */
  lemma FileChunkRows(t: Toolchain, p: Path, bytes: Bytes)
    requires WellBehaved(t)
    ensures Indexed(Chunks(t, p, bytes))
    ensures ChunkRows(t, Chunks(t, p, bytes)) == ColdIndex(t, map[p := bytes])
  {
    hide ColdIndex, Chunks, RowOf, MakeCodeChunkId, ChunkRows;
    var chunks := Chunks(t, p, bytes);
    ChunksAreNumbered(t, p, bytes);
    NumberedRows(t, p, chunks);
    var cold := ColdIndex(t, map[p := bytes]);
    FileColdIds(t, p, bytes);
    forall id <- cold ensures ChunkRows(t, chunks)[id] == cold[id] {
      var i: nat :| i < |chunks| && id == MakeCodeChunkId(p, i);
      ColdRow(t, map[p := bytes], p, i);
    }
  }

  lemma ColdRow(t: Toolchain, files: map<Path, Bytes>, p: Path, i: nat)
    requires p in files && i < |Chunks(t, p, files[p])|
    ensures MakeCodeChunkId(p, i) in ColdIndex(t, files)
    ensures ColdIndex(t, files)[MakeCodeChunkId(p, i)] == RowOf(t, Chunks(t, p, files[p])[i])
  {
    ChunkIdsAreInjective();
  }

  lemma ColdRowOf(t: Toolchain, files: map<Path, Bytes>, id: string) returns (p: Path, i: nat)
    requires id in ColdIndex(t, files)
    ensures p in files && i < |Chunks(t, p, files[p])| && id == MakeCodeChunkId(p, i)
    ensures ColdIndex(t, files)[id] == RowOf(t, Chunks(t, p, files[p])[i])
  {
    p, i :| p in files && i < |Chunks(t, p, files[p])| && id == MakeCodeChunkId(p, i);
    ColdRow(t, files, p, i);
  }

  /** Cold indexes of disjoint file sets do not collide. */
  lemma ColdIndexUnion(t: Toolchain, a: map<Path, Bytes>, b: map<Path, Bytes>)
    requires a.Keys !! b.Keys
    ensures ColdIndex(t, a).Keys !! ColdIndex(t, b).Keys
    ensures ColdIndex(t, a + b) == ColdIndex(t, a) + ColdIndex(t, b)
  {
    hide ColdIndex, Chunks, RowOf, MakeCodeChunkId;
    var x, y, z := ColdIndex(t, a), ColdIndex(t, b), ColdIndex(t, a + b);
    forall id ensures !(id in x && id in y) {
      if id in x && id in y {
        var p, i := ColdRowOf(t, a, id);
        var q, j := ColdRowOf(t, b, id);
        ChunkIdIsInjective(p, i, q, j);
      }
    }
    forall id ensures id in z <==> id in x || id in y {
      if id in x { var p, i := ColdRowOf(t, a, id); ColdRow(t, a + b, p, i); }
      if id in y { var p, i := ColdRowOf(t, b, id); ColdRow(t, a + b, p, i); }
      if id in z {
        var p, i := ColdRowOf(t, a + b, id);
        if p in b { ColdRow(t, b, p, i); } else { ColdRow(t, a, p, i); }
      }
    }
    forall id <- z ensures z[id] == (x + y)[id] {
      var p, i := ColdRowOf(t, a + b, id);
      if p in b { ColdRow(t, b, p, i); } else { ColdRow(t, a, p, i); }
    }
  }

  lemma ColdFilesUnion(t: Toolchain, a: map<Path, Bytes>, b: map<Path, Bytes>)
    requires a.Keys !! b.Keys
    ensures ColdFiles(t, a + b) == ColdFiles(t, a) + ColdFiles(t, b)
  {
    hide Chunks;
  }

  // ---- What a build leaves behind --------------------------------------------------------------

  function PreviousFiles(plan: BuildPlan): map<Path, Entry> {
    if plan.previous.Some? then plan.previous.value.manifest.files else map[]
  }

  /** Every path whose previous rows and manifest entry are dropped. */
  function Dropped(plan: BuildPlan): set<Path> {
    Members(plan.diff.changed) + Members(plan.diff.deleted)
  }

  function Replaced(plan: BuildPlan, snapshot: Snapshot): map<Path, Bytes> {
    Restrict(snapshot.files, Members(plan.diff.changed))
  }

  ghost function BuiltIndex(t: Toolchain, plan: BuildPlan, snapshot: Snapshot): map<string, Row>
    requires plan.previous.Some? ==> plan.previous.value.store.index.Some?
  {
    var prior := if plan.previous.Some? then plan.previous.value.store.index.value else map[];
    (prior - ManifestIds(Restrict(PreviousFiles(plan), Dropped(plan)))) + ColdIndex(t, Replaced(plan, snapshot))
  }

  function BuiltFiles(t: Toolchain, plan: BuildPlan, snapshot: Snapshot): map<Path, Entry> {
    (PreviousFiles(plan) - Dropped(plan)) + ColdFiles(t, Replaced(plan, snapshot))
  }

  /** The checks of `validateCodeIndexStore`. */
  ghost predicate StoreOk(store: Store, compatibility: Compatibility) {
    && store.manifest.Some? && store.index.Some?
    && store.manifest.value.version == CODE_INDEX_MANIFEST_VERSION
    && store.manifest.value.modelId == compatibility.modelId
    && store.manifest.value.dimensions == compatibility.dimensions
    && |store.index.value| == Total(store.manifest.value.files)
  }

  /** The checks of `validateCodeIndexBuild`. */
  ghost predicate StoreCovers(store: Store, compatibility: Compatibility, snapshot: Snapshot) {
    && StoreOk(store, compatibility)
    && store.manifest.value.files.Keys == snapshot.files.Keys
    && forall p <- snapshot.files :: store.manifest.value.files[p].hash == Sha256(snapshot.files[p])
  }

  ghost function BuildOutcome(t: Toolchain, plan: BuildPlan, snapshot: Snapshot, compatibility: Compatibility): Result<Store, BuildError> {
    if plan.previous.Some? && plan.previous.value.store.index.None? then Err(Unavailable)
    else if Total(BuiltFiles(t, plan, snapshot)) > MAX_TOTAL_CHUNKS then Err(ChunkCeiling)
    else if !RowsValid(t, Replaced(plan, snapshot)) then Err(InvalidRow)
    else
      var store := Store(Some(BuiltIndex(t, plan, snapshot)), Some(ManifestOf(compatibility, BuiltFiles(t, plan, snapshot))), None);
      if StoreCovers(store, compatibility, snapshot) then Ok(store) else Err(Mismatch)
  }

  // ---- Validation loops ------------------------------------------------------------------------

  /** Adding up the chunk counts, in whatever order the entries come. */
  method SumChunks(files: map<Path, Entry>) returns (sum: nat)
    ensures sum == Total(files)
  {
    sum := 0;
    TotalEmpty();
    var rest := files;
    while rest != map[]
      invariant rest.Keys <= files.Keys
      invariant sum + Total(rest) == Total(files)
      decreases |rest|
    {
      var p :| p in rest;
      TotalRemove(rest, p);
      sum := sum + rest[p].chunkCount;
      rest := rest - {p};
    }
  }

  method ValidateCodeIndexStore(store: Store, compatibility: Compatibility) returns (r: Result<(nat, nat), BuildError>)
    ensures r.Ok? <==> StoreOk(store, compatibility)
    ensures r.Ok? ==> r.value.0 == |store.index.value| == r.value.1 == Total(store.manifest.value.files)
  {
    if store.manifest.None? { return Err(ManifestMissing); }
    var manifest := store.manifest.value;
    if manifest.version != CODE_INDEX_MANIFEST_VERSION { return Err(InvalidManifest); }
    if manifest.modelId != compatibility.modelId { return Err(InvalidManifest); }
    if manifest.dimensions != compatibility.dimensions { return Err(InvalidManifest); }
    if store.index.None? { return Err(Unavailable); }
    var count := |store.index.value|;
    var chunks := SumChunks(manifest.files);
    if count != chunks { return Err(Mismatch); }
    return Ok((count, chunks));
  }

  method ValidateCodeIndexBuild(store: Store, compatibility: Compatibility, snapshot: Snapshot) returns (r: Result<(nat, nat), BuildError>)
    ensures r.Ok? <==> StoreCovers(store, compatibility, snapshot)
    ensures r.Ok? ==> r.value.0 == |store.index.value| == r.value.1
  {
    r := ValidateCodeIndexStore(store, compatibility);
    if r.Err? { return; }
    var files := store.manifest.value.files;
    if files.Keys != snapshot.files.Keys { return Err(Mismatch); }
    var rest := files.Keys;
    while rest != {}
      invariant rest <= files.Keys
      invariant forall p <- files :: p in rest || files[p].hash == Sha256(snapshot.files[p])
      decreases |rest|
    {
      var p :| p in rest;
      rest := rest - {p};
      if files[p].hash != Sha256(snapshot.files[p]) { return Err(Mismatch); }
    }
  }

  // ---- The builder -----------------------------------------------------------------------------

  method RemovedIds(previous: map<Path, Entry>, paths: seq<Path>) returns (ids: seq<string>)
    ensures Members(ids) == ManifestIds(Restrict(previous, Members(paths)))
  {
    ids := [];
    for k := 0 to |paths|
      invariant Members(ids) == ManifestIds(Restrict(previous, Members(paths[..k])))
    {
      var path := paths[k];
      assert paths[..k + 1] == paths[..k] + [path];
      ghost var before := Members(ids);
      if path in previous {
        var count := previous[path].chunkCount;
        for index := 0 to count
          invariant Members(ids) == before + FileIds(path, index)
        {
          AddMember(ids, MakeCodeChunkId(path, index));
          ids := ids + [MakeCodeChunkId(path, index)];
          assert FileIds(path, index + 1) == FileIds(path, index) + {MakeCodeChunkId(path, index)};
        }
      }
      ManifestIdsGrow(previous, Members(paths[..k]), path);
      assert Members(paths[..k + 1]) == Members(paths[..k]) + {path};
    }
    assert paths[..|paths|] == paths;
  }

  lemma ManifestIdsGrow(files: map<Path, Entry>, paths: set<Path>, path: Path)
    ensures ManifestIds(Restrict(files, paths + {path}))
            == ManifestIds(Restrict(files, paths)) + if path in files then FileIds(path, files[path].chunkCount) else {}
  {
  }

  method KeptChunks(previous: map<Path, Entry>, dropped: set<Path>) returns (total: nat)
    ensures total == Total(previous - dropped)
  {
    total := SumChunks(previous - dropped);
  }

  function Counts(t: Toolchain, files: map<Path, Bytes>): map<Path, nat> {
    map p | p in files :: |Chunks(t, p, files[p])|
  }

  /** The chunks collected for `files`, and what the loop has recorded about them. */
  ghost predicate Collected(t: Toolchain, files: map<Path, Bytes>, chunks: seq<CodeChunk>, counts: map<Path, nat>) {
    && Indexed(chunks)
    && ChunkRows(t, chunks) == ColdIndex(t, files)
    && counts == Counts(t, files)
    && |chunks| == Total(ColdFiles(t, files))
    && ((forall c <- chunks :: ValidRow(RowOf(t, c))) <==> RowsValid(t, files))
  }

  method ReplacementChunks(t: Toolchain, snapshot: Snapshot, changed: seq<Path>)
    returns (chunks: seq<CodeChunk>, counts: map<Path, nat>)
    requires WellBehaved(t) && NoRepeats(changed)
    ensures Collected(t, Restrict(snapshot.files, Members(changed)), chunks, counts)
  {
    hide Collected, Restrict, Members, Chunks;
    chunks, counts := [], map[];
    EmptyCold(t);
    NoMembers();
    for i := 0 to |changed|
      invariant Collected(t, Restrict(snapshot.files, Members(changed[..i])), chunks, counts)
    {
      var path := changed[i];
      assert changed[..i + 1] == changed[..i] + [path];
      AddMember(changed[..i], path);
      RestrictGrows(snapshot.files, Members(changed[..i]), path);
      if path in snapshot.files {
        var fileChunks := Chunks(t, path, snapshot.files[path]);
        NotYet(snapshot.files, changed, i);
        FileAdds(t, Restrict(snapshot.files, Members(changed[..i])), path, snapshot.files[path], chunks, counts);
        counts := counts[path := |fileChunks|];
        chunks := chunks + fileChunks;
      }
    }
    assert changed[..|changed|] == changed;
  }

  lemma NotYet(files: map<Path, Bytes>, changed: seq<Path>, i: nat)
    requires NoRepeats(changed) && i < |changed|
    ensures changed[i] !in Restrict(files, Members(changed[..i]))
  {
  }

  lemma EmptyCold(t: Toolchain)
    ensures Collected(t, map[], [], map[])
    ensures forall files: map<Path, Bytes> :: Restrict(files, {}) == map[]
  {
    assert ColdIndex(t, map[]) == map[] && ColdFiles(t, map[]) == map[];
    TotalEmpty();
  }

  lemma RestrictGrows<V>(m: map<Path, V>, paths: set<Path>, path: Path)
    ensures Restrict(m, paths + {path}) == if path in m then Restrict(m, paths)[path := m[path]] else Restrict(m, paths)
  {
  }

  /** What one more file adds to the chunks collected so far. */
  lemma FileAdds(t: Toolchain, files: map<Path, Bytes>, path: Path, bytes: Bytes, chunks: seq<CodeChunk>, counts: map<Path, nat>)
    requires WellBehaved(t) && path !in files && Collected(t, files, chunks, counts)
    ensures var more := Chunks(t, path, bytes);
            Collected(t, files[path := bytes], chunks + more, counts[path := |more|])
  {
    hide ColdIndex, ValidRow, ChunkRows, Chunks, RowOf, Total;
    var more := Chunks(t, path, bytes);
    FileChunkRows(t, path, bytes);
    ChunkRowsAppend(t, chunks, more);
    assert files[path := bytes] == files + map[path := bytes];
    ColdIndexUnion(t, files, map[path := bytes]);
    FileAddsTotal(t, files, path, bytes);
    FileAddsValid(t, files, path, bytes, chunks, more);
    assert Counts(t, files[path := bytes]) == Counts(t, files)[path := |more|];
  }

  lemma FileAddsTotal(t: Toolchain, files: map<Path, Bytes>, path: Path, bytes: Bytes)
    requires path !in files
    ensures Total(ColdFiles(t, files[path := bytes])) == Total(ColdFiles(t, files)) + |Chunks(t, path, bytes)|
  {
    hide Chunks;
    var all := ColdFiles(t, files[path := bytes]);
    assert all[path].chunkCount == |Chunks(t, path, bytes)|;
    assert all - {path} == ColdFiles(t, files);
    TotalRemove(all, path);
  }

  lemma FileAddsValid(t: Toolchain, files: map<Path, Bytes>, path: Path, bytes: Bytes, chunks: seq<CodeChunk>, more: seq<CodeChunk>)
    requires path !in files && more == Chunks(t, path, bytes)
    requires (forall c <- chunks :: ValidRow(RowOf(t, c))) <==> RowsValid(t, files)
    ensures (forall c <- chunks + more :: ValidRow(RowOf(t, c))) <==> RowsValid(t, files[path := bytes])
  {
    hide ValidRow, RowOf, Chunks;
    var all := files[path := bytes];
    assert RowsValid(t, all) <==> RowsValid(t, files) && FileRowsValid(t, path, bytes) by {
      hide FileRowsValid;
      if RowsValid(t, all) {
        forall p <- files ensures FileRowsValid(t, p, files[p]) { assert p in all && all[p] == files[p]; }
        assert path in all;
      }
    }
  }

  lemma ValidRows(t: Toolchain, chunks: seq<CodeChunk>)
    requires Indexed(chunks)
    ensures forall c <- chunks :: ValidRow(RowOf(t, c)) <==>
              && !Chunking.IsEmptyContent(c.path) && !Chunking.IsEmptyContent(c.content) && !Chunking.IsEmptyContent(c.contextualizedText)
              && |t.embed(c.contextualizedText)| == 768 && 1 <= c.startLine <= c.endLine
  {
    hide Chunking.IsEmptyContent;
  }

  /** Validating every row first, then replacing the rows with the same ids. */
  method Upsert(t: Toolchain, index: map<string, Row>, chunks: seq<CodeChunk>, vectors: map<string, Vector>)
    returns (r: Result<map<string, Row>, BuildError>)
    requires Indexed(chunks)
    requires vectors.Keys == Texts(chunks) && forall text <- vectors :: vectors[text] == t.embed(text)
    ensures r.Ok? <==> forall c <- chunks :: ValidRow(RowOf(t, c))
    ensures r.Ok? <==> forall c <- chunks ::
              && !Chunking.IsEmptyContent(c.path) && !Chunking.IsEmptyContent(c.content) && !Chunking.IsEmptyContent(c.contextualizedText)
              && |t.embed(c.contextualizedText)| == 768 && 1 <= c.startLine <= c.endLine
    ensures r.Ok? ==> r.value == index + ChunkRows(t, chunks)
    ensures r.Err? ==> r.error == InvalidRow
  {
    ValidRows(t, chunks);
    hide ValidRow;
    var rows := NormalizeRows(t, chunks, vectors);
    if rows.Err? { return Err(InvalidRow); }
    var stored := InsertRows(t, index, chunks, rows.value);
    return Ok(stored);
  }

  method NormalizeRows(t: Toolchain, chunks: seq<CodeChunk>, vectors: map<string, Vector>) returns (r: Result<seq<Row>, BuildError>)
    requires vectors.Keys == Texts(chunks) && forall text <- vectors :: vectors[text] == t.embed(text)
    ensures r.Ok? <==> forall c <- chunks :: ValidRow(RowOf(t, c))
    ensures r.Ok? ==> |r.value| == |chunks| && forall j :: 0 <= j < |chunks| ==> r.value[j] == RowOf(t, chunks[j])
  {
    hide ValidRow;
    var rows: seq<Row> := [];
    for i := 0 to |chunks|
      invariant |rows| == i
      invariant forall j :: 0 <= j < i ==> rows[j] == RowOf(t, chunks[j]) && ValidRow(rows[j])
    {
      var c := chunks[i];
      assert c.contextualizedText in Texts(chunks);
      var row := Row(c, c.contextualizedText + " " + t.tokens(c.contextualizedText + " " + c.symbol + " " + c.path),
                     vectors[c.contextualizedText]);
      if !ValidRow(row) {
        assert c in chunks && row == RowOf(t, c);
        return Err(InvalidRow);
      }
      rows := rows + [row];
    }
    return Ok(rows);
  }

  method InsertRows(t: Toolchain, index: map<string, Row>, chunks: seq<CodeChunk>, rows: seq<Row>) returns (stored: map<string, Row>)
    requires Indexed(chunks)
    requires |rows| == |chunks| && forall j :: 0 <= j < |chunks| ==> rows[j] == RowOf(t, chunks[j])
    ensures stored == index + ChunkRows(t, chunks)
  {
    hide MakeCodeChunkId;
    stored := index;
    for i := 0 to |rows|
      invariant stored == index + ChunkRows(t, chunks[..i])
    {
      assert chunks[..i + 1][..i] == chunks[..i];
      assert chunks[i] in chunks;
      UnionUpdate(index, ChunkRows(t, chunks[..i]), MakeCodeChunkId(chunks[i].path, chunks[i].chunkIndex), rows[i]);
      stored := stored[MakeCodeChunkId(rows[i].chunk.path, rows[i].chunk.chunkIndex) := rows[i]];
    }
    assert chunks[..|chunks|] == chunks;
  }

  method BuildCodeIndex(t: Toolchain, plan: BuildPlan, snapshot: Snapshot, compatibility: Compatibility, hits: map<string, Vector>)
    returns (r: Result<Store, BuildError>)
    requires WellBehaved(t) && CacheSound(t, hits)
    requires NoRepeats(plan.diff.changed)
    ensures r == BuildOutcome(t, plan, snapshot, compatibility)
  {
    hide ColdIndex, ValidRow, RowOf, Chunks, NoRepeats, StoreCovers, Total, RowsValid, ChunkRows, Texts, Members, Restrict, ManifestIds,
         ColdFiles, ManifestEntries, BuildOutcome, BuiltIndex, BuiltFiles, Replaced, Dropped, PreviousFiles;
    OutcomeParts(t, plan, snapshot, compatibility);
    var index: map<string, Row> := map[];
    var previous := PreviousFiles(plan);
    if plan.previous.Some? {
      if plan.previous.value.store.index.None? { return Err(Unavailable); }
      index := plan.previous.value.store.index.value;
    }
    var removeIds := RemovedIds(previous, plan.diff.changed + plan.diff.deleted);
    MembersAppend(plan.diff.changed, plan.diff.deleted);
    index := index - Members(removeIds);
    var kept := KeptChunks(previous, Dropped(plan));
    var chunks, counts := ReplacementChunks(t, snapshot, plan.diff.changed);
    if kept + |chunks| > MAX_TOTAL_CHUNKS { return Err(ChunkCeiling); }
    var vectors, _, _ := EmbedReplacementChunks(t, chunks, hits);
    var upserted := Upsert(t, index, chunks, vectors);
    if upserted.Err? { return Err(InvalidRow); }
    var files := (previous - Dropped(plan)) + ManifestEntries(Replaced(plan, snapshot), counts);
    EntriesAreCold(t, Replaced(plan, snapshot));
    var store := Store(Some(upserted.value), Some(ManifestOf(compatibility, files)), None);
    var validated := ValidateCodeIndexBuild(store, compatibility, snapshot);
    if validated.Err? { return Err(Mismatch); }
    return Ok(store);
  }

  lemma EntriesAreCold(t: Toolchain, files: map<Path, Bytes>)
    ensures ManifestEntries(files, Counts(t, files)) == ColdFiles(t, files)
  {
    hide Chunks;
  }

  function ManifestEntries(files: map<Path, Bytes>, counts: map<Path, nat>): map<Path, Entry> {
    map p | p in files :: Entry(Sha256(files[p]), if p in counts then counts[p] else 0)
  }

  /** The outcome, in the order in which the builder arrives at it. */
  lemma OutcomeParts(t: Toolchain, plan: BuildPlan, snapshot: Snapshot, compatibility: Compatibility)
    ensures var previous, replaced := PreviousFiles(plan), Replaced(plan, snapshot);
            BuildOutcome(t, plan, snapshot, compatibility)
            == if plan.previous.Some? && plan.previous.value.store.index.None? then Err(Unavailable)
               else if Total(previous - Dropped(plan)) + Total(ColdFiles(t, replaced)) > MAX_TOTAL_CHUNKS then Err(ChunkCeiling)
               else if !RowsValid(t, replaced) then Err(InvalidRow)
               else
                 var prior := if plan.previous.Some? then plan.previous.value.store.index.value else map[];
                 var store := Store(Some((prior - ManifestIds(Restrict(previous, Dropped(plan)))) + ColdIndex(t, replaced)),
                                    Some(ManifestOf(compatibility, (previous - Dropped(plan)) + ColdFiles(t, replaced))), None);
                 if StoreCovers(store, compatibility, snapshot) then Ok(store) else Err(Mismatch)
    ensures Dropped(plan) == Members(plan.diff.changed) + Members(plan.diff.deleted)
    ensures Replaced(plan, snapshot) == Restrict(snapshot.files, Members(plan.diff.changed))
  {
    hide ColdIndex, RowsValid, Total, StoreCovers, Chunks, ManifestIds, Restrict, ColdFiles;
    BuiltTotal(t, plan, snapshot);
  }

  lemma BuiltTotal(t: Toolchain, plan: BuildPlan, snapshot: Snapshot)
    ensures Total(BuiltFiles(t, plan, snapshot))
            == Total(PreviousFiles(plan) - Dropped(plan)) + Total(ColdFiles(t, Replaced(plan, snapshot)))
  {
    TotalUnion(PreviousFiles(plan) - Dropped(plan), ColdFiles(t, Replaced(plan, snapshot)));
  }

  // ---- Incremental refines cold ----------------------------------------------------------------

  /** A store built by these tools from `snapshot`. */
  ghost predicate BuiltFrom(t: Toolchain, compatibility: Compatibility, store: Store, snapshot: Snapshot) {
    store == ColdStore(t, compatibility, snapshot) && RowsValid(t, snapshot.files)
  }

  /** A cold build succeeds exactly when the snapshot has valid rows and few enough chunks. */
  lemma ColdBuild(t: Toolchain, plan: BuildPlan, snapshot: Snapshot, compatibility: Compatibility)
    requires plan.previous.None? && IsDiff(plan.diff, map[], Hashes(snapshot.files))
    ensures BuildOutcome(t, plan, snapshot, compatibility)
            == if Total(ColdFiles(t, snapshot.files)) > MAX_TOTAL_CHUNKS then Err(ChunkCeiling)
               else if !RowsValid(t, snapshot.files) then Err(InvalidRow)
               else Ok(ColdStore(t, compatibility, snapshot))
  {
    hide ColdIndex, RowsValid, Chunks, Total, BuildOutcome, StoreCovers, Enumerates;
    EnumeratedMembers(plan.diff.changed, ChangedPaths(map[], Hashes(snapshot.files)));
    assert Members(plan.diff.changed) == snapshot.files.Keys;
    assert Replaced(plan, snapshot) == snapshot.files;
    NothingRemoved(plan);
    assert BuiltFiles(t, plan, snapshot) == ColdFiles(t, snapshot.files);
    assert BuiltIndex(t, plan, snapshot) == ColdIndex(t, snapshot.files);
    OutcomeIsCold(t, plan, snapshot, compatibility);
  }

  /** A plan whose rows and manifest come out cold has a cold outcome. */
  lemma OutcomeIsCold(t: Toolchain, plan: BuildPlan, snapshot: Snapshot, compatibility: Compatibility)
    requires plan.previous.Some? ==> plan.previous.value.store.index.Some?
    requires BuiltFiles(t, plan, snapshot) == ColdFiles(t, snapshot.files)
    requires BuiltIndex(t, plan, snapshot) == ColdIndex(t, snapshot.files)
    ensures BuildOutcome(t, plan, snapshot, compatibility)
            == if Total(ColdFiles(t, snapshot.files)) > MAX_TOTAL_CHUNKS then Err(ChunkCeiling)
               else if !RowsValid(t, Replaced(plan, snapshot)) then Err(InvalidRow)
               else Ok(ColdStore(t, compatibility, snapshot))
  {
    hide ColdIndex, RowsValid, Chunks, Total, StoreCovers, BuiltIndex, BuiltFiles, ColdFiles;
    ColdStoreCovers(t, compatibility, snapshot);
  }

  lemma NothingRemoved(plan: BuildPlan)
    requires plan.previous.None?
    ensures ManifestIds(Restrict(PreviousFiles(plan), Dropped(plan))) == {}
  {
  }

  /** Removing the rows of some files from a cold index leaves the cold index of the others. */
  lemma ColdIndexRemove(t: Toolchain, files: map<Path, Bytes>, gone: set<Path>)
    ensures ColdIndex(t, files) - ManifestIds(Restrict(ColdFiles(t, files), gone)) == ColdIndex(t, files - gone)
    ensures ColdFiles(t, files) - gone == ColdFiles(t, files - gone)
  {
    hide ColdIndex, ColdFiles, ManifestIds, Restrict;
    var a, b := files - gone, Restrict(files, gone);
    ColdFilesParts(t, files, gone);
    ColdIndexUnion(t, a, b);
    ColdIndexIds(t, b);
    MapMinusUnion(ColdIndex(t, a), ColdIndex(t, b));
  }

  lemma ColdFilesParts(t: Toolchain, files: map<Path, Bytes>, gone: set<Path>)
    ensures (files - gone) + Restrict(files, gone) == files && (files - gone).Keys !! Restrict(files, gone).Keys
    ensures Restrict(ColdFiles(t, files), gone) == ColdFiles(t, Restrict(files, gone))
    ensures ColdFiles(t, files) - gone == ColdFiles(t, files - gone)
  {
    hide Chunks;
  }

  lemma MapMinusUnion(a: map<string, Row>, b: map<string, Row>)
    requires a.Keys !! b.Keys
    ensures (a + b) - b.Keys == a
  {
  }

  /** The outcome of an incremental build, told without its plan. */
  lemma IncrementalBuild(t: Toolchain, plan: BuildPlan, before: Snapshot, snapshot: Snapshot, compatibility: Compatibility)
    requires plan.previous.Some? && BuiltFrom(t, compatibility, plan.previous.value.store, before)
    requires plan.previous.value.store.manifest == Some(plan.previous.value.manifest)
    requires IsDiff(plan.diff, PreviousFiles(plan), Hashes(snapshot.files))
    ensures BuildOutcome(t, plan, snapshot, compatibility)
            == if Total(ColdFiles(t, snapshot.files)) > MAX_TOTAL_CHUNKS then Err(ChunkCeiling)
               else if !RowsValid(t, snapshot.files) then Err(InvalidRow)
               else Ok(ColdStore(t, compatibility, snapshot))
  {
    hide ColdIndex, RowsValid, Chunks, Total, StoreCovers, Enumerates, BuildOutcome, ChangedPaths, DeletedPaths, UnchangedPaths;
    var prev, hashes := PreviousFiles(plan), Hashes(snapshot.files);
    EnumeratedMembers(plan.diff.changed, ChangedPaths(prev, hashes));
    EnumeratedMembers(plan.diff.deleted, DeletedPaths(prev, hashes));
    var gone := Dropped(plan);
    var kept := before.files - gone;
    KeptAgrees(t, before.files, snapshot.files);
    ColdIndexUnion(t, kept, Replaced(plan, snapshot));
    ColdFilesUnion(t, kept, Replaced(plan, snapshot));
    ColdIndexRemove(t, before.files, gone);
    KeptValid(t, before.files, kept, Replaced(plan, snapshot), snapshot.files);
    OutcomeIsCold(t, plan, snapshot, compatibility);
  }

  /**
   Cloning a store built from one snapshot, removing the rows of every changed and deleted file and inserting
   the replacements has the very outcome, success or failure, of building the new snapshot from nothing.
   */
  lemma IncrementalRefinesCold(t: Toolchain, plan: BuildPlan, cold: BuildPlan, before: Snapshot, snapshot: Snapshot, compatibility: Compatibility)
    requires plan.previous.Some? && BuiltFrom(t, compatibility, plan.previous.value.store, before)
    requires plan.previous.value.store.manifest == Some(plan.previous.value.manifest)
    requires IsDiff(plan.diff, PreviousFiles(plan), Hashes(snapshot.files))
    requires cold.previous.None? && IsDiff(cold.diff, map[], Hashes(snapshot.files))
    ensures BuildOutcome(t, plan, snapshot, compatibility) == BuildOutcome(t, cold, snapshot, compatibility)
  {
    hide BuildOutcome, BuiltFrom, IsDiff, RowsValid, ColdStore, ColdFiles, Total;
    IncrementalBuild(t, plan, before, snapshot, compatibility);
    ColdBuild(t, cold, snapshot, compatibility);
  }

  lemma ColdStoreCovers(t: Toolchain, compatibility: Compatibility, snapshot: Snapshot)
    ensures StoreCovers(ColdStore(t, compatibility, snapshot), compatibility, snapshot)
  {
    ColdIndexIds(t, snapshot.files);
  }

  /**
   A cold build is accepted for the model and the snapshot it was built for and for no other, and no longer once a
   row is missing or added, a part is missing, or its manifest is of another version.
   */
  lemma OnlyForItsOwnSnapshot(t: Toolchain, built: Compatibility, snapshot: Snapshot, wanted: Compatibility, other: Snapshot)
    ensures var store := ColdStore(t, built, snapshot);
            && (StoreCovers(store, wanted, other) <==>
                  other == snapshot && wanted.modelId == built.modelId && wanted.dimensions == built.dimensions)
            && (forall index :: StoreCovers(store.(index := Some(index)), built, snapshot) <==> |index| == |ColdIndex(t, snapshot.files)|)
            && (forall version ::
                  StoreCovers(store.(manifest := Some(store.manifest.value.(version := version))), built, snapshot) <==> version == "code-index-files-v1")
            && !StoreCovers(store.(index := None), built, snapshot) && !StoreCovers(store.(manifest := None), built, snapshot)
  {
    ColdStoreCovers(t, built, snapshot);
    hide ColdIndex, Chunks, Total;
    if StoreCovers(ColdStore(t, built, snapshot), wanted, other) {
      assert other.files == snapshot.files;
    }
  }

  /** Equal hashes are equal bytes, so the files that a diff keeps are the same on both sides. */
  lemma KeptAgrees(t: Toolchain, a: map<Path, Bytes>, b: map<Path, Bytes>)
    ensures var gone := ChangedPaths(ColdFiles(t, a), Hashes(b)) + DeletedPaths(ColdFiles(t, a), Hashes(b));
            (a - gone) + Restrict(b, ChangedPaths(ColdFiles(t, a), Hashes(b))) == b
            && (a - gone).Keys !! ChangedPaths(ColdFiles(t, a), Hashes(b))
  {
    hide Chunks;
  }

  lemma KeptValid(t: Toolchain, before: map<Path, Bytes>, kept: map<Path, Bytes>, replaced: map<Path, Bytes>, all: map<Path, Bytes>)
    requires RowsValid(t, before) && (forall p <- kept :: p in before && kept[p] == before[p])
    requires kept.Keys !! replaced.Keys && kept + replaced == all
    ensures RowsValid(t, all) <==> RowsValid(t, replaced)
  {
    hide FileRowsValid;
    if RowsValid(t, all) {
      forall p <- replaced ensures FileRowsValid(t, p, replaced[p]) {
        assert p in all && all[p] == replaced[p];
      }
    }
  }
}
