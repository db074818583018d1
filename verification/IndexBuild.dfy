/**
 Building an index generation: planning against a previous store, removing and replacing rows in a copy of it,
 and the proof that the result is the cold build of the new snapshot.
 */
module IndexBuild {
  import opened Wrappers
  import opened Contracts
  import opened Sorting
  import opened Manifest
  import opened IndexRows

  const MAX_CHANGED_BYTES := 100 * 1024 * 1024
  const CPU_CODE_EMBED_BATCH_SIZE := 16

  datatype BuildError = Unavailable | ManifestMissing | ChangedBytesCeiling | ChunkCeiling | InvalidRow | Mismatch | InvalidManifest

  /** The manifest read when planning, and the store that is copied when building. */
  datatype Previous = Previous(manifest: FileManifest, store: Store)

  datatype BuildPlan = BuildPlan(previous: Option<Previous>, diff: ManifestDiff)

  function Hashes(files: map<Path, Bytes>): map<Path, Hash> {
    map p | p in files :: Sha256(files[p])
  }

  function Restrict<V>(m: map<Path, V>, paths: set<Path>): map<Path, V> {
    map p | p in m && p in paths :: m[p]
  }

  // ---- Planning --------------------------------------------------------------------------------

  /** The bytes of the listed files of a snapshot. */
  function BytesOf(files: map<Path, Bytes>, paths: seq<Path>): nat {
    if paths == [] then 0
    else
      var last := paths[|paths| - 1];
      BytesOf(files, paths[..|paths| - 1]) + if last in files then |files[last]| else 0
  }

  /** Lists add up, and a listed file counts as many bytes as it has. */
  lemma {:induction false} BytesAddUp(files: map<Path, Bytes>, a: seq<Path>, b: seq<Path>)
    ensures BytesOf(files, a + b) == BytesOf(files, a) + BytesOf(files, b)
    ensures forall p :: BytesOf(files, [p]) == if p in files then |files[p]| else 0
    decreases |b|
  {
    if b == [] {
      assert a + b == a;
    } else {
      assert (a + b)[..|a + b| - 1] == a + b[..|b| - 1];
      BytesAddUp(files, a, b[..|b| - 1]);
    }
    forall p ensures BytesOf(files, [p]) == if p in files then |files[p]| else 0 {
      assert [p][..0] == [];
    }
  }

  /** `entries` lists the snapshot's files in the order of its map. */
  method PlanCodeIndexBuild(snapshot: Snapshot, entries: seq<FileHash>, previous: Option<Store>) returns (r: Result<BuildPlan, BuildError>)
    requires HashByPath(entries) == Hashes(snapshot.files)
    ensures r.Ok? ==>
              && (previous.Some? <==> r.value.previous.Some?)
              && (previous.Some? ==> previous.value.manifest == Some(r.value.previous.value.manifest)
                                     && r.value.previous.value.store == previous.value)
              && IsDiff(r.value.diff, if previous.Some? then previous.value.manifest.value.files else map[], Hashes(snapshot.files))
              && (previous.Some? ==> BytesOf(snapshot.files, r.value.diff.changed) <= MAX_CHANGED_BYTES)
    ensures r.Err? ==>
              && previous.Some?
              && (previous.value.manifest.None? <==> r.error == ManifestMissing)
              && (previous.value.manifest.Some? ==>
                    && r.error == ChangedBytesCeiling
                    && exists diff :: IsDiff(diff, previous.value.manifest.value.files, Hashes(snapshot.files))
                                      && BytesOf(snapshot.files, diff.changed) > MAX_CHANGED_BYTES)
  {
    if previous.Some? && previous.value.manifest.None? {
      return Err(ManifestMissing);
    }
    var manifest := if previous.Some? then previous.value.manifest else None;
    var diff := DiffManifest(manifest, entries);
    var changedBytes := 0;
    for i := 0 to |diff.changed|
      invariant changedBytes == BytesOf(snapshot.files, diff.changed[..i])
    {
      assert diff.changed[..i + 1][..i] == diff.changed[..i];
      if diff.changed[i] in snapshot.files {
        changedBytes := changedBytes + |snapshot.files[diff.changed[i]]|;
      }
    }
    assert diff.changed[..|diff.changed|] == diff.changed;
    if previous.Some? && changedBytes > MAX_CHANGED_BYTES {
      return Err(ChangedBytesCeiling);
    }
    r := Ok(BuildPlan(if previous.Some? then Some(Previous(manifest.value, previous.value)) else None, diff));
  }

  // ---- Embedding -------------------------------------------------------------------------------

  function Texts(chunks: seq<CodeChunk>): set<string> {
    set c | c in chunks :: c.contextualizedText
  }

  /** A cache that answers at all answers with the vector the model would compute. */
  ghost predicate CacheSound(t: Toolchain, hits: map<string, Vector>) {
    forall text <- hits :: hits[text] == t.embed(text)
  }

  function Flatten<T>(batches: seq<seq<T>>): seq<T> {
    if batches == [] then [] else batches[0] + Flatten(batches[1..])
  }

  lemma {:induction false} FlattenAppend<T>(batches: seq<seq<T>>, batch: seq<T>)
    ensures Flatten(batches + [batch]) == Flatten(batches) + batch
  {
    if batches == [] {
      assert batches + [batch] == [batch];
      assert [batch][1..] == [];
    } else {
      FlattenAppend(batches[1..], batch);
      assert (batches + [batch])[1..] == batches[1..] + [batch];
    }
  }

  /** Slices of `size` items, the last one possibly shorter: no item is lost, repeated or moved. */
  method ChunkBatches<T>(items: seq<T>, size: nat) returns (batches: seq<seq<T>>)
    requires size > 0
    ensures Flatten(batches) == items
    ensures forall i :: 0 <= i < |batches| ==> 0 < |batches[i]| <= size
    ensures forall i :: 0 <= i < |batches| - 1 ==> |batches[i]| == size
  {
    if |items| == 0 { return []; }
    batches := [];
    var offset := 0;
    while offset < |items|
      invariant offset >= 0
      invariant Flatten(batches) == items[..if offset < |items| then offset else |items|]
      invariant forall i :: 0 <= i < |batches| ==> 0 < |batches[i]| <= size
      invariant offset < |items| ==> forall i :: 0 <= i < |batches| ==> |batches[i]| == size
      invariant forall i :: 0 <= i < |batches| - 1 ==> |batches[i]| == size
      decreases |items| - offset
    {
      var end := if offset + size < |items| then offset + size else |items|;
      FlattenAppend(batches, items[offset..end]);
      assert items[..offset] + items[offset..end] == items[..end];
      batches := batches + [items[offset..end]];
      offset := offset + size;
    }
    assert items[..|items|] == items;
  }

  /** One vector per distinct text, from the cache or from the model, and each text is counted on one side. */
  method EmbedReplacementChunks(t: Toolchain, chunks: seq<CodeChunk>, hits: map<string, Vector>)
    returns (vectors: map<string, Vector>, embedded: nat, cached: nat)
    requires CacheSound(t, hits)
    ensures vectors.Keys == Texts(chunks)
    ensures forall text <- vectors :: vectors[text] == t.embed(text)
    ensures cached == |Texts(chunks) * hits.Keys| && embedded == |Texts(chunks) - hits.Keys|
  {
    hide NoRepeats, Members, Texts;
    var texts := UniqueTexts(chunks);
    var misses;
    vectors, misses := LookUp(t, texts, hits);
    ListSize(texts);
    ListSize(misses);
    SplitSize(Texts(chunks), hits.Keys);
    cached := |texts| - |misses|;
    vectors, embedded := EmbedMisses(t, misses, vectors);
  }

  lemma SplitSize(a: set<string>, b: set<string>)
    ensures |a| == |a * b| + |a - b| && a == a * b + (a - b)
  {
    assert a == a * b + (a - b);
  }

  method UniqueTexts(chunks: seq<CodeChunk>) returns (texts: seq<string>)
    ensures NoRepeats(texts) && Members(texts) == Texts(chunks)
  {
    texts := [];
    for i := 0 to |chunks|
      invariant NoRepeats(texts) && Members(texts) == Texts(chunks[..i])
    {
      assert chunks[..i + 1] == chunks[..i] + [chunks[i]];
      assert Texts(chunks[..i + 1]) == Texts(chunks[..i]) + {chunks[i].contextualizedText};
      if chunks[i].contextualizedText !in texts {
        texts := texts + [chunks[i].contextualizedText];
      }
    }
    assert chunks[..|chunks|] == chunks;
  }

  method LookUp(t: Toolchain, texts: seq<string>, hits: map<string, Vector>) returns (vectors: map<string, Vector>, misses: seq<string>)
    requires CacheSound(t, hits) && NoRepeats(texts)
    ensures vectors.Keys == Members(texts) * hits.Keys
    ensures forall text <- vectors :: vectors[text] == t.embed(text)
    ensures NoRepeats(misses) && Members(misses) == Members(texts) - hits.Keys
  {
    vectors, misses := map[], [];
    for i := 0 to |texts|
      invariant vectors.Keys == Members(texts[..i]) * hits.Keys
      invariant forall text <- vectors :: vectors[text] == t.embed(text)
      invariant NoRepeats(misses) && Members(misses) == Members(texts[..i]) - hits.Keys
    {
      assert texts[..i + 1] == texts[..i] + [texts[i]];
      AddMember(texts[..i], texts[i]);
      AddMember(misses, texts[i]);
      assert texts[i] !in texts[..i];
      if texts[i] in hits {
        vectors := vectors[texts[i] := hits[texts[i]]];
      } else {
        misses := misses + [texts[i]];
      }
    }
    assert texts[..|texts|] == texts;
  }

  method EmbedMisses(t: Toolchain, misses: seq<string>, found: map<string, Vector>) returns (vectors: map<string, Vector>, embedded: nat)
    requires forall text <- found :: found[text] == t.embed(text)
    ensures vectors.Keys == found.Keys + Members(misses)
    ensures forall text <- vectors :: vectors[text] == t.embed(text)
    ensures embedded == |misses|
  {
    hide Flatten, Members;
    vectors, embedded := found, 0;
    NoVectors();
    var batches := ChunkBatches(misses, CPU_CODE_EMBED_BATCH_SIZE);
    for b := 0 to |batches|
      invariant vectors.Keys == found.Keys + Members(Flatten(batches[..b]))
      invariant forall text <- vectors :: vectors[text] == t.embed(text)
      invariant embedded == |Flatten(batches[..b])|
    {
      var batch := batches[b];
      assert batches[..b + 1] == batches[..b] + [batch];
      FlattenAppend(batches[..b], batch);
      MembersAppend(Flatten(batches[..b]), batch);
      ghost var before := vectors.Keys;
      assert batch[..0] == [];
      for j := 0 to |batch|
        invariant vectors.Keys == before + Members(batch[..j])
        invariant forall text <- vectors :: vectors[text] == t.embed(text)
      {
        assert batch[..j + 1] == batch[..j] + [batch[j]];
        AddMember(batch[..j], batch[j]);
        vectors := vectors[batch[j] := t.embed(batch[j])];
      }
      assert batch[..|batch|] == batch;
      embedded := embedded + |batch|;
    }
    assert batches[..|batches|] == batches;
  }

  lemma NoVectors()
    ensures Flatten<string>([]) == [] && Members([]) == {}
  {
  }

  lemma MembersAppend(a: seq<string>, b: seq<string>)
    ensures Members(a + b) == Members(a) + Members(b)
  {
  }

  lemma {:induction false} ListSize(s: seq<string>)
    requires NoRepeats(s)
    ensures |Members(s)| == |s|
  {
    if s != [] {
      ListSize(s[1..]);
      assert Members(s) == Members(s[1..]) + {s[0]};
    }
  }
}
