/**
 The rows of an index: their ids, how a file's rows are derived from its bytes, and the index and manifest that a
 cold build of a snapshot stores.
 */
module IndexRows {
  import opened Wrappers
  import opened Contracts
  import Chunking

  const CODE_INDEX_DIMENSIONS := 768
  const CODE_INDEX_MANIFEST_VERSION := "code-index-files-v1"
  const MAX_TOTAL_CHUNKS := 250_000

  // ---- Chunk ids -------------------------------------------------------------------------------

  function Decimal(n: nat): string {
    if n < 10 then ["0123456789"[n]] else Decimal(n / 10) + ["0123456789"[n % 10]]
  }

  function MakeCodeChunkId(path: Path, chunkIndex: nat): string {
    path + "#" + Decimal(chunkIndex)
  }

  lemma {:induction false} DecimalHasNoHash(n: nat)
    ensures Decimal(n) != "" && '#' !in Decimal(n)
  {
    if n >= 10 { DecimalHasNoHash(n / 10); }
  }

  lemma DecimalLength(n: nat)
    ensures |Decimal(n)| == 1 <==> n < 10
  {
    if n >= 10 { DecimalHasNoHash(n / 10); }
  }

  lemma HashIsLast(p: Path, i: nat)
    ensures var id := MakeCodeChunkId(p, i);
            id[|p|] == '#' && forall k :: |p| < k < |id| ==> id[k] != '#'
  {
    DecimalHasNoHash(i);
    var id := MakeCodeChunkId(p, i);
    forall k | |p| < k < |id| ensures id[k] != '#' {
      assert id[k] == Decimal(i)[k - |p| - 1];
    }
  }

  lemma {:induction false} DecimalIsInjective(m: nat, n: nat)
    requires Decimal(m) == Decimal(n)
    ensures m == n
  {
    if m < 10 || n < 10 {
      DecimalLength(m);
      DecimalLength(n);
    } else {
      var a, b := Decimal(m / 10), Decimal(n / 10);
      assert a == Decimal(m)[..|Decimal(m)| - 1] && b == Decimal(n)[..|Decimal(n)| - 1];
      DecimalIsInjective(m / 10, n / 10);
      assert Decimal(m)[|a|] == "0123456789"[m % 10] && Decimal(n)[|b|] == "0123456789"[n % 10];
    }
  }

  /** The last '#' ends the path, so ids are distinct even for paths that contain '#'. */
  lemma ChunkIdIsInjective(p: Path, i: nat, q: Path, j: nat)
    ensures MakeCodeChunkId(p, i) == MakeCodeChunkId(q, j) <==> p == q && i == j
  {
    if MakeCodeChunkId(p, i) == MakeCodeChunkId(q, j) {
      var id := MakeCodeChunkId(p, i);
      HashIsLast(p, i);
      HashIsLast(q, j);
      assert id[|p|] == '#' && id[|q|] == '#';
      assert |p| == |q|;
      assert p == id[..|p|] && q == id[..|q|];
      assert Decimal(i) == id[|p| + 1..] && Decimal(j) == id[|q| + 1..];
      DecimalIsInjective(i, j);
    }
  }

  lemma ChunkIdsAreInjective()
    ensures forall p, i: nat, q, j: nat :: MakeCodeChunkId(p, i) == MakeCodeChunkId(q, j) ==> p == q && i == j
  {
    forall p, i: nat, q, j: nat | MakeCodeChunkId(p, i) == MakeCodeChunkId(q, j) ensures p == q && i == j {
      ChunkIdIsInjective(p, i, q, j);
    }
  }

  // ---- Rows of a file --------------------------------------------------------------------------

  /** The deterministic tools that turn bytes into rows. */
  datatype Toolchain = Toolchain(
    decode: Bytes -> string,
    strategy: Path -> Chunking.Strategy,
    language: Path -> string,
    ast: (Path, string, string) -> Option<seq<CodeChunk>>,
    tokens: string -> string,
    embed: string -> Vector)

  ghost predicate WellBehaved(t: Toolchain) {
    forall p, content, language :: t.ast(p, content, language).Some? ==> Chunking.NumberedChunks(p, t.ast(p, content, language).value)
  }

  function Chunks(t: Toolchain, path: Path, bytes: Bytes): seq<CodeChunk> {
    var content := t.decode(bytes);
    var language := t.language(path);
    Chunking.ChunkFile(path, content, t.strategy(path), language, t.ast(path, Chunking.NormalizeContent(content), language))
  }

  lemma ChunksAreNumbered(t: Toolchain, path: Path, bytes: Bytes)
    requires WellBehaved(t)
    ensures Chunking.NumberedChunks(path, Chunks(t, path, bytes))
  {
    var content, language := t.decode(bytes), t.language(path);
    Chunking.ChunkFileIsNumbered(path, content, t.strategy(path), language, t.ast(path, Chunking.NormalizeContent(content), language));
  }

  function RowOf(t: Toolchain, chunk: CodeChunk): Row {
    Row(chunk, chunk.contextualizedText + " " + t.tokens(chunk.contextualizedText + " " + chunk.symbol + " " + chunk.path),
        t.embed(chunk.contextualizedText))
  }

  /** What a row must satisfy before it may be stored. */
  predicate ValidRow(row: Row) {
    && !Chunking.IsEmptyContent(row.chunk.path)
    && !Chunking.IsEmptyContent(row.chunk.content)
    && !Chunking.IsEmptyContent(row.chunk.contextualizedText)
    && |row.embedding| == CODE_INDEX_DIMENSIONS
    && 1 <= row.chunk.startLine <= row.chunk.endLine
    && 0 <= row.chunk.chunkIndex
  }

  predicate FileRowsValid(t: Toolchain, path: Path, bytes: Bytes) {
    forall c <- Chunks(t, path, bytes) :: ValidRow(RowOf(t, c))
  }

  predicate RowsValid(t: Toolchain, files: map<Path, Bytes>) {
    forall p <- files :: FileRowsValid(t, p, files[p])
  }

  // ---- Cold index and manifest -----------------------------------------------------------------

  ghost function ColdIndex(t: Toolchain, files: map<Path, Bytes>): map<string, Row> {
    ChunkIdsAreInjective();
    map p, i: nat | p in files && 0 <= i < |Chunks(t, p, files[p])| :: MakeCodeChunkId(p, i) := RowOf(t, Chunks(t, p, files[p])[i])
  }

  function ColdFiles(t: Toolchain, files: map<Path, Bytes>): map<Path, Entry> {
    map p | p in files :: Entry(Sha256(files[p]), |Chunks(t, p, files[p])|)
  }

  function ManifestOf(compatibility: Compatibility, files: map<Path, Entry>): FileManifest {
    FileManifest(CODE_INDEX_MANIFEST_VERSION, compatibility.modelId, compatibility.dimensions, files)
  }

  /** The simple thing that every builder must agree with. */
  ghost function ColdStore(t: Toolchain, compatibility: Compatibility, snapshot: Snapshot): Store {
    Store(Some(ColdIndex(t, snapshot.files)), Some(ManifestOf(compatibility, ColdFiles(t, snapshot.files))), None)
  }

  // ---- Chunk totals ----------------------------------------------------------------------------

  ghost function Total(files: map<Path, Entry>): nat {
    if files == map[] then 0
    else
      var p :| p in files;
      files[p].chunkCount + Total(files - {p})
  }

  lemma {:induction false} TotalRemove(files: map<Path, Entry>, p: Path)
    requires p in files
    ensures Total(files) == files[p].chunkCount + Total(files - {p})
    decreases |files|
  {
    var q :| q in files && Total(files) == files[q].chunkCount + Total(files - {q});
    if q != p {
      TotalRemove(files - {q}, p);
      TotalRemove(files - {p}, q);
      assert files - {q} - {p} == files - {p} - {q};
    }
  }

  lemma TotalEmpty()
    ensures Total(map[]) == 0
  {
  }

  lemma {:induction false} TotalUnion(a: map<Path, Entry>, b: map<Path, Entry>)
    requires a.Keys !! b.Keys
    ensures Total(a + b) == Total(a) + Total(b)
    decreases |b|
  {
    hide Total;
    if b == map[] {
      assert a + b == a;
      TotalEmpty();
    } else {
      var p :| p in b;
      TotalRemove(b, p);
      TotalRemove(a + b, p);
      UnionRemove(a, b, p);
      TotalUnion(a, b - {p});
    }
  }

  lemma UnionRemove(a: map<Path, Entry>, b: map<Path, Entry>, p: Path)
    requires p !in a
    ensures (a + b) - {p} == a + (b - {p})
  {
  }

  // ---- Index size ------------------------------------------------------------------------------

  ghost function FileIds(path: Path, n: nat): set<string> {
    set i: nat | 0 <= i < n :: MakeCodeChunkId(path, i)
  }

  lemma {:induction false} FileIdsSize(path: Path, n: nat)
    ensures |FileIds(path, n)| == n
  {
    hide MakeCodeChunkId;
    if n > 0 {
      FileIdsSize(path, n - 1);
      forall i: nat | i < n - 1 ensures MakeCodeChunkId(path, i) != MakeCodeChunkId(path, n - 1) {
        ChunkIdIsInjective(path, i, path, n - 1);
      }
      assert FileIds(path, n) == FileIds(path, n - 1) + {MakeCodeChunkId(path, n - 1)};
      assert MakeCodeChunkId(path, n - 1) !in FileIds(path, n - 1);
    }
  }

  /** The ids that a manifest accounts for. */
  ghost function ManifestIds(files: map<Path, Entry>): set<string> {
    set p, i: nat | p in files && 0 <= i < files[p].chunkCount :: MakeCodeChunkId(p, i)
  }

  lemma {:induction false} ManifestIdsSize(files: map<Path, Entry>)
    ensures |ManifestIds(files)| == Total(files)
    decreases |files|
  {
    if files == map[] {
      assert ManifestIds(files) == {};
      TotalEmpty();
    } else {
      hide ManifestIds, FileIds, Total;
      var p :| p in files;
      TotalRemove(files, p);
      ManifestIdsSize(files - {p});
      FileIdsSize(p, files[p].chunkCount);
      ManifestIdsSplit(files, p);
    }
  }

  lemma ManifestIdsSplit(files: map<Path, Entry>, p: Path)
    requires p in files
    ensures ManifestIds(files) == ManifestIds(files - {p}) + FileIds(p, files[p].chunkCount)
    ensures ManifestIds(files - {p}) !! FileIds(p, files[p].chunkCount)
  {
    hide MakeCodeChunkId;
    ChunkIdsAreInjective();
  }

  /** The ids of a cold index are exactly path#0 .. path#(chunkCount-1), as many as the manifest counts. */
  lemma ColdIndexIds(t: Toolchain, files: map<Path, Bytes>)
    ensures ColdIndex(t, files).Keys == ManifestIds(ColdFiles(t, files))
    ensures |ColdIndex(t, files)| == Total(ColdFiles(t, files))
  {
    var index, manifest := ColdIndex(t, files), ColdFiles(t, files);
    assert index.Keys == ManifestIds(manifest);
    ManifestIdsSize(manifest);
    assert |index| == |index.Keys|;
  }
}
