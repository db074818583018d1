/**
 Values exchanged by the repository-search components: captured snapshots, code chunks, index rows,
 manifests and the directory in which one generation is stored.
 */
module Contracts {
  import opened Wrappers

  newtype byte = x: int | 0 <= x < 256
  type Bytes = seq<byte>
  type Path = string
  type Vector = seq<real>

  /** SHA-256 is taken to be injective: a hash is a free term over its preimage. */
  datatype Hash = Sha256(preimage: Bytes)

  /** Identity of the embedding model, chunker and source policy that produced a store. */
  datatype Compatibility = Compatibility(modelId: string, dimensions: nat, assetDigest: string, versions: seq<string>)

  /** The captured eligible files of one checkout. */
  datatype Snapshot = Snapshot(files: map<Path, Bytes>)

  datatype DigestRow = DigestRow(hash: Hash, size: nat)

  /** The digest of a snapshot, hashed from its rows of path, file hash and size. */
  datatype Digest = Digest(rows: map<Path, DigestRow>)

  function ComputeDigest(snapshot: Snapshot): Digest {
    Digest(map p | p in snapshot.files :: DigestRow(Sha256(snapshot.files[p]), |snapshot.files[p]|))
  }

  lemma DigestIdentifiesSnapshot(a: Snapshot, b: Snapshot)
    ensures ComputeDigest(a) == ComputeDigest(b) <==> a == b
  {
    if ComputeDigest(a) == ComputeDigest(b) {
      assert a.files.Keys == ComputeDigest(a).rows.Keys == b.files.Keys;
      forall p | p in a.files ensures a.files[p] == b.files[p] {
        assert ComputeDigest(a).rows[p] == ComputeDigest(b).rows[p];
      }
      assert a.files == b.files;
    }
  }

  datatype CodeChunk = CodeChunk(content: string, contextualizedText: string, path: Path, startLine: int, endLine: int,
                                 symbol: string, scope: string, language: string, chunkIndex: int)

  /** A row of the stored index. */
  datatype Row = Row(chunk: CodeChunk, indexedText: string, embedding: Vector)

  datatype Entry = Entry(hash: Hash, chunkCount: nat)

  datatype FileManifest = FileManifest(version: string, modelId: string, dimensions: nat, files: map<Path, Entry>)

  datatype OverlayManifest = OverlayManifest(baseId: nat, modelId: string, dimensions: nat,
                                             files: map<Path, Entry>, tombstones: seq<Path>)

  /** What a generation directory holds; a missing or unreadable part is `None`. */
  datatype Store = Store(index: Option<map<string, Row>>, manifest: Option<FileManifest>, overlay: Option<OverlayManifest>)
}
