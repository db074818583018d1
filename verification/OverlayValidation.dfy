/**
 The two overlay validators, what their acceptance means, and how they agree with each other and with the builder.
 */
module OverlayValidation {
  import opened Wrappers
  import opened Contracts
  import opened Sorting
  import opened Manifest
  import opened IndexRows
  import opened IndexBuild
  import opened IndexUpdate
  import opened OverlayBuild

  datatype Counts = Counts(baseCount: nat, overlayCount: nat, chunks: nat)

  /** What both validators ask of the two stores and of the overlay's identity. */
  ghost predicate PartsOk(overlay: Store, base: Store, baseId: nat, compatibility: Compatibility) {
    && StoreOk(base, compatibility)
    && StoreOk(overlay, compatibility)
    && overlay.overlay.Some?
    && IdentityOk(overlay.overlay.value, baseId, compatibility)
    && Total(overlay.overlay.value.files) <= MAX_TOTAL_CHUNKS
  }

  /** An accepted store: the complete manifest is the base outside the tombstones plus the changed entries. */
  ghost predicate OverlayStoreOk(overlay: Store, base: Store, baseId: nat, compatibility: Compatibility) {
    && PartsOk(overlay, base, baseId, compatibility)
    && Composes(overlay.overlay.value.files, base.manifest.value.files, Members(overlay.overlay.value.tombstones),
                overlay.manifest.value.files)
  }

  /** An accepted build: moreover every part is what the snapshot dictates. */
  ghost predicate OverlayBuildOk(overlay: Store, base: Store, baseId: nat, compatibility: Compatibility, snapshot: Snapshot, expected: seq<Path>) {
    && PartsOk(overlay, base, baseId, compatibility)
    && var hashes, files := Hashes(snapshot.files), base.manifest.value.files;
    && Members(expected) == Tombstoned(files, hashes)
    && Members(overlay.overlay.value.tombstones) == Tombstoned(files, hashes)
    && overlay.manifest.value.files.Keys == ChangedPaths(files, hashes)
    && overlay.overlay.value.files == (files - Tombstoned(files, hashes)) + overlay.manifest.value.files
    && overlay.overlay.value.files.Keys == snapshot.files.Keys
    && forall p <- snapshot.files :: overlay.overlay.value.files[p].hash == hashes[p]
  }

  // ---- validateOverlayStore --------------------------------------------------------------------

  method ValidateParts(overlay: Store, base: Store, baseId: nat, compatibility: Compatibility) returns (r: Result<Counts, BuildError>)
    ensures r.Ok? <==> PartsOk(overlay, base, baseId, compatibility)
    ensures r.Ok? ==> r.value == Counts(|base.index.value|, |overlay.index.value|, Total(overlay.overlay.value.files))
  {
    var restored := ValidateCodeIndexStore(base, compatibility);
    if restored.Err? { return Err(Unavailable); }
    if overlay.overlay.None? { return Err(ManifestMissing); }
    var manifest := overlay.overlay.value;
    var shape := CheckShape(manifest);
    if !shape { return Err(ManifestMissing); }
    if manifest.baseId != baseId { return Err(InvalidManifest); }
    if manifest.modelId != compatibility.modelId || manifest.dimensions != compatibility.dimensions { return Err(InvalidManifest); }
    var changed := ValidateCodeIndexStore(overlay, compatibility);
    if changed.Err? { return Err(changed.error); }
    var chunks := SumChunks(manifest.files);
    if chunks > MAX_TOTAL_CHUNKS { return Err(ChunkCeiling); }
    return Ok(Counts(restored.value.0, changed.value.0, chunks));
  }

  method ValidateOverlayStore(overlay: Store, base: Store, baseId: nat, compatibility: Compatibility) returns (r: Result<Counts, BuildError>)
    ensures r.Ok? <==> OverlayStoreOk(overlay, base, baseId, compatibility)
    ensures r.Ok? ==> r.value == Counts(|base.index.value|, |overlay.index.value|, Total(overlay.overlay.value.files))
  {
    hide PartsOk, Total;
    r := ValidateParts(overlay, base, baseId, compatibility);
    if r.Err? { return; }
    assert base.manifest.Some? && overlay.manifest.Some? && overlay.overlay.Some? by { PartsExist(overlay, base, baseId, compatibility); }
    var files, changed, complete := base.manifest.value.files, overlay.manifest.value.files, overlay.overlay.value.files;
    var tombstones := Members(overlay.overlay.value.tombstones);
    var composed := CheckComposition(complete, files, tombstones, changed);
    if !composed { return Err(Mismatch); }
  }

  lemma PartsExist(overlay: Store, base: Store, baseId: nat, compatibility: Compatibility)
    requires PartsOk(overlay, base, baseId, compatibility)
    ensures base.manifest.Some? && overlay.manifest.Some? && overlay.overlay.Some?
  {
  }

  /** The three loops over base, changed and tombstoned paths, and the comparison of the path sets. */
  method CheckComposition(complete: map<Path, Entry>, base: map<Path, Entry>, tombstones: set<Path>, changed: map<Path, Entry>)
    returns (ok: bool)
    ensures ok <==> Composes(complete, base, tombstones, changed)
  {
    var baseOk := CheckBaseEntries(complete, base, tombstones);
    if !baseOk { return false; }
    var changedOk := CheckChangedEntries(complete, base, tombstones, changed);
    if !changedOk { return false; }
    var tombstonesOk := CheckTombstones(base, tombstones);
    if !tombstonesOk { return false; }
    var expectedPaths := (base.Keys - tombstones) + changed.Keys;
    if complete.Keys != expectedPaths { return false; }
    return true;
  }

  method CheckChangedEntries(complete: map<Path, Entry>, base: map<Path, Entry>, tombstones: set<Path>, changed: map<Path, Entry>)
    returns (ok: bool)
    ensures ok <==> forall p <- changed :: (p in base ==> p in tombstones) && p in complete && complete[p] == changed[p]
  {
    var rest := changed.Keys;
    while rest != {}
      invariant rest <= changed.Keys
      invariant forall p <- changed.Keys - rest ::
        (p in base ==> p in tombstones) && p in complete && complete[p] == changed[p]
      decreases |rest|
    {
      var path :| path in rest;
      rest := rest - {path};
      var entry := changed[path];
      if path in base && path !in tombstones { return false; }
      if path !in complete || complete[path].hash != entry.hash || complete[path].chunkCount != entry.chunkCount { return false; }
    }
    return true;
  }

  method CheckTombstones(base: map<Path, Entry>, tombstones: set<Path>) returns (ok: bool)
    ensures ok <==> tombstones <= base.Keys
  {
    var rest := tombstones;
    while rest != {}
      invariant rest <= tombstones
      invariant forall p <- tombstones - rest :: p in base
      decreases |rest|
    {
      var path :| path in rest;
      rest := rest - {path};
      if path !in base { return false; }
    }
    return true;
  }

  method CheckBaseEntries(complete: map<Path, Entry>, base: map<Path, Entry>, tombstones: set<Path>) returns (ok: bool)
    ensures ok <==> forall p <- base | p !in tombstones :: p in complete && complete[p] == base[p]
  {
    var rest := base.Keys;
    while rest != {}
      invariant rest <= base.Keys
      invariant forall p <- base.Keys - rest | p !in tombstones :: p in complete && complete[p] == base[p]
      decreases |rest|
    {
      var path :| path in rest;
      rest := rest - {path};
      var entry := base[path];
      if path !in tombstones {
        if path !in complete || complete[path].hash != entry.hash || complete[path].chunkCount != entry.chunkCount { return false; }
      }
    }
    return true;
  }

  // ---- validateOverlayBuild --------------------------------------------------------------------

  /** The store validator accepts the overlay, and its paths, hashes and tombstones are those of the snapshot. */
  ghost predicate StoreIsFor(overlay: Store, base: Store, baseId: nat, compatibility: Compatibility, snapshot: Snapshot, expected: seq<Path>) {
    && OverlayStoreOk(overlay, base, baseId, compatibility)
    && var hashes, files := Hashes(snapshot.files), base.manifest.value.files;
       && Members(overlay.overlay.value.tombstones) == Members(expected)
       && overlay.overlay.value.files.Keys == snapshot.files.Keys
       && (forall p <- snapshot.files :: overlay.overlay.value.files[p].hash == hashes[p])
       && Members(expected) == Tombstoned(files, hashes)
  }

  method ValidateOverlayBuild(overlay: Store, base: Store, baseId: nat, compatibility: Compatibility, snapshot: Snapshot, expected: seq<Path>)
    returns (r: Result<Counts, BuildError>)
    ensures r.Ok? <==> OverlayBuildOk(overlay, base, baseId, compatibility, snapshot, expected)
    ensures r.Ok? <==> StoreIsFor(overlay, base, baseId, compatibility, snapshot, expected)
    ensures r.Ok? ==> r.value == Counts(|base.index.value|, |overlay.index.value|, Total(overlay.overlay.value.files))
  {
    StoreAcceptanceForSnapshot(overlay, base, baseId, compatibility, snapshot, expected);
    hide PartsOk, Total, ShapeOk, Enumerates, StoreIsFor;
    r := ValidateParts(overlay, base, baseId, compatibility);
    if r.Err? { return; }
    assert base.manifest.Some? && overlay.manifest.Some? && overlay.overlay.Some? by { PartsExist(overlay, base, baseId, compatibility); }
    var files, changed, complete := base.manifest.value.files, overlay.manifest.value.files, overlay.overlay.value.files;
    var hashes := Hashes(snapshot.files);
    var recomputed := RecomputeTombstones(files, hashes);
    var canonical := UniqueSorted(expected);
    CanonicalCompare(recomputed, canonical, Tombstoned(files, hashes), Members(expected));
    if recomputed != canonical { return Err(Mismatch); }
    TombstonesCompare(overlay, base, baseId, compatibility, recomputed, Tombstoned(files, hashes));
    if overlay.overlay.value.tombstones != recomputed { return Err(Mismatch); }
    if complete.Keys != snapshot.files.Keys { return Err(Mismatch); }
    var hashed := CheckHashes(complete, hashes);
    if !hashed { return Err(Mismatch); }
    if changed.Keys != ChangedPaths(files, hashes) { return Err(Mismatch); }
    var changedOk := CheckChanged(complete, changed, hashes);
    if !changedOk {
      return Err(Mismatch);
    }
    var counted := CheckCounts(complete, files, changed, hashes);
    CountsMeanComposition(complete, files, changed, hashes);
    if !counted { return Err(Mismatch); }
  }

  method RecomputeTombstones(files: map<Path, Entry>, hashes: map<Path, Hash>) returns (tombstones: seq<Path>)
    ensures Enumerates(tombstones, Tombstoned(files, hashes))
  {
    hide NoRepeats, Enumerates;
    var found: seq<Path> := [];
    var rest := files.Keys;
    NoMembers();
    while rest != {}
      invariant rest <= files.Keys
      invariant Members(found) == Tombstoned(files, hashes) - rest
      decreases |rest|
    {
      var path :| path in rest;
      RestShrinks(Tombstoned(files, hashes), rest, path);
      rest := rest - {path};
      AddMember(found, path);
      if path !in hashes || hashes[path] != files[path].hash {
        found := found + [path];
      }
    }
    assert Tombstoned(files, hashes) - {} == Tombstoned(files, hashes);
    tombstones := UniqueSorted(found);
  }

  lemma CanonicalCompare(a: seq<Path>, b: seq<Path>, x: set<Path>, y: set<Path>)
    requires Enumerates(a, x) && Enumerates(b, y)
    ensures a == b <==> x == y
  {
    if x == y {
      EnumerationIsUnique(a, b, x);
    } else if a == b {
      EnumeratedMembers(a, x);
      EnumeratedMembers(b, y);
    }
  }

  lemma TombstonesCompare(overlay: Store, base: Store, baseId: nat, compatibility: Compatibility, sorted: seq<Path>, paths: set<Path>)
    requires PartsOk(overlay, base, baseId, compatibility) && Enumerates(sorted, paths)
    ensures overlay.overlay.value.tombstones == sorted <==> Members(overlay.overlay.value.tombstones) == paths
  {
    var tombstones := overlay.overlay.value.tombstones;
    assert Enumerates(tombstones, Members(tombstones));
    CanonicalCompare(tombstones, sorted, Members(tombstones), paths);
  }

  method CheckHashes(complete: map<Path, Entry>, hashes: map<Path, Hash>) returns (ok: bool)
    ensures ok <==> forall p <- complete :: p in hashes && hashes[p] == complete[p].hash
  {
    var rest := complete.Keys;
    while rest != {}
      invariant rest <= complete.Keys
      invariant forall p <- complete.Keys - rest :: p in hashes && hashes[p] == complete[p].hash
      decreases |rest|
    {
      var path :| path in rest;
      rest := rest - {path};
      if path !in hashes || hashes[path] != complete[path].hash { return false; }
    }
    return true;
  }

  method CheckChanged(complete: map<Path, Entry>, changed: map<Path, Entry>, hashes: map<Path, Hash>) returns (ok: bool)
    requires changed.Keys <= hashes.Keys
    ensures ok <==> forall p <- changed :: changed[p].hash == hashes[p] && p in complete && complete[p].hash == hashes[p]
  {
    var rest := changed.Keys;
    while rest != {}
      invariant rest <= changed.Keys
      invariant forall p <- changed.Keys - rest :: changed[p].hash == hashes[p] && p in complete && complete[p].hash == hashes[p]
      decreases |rest|
    {
      var path :| path in rest;
      rest := rest - {path};
      if changed[path].hash != hashes[path] { return false; }
      if path !in complete || complete[path].hash != hashes[path] { return false; }
    }
    return true;
  }

  /** The entry that the chunk count of `path` is compared with. */
  function SourceEntry(base: map<Path, Entry>, changed: map<Path, Entry>, hashes: map<Path, Hash>, path: Path): Option<Entry> {
    if path in base && path in hashes && base[path].hash == hashes[path] then Some(base[path])
    else if path in changed then Some(changed[path])
    else None
  }

  method CheckCounts(complete: map<Path, Entry>, base: map<Path, Entry>, changed: map<Path, Entry>, hashes: map<Path, Hash>) returns (ok: bool)
    ensures ok <==> forall p <- complete ::
              var source := SourceEntry(base, changed, hashes, p);
              source.Some? && source.value.chunkCount == complete[p].chunkCount
  {
    var rest := complete.Keys;
    while rest != {}
      invariant rest <= complete.Keys
      invariant forall p <- complete.Keys - rest ::
        var source := SourceEntry(base, changed, hashes, p);
        source.Some? && source.value.chunkCount == complete[p].chunkCount
      decreases |rest|
    {
      var path :| path in rest;
      rest := rest - {path};
      var source := SourceEntry(base, changed, hashes, path);
      if source.None? || source.value.chunkCount != complete[path].chunkCount { return false; }
    }
    return true;
  }

  /** The separate hash and count checks together say that the complete manifest is composed. */
  lemma CountsMeanComposition(complete: map<Path, Entry>, base: map<Path, Entry>, changed: map<Path, Entry>, hashes: map<Path, Hash>)
    requires complete.Keys == hashes.Keys && (forall p <- complete :: hashes[p] == complete[p].hash)
    requires changed.Keys == ChangedPaths(base, hashes)
    requires forall p <- changed :: changed[p].hash == hashes[p]
    ensures (forall p <- complete ::
               var source := SourceEntry(base, changed, hashes, p);
               source.Some? && source.value.chunkCount == complete[p].chunkCount)
            <==> complete == (base - Tombstoned(base, hashes)) + changed
  {
    var composed := (base - Tombstoned(base, hashes)) + changed;
    assert composed.Keys == hashes.Keys;
    forall p <- complete
      ensures var source := SourceEntry(base, changed, hashes, p);
              source == Some(composed[p]) && composed[p].hash == hashes[p]
    {
    }
    if forall p <- complete ::
         var source := SourceEntry(base, changed, hashes, p);
         source.Some? && source.value.chunkCount == complete[p].chunkCount
    {
      forall p <- complete ensures complete[p] == composed[p] {
        assert SourceEntry(base, changed, hashes, p) == Some(composed[p]);
      }
    }
  }

  // ---- Agreement -------------------------------------------------------------------------------

  /** What the builder produces over a validated base, its own validator accepts. */
  lemma BuiltOverlayIsAccepted(t: Toolchain, plan: OverlayPlan, base: Store, snapshot: Snapshot, compatibility: Compatibility)
    requires StoreOk(base, compatibility)
    requires PlannedOver(plan, plan.baseId, base.manifest.value, snapshot)
    requires OverlayOutcome(t, plan, compatibility).Ok?
    ensures OverlayBuildOk(OverlayOutcome(t, plan, compatibility).value, base, plan.baseId, compatibility, snapshot, plan.tombstones)
  {
    hide ColdIndex, OverlayOutcome, Total, Enumerates, Chunks;
    var overlay, files, hashes := OverlayOutcome(t, plan, compatibility).value, base.manifest.value.files, Hashes(snapshot.files);
    OverlayParts(t, plan, base.manifest.value, snapshot, compatibility);
    EnumeratedMembers(plan.tombstones, Tombstoned(files, hashes));
    var changed := Restrict(snapshot.files, ChangedPaths(files, hashes));
    ColdStoreCovers(t, compatibility, Snapshot(changed));
    assert StoreOk(overlay, compatibility);
    AcceptedAlgebra(t, files, snapshot.files);
  }

  lemma AcceptedAlgebra(t: Toolchain, base: map<Path, Entry>, after: map<Path, Bytes>)
    ensures var hashes := Hashes(after);
            var changed := ColdFiles(t, Restrict(after, ChangedPaths(base, hashes)));
            var complete := Restrict(base, UnchangedPaths(base, hashes)) + changed;
            && changed.Keys == ChangedPaths(base, hashes)
            && complete == (base - Tombstoned(base, hashes)) + changed
            && complete.Keys == after.Keys
            && forall p <- after :: complete[p].hash == hashes[p]
  {
    hide Chunks;
  }

  /** Acceptance by the build validator implies acceptance by the store validator. */
  lemma BuildAcceptanceImpliesStoreAcceptance(overlay: Store, base: Store, baseId: nat, compatibility: Compatibility, snapshot: Snapshot, expected: seq<Path>)
    requires OverlayBuildOk(overlay, base, baseId, compatibility, snapshot, expected)
    ensures OverlayStoreOk(overlay, base, baseId, compatibility)
  {
    hide PartsOk;
    PartsExist(overlay, base, baseId, compatibility);
    var files, hashes := base.manifest.value.files, Hashes(snapshot.files);
    assert (files - Tombstoned(files, hashes)).Keys !! ChangedPaths(files, hashes);
  }

  /** What the store validator cannot know: acceptance adds up, chunk by chunk. */
  lemma AcceptedCountsAddUp(overlay: Store, base: Store, baseId: nat, compatibility: Compatibility)
    requires OverlayStoreOk(overlay, base, baseId, compatibility)
    ensures var tombstones := Members(overlay.overlay.value.tombstones);
            Total(overlay.overlay.value.files)
            == |base.index.value| - Total(Restrict(base.manifest.value.files, tombstones)) + |overlay.index.value|
  {
    hide Total, ShapeOk, Members, Restrict;
    CountsAddUp(base.manifest.value.files, Members(overlay.overlay.value.tombstones), overlay.manifest.value.files);
  }

  lemma CountsAddUp(files: map<Path, Entry>, gone: set<Path>, changed: map<Path, Entry>)
    requires (files - gone).Keys !! changed.Keys
    ensures Total((files - gone) + changed) == Total(files) - Total(Restrict(files, gone)) + Total(changed)
  {
    hide Total;
    TotalUnion(files - gone, changed);
    TotalUnion(files - gone, Restrict(files, gone));
    assert (files - gone) + Restrict(files, gone) == files;
  }

  /** The exact difference between the two validators. */
  lemma StoreAcceptanceForSnapshot(overlay: Store, base: Store, baseId: nat, compatibility: Compatibility, snapshot: Snapshot, expected: seq<Path>)
    ensures OverlayBuildOk(overlay, base, baseId, compatibility, snapshot, expected)
       <==> StoreIsFor(overlay, base, baseId, compatibility, snapshot, expected)
  {
    hide PartsOk;
    if OverlayBuildOk(overlay, base, baseId, compatibility, snapshot, expected) {
      BuildAcceptanceImpliesStoreAcceptance(overlay, base, baseId, compatibility, snapshot, expected);
    }
    if OverlayStoreOk(overlay, base, baseId, compatibility) {
      AcceptedForSnapshot(overlay, base, baseId, compatibility, snapshot, expected);
    }
  }

  lemma AcceptedForSnapshot(overlay: Store, base: Store, baseId: nat, compatibility: Compatibility, snapshot: Snapshot, expected: seq<Path>)
    requires OverlayStoreOk(overlay, base, baseId, compatibility)
    ensures var hashes, files := Hashes(snapshot.files), base.manifest.value.files;
            OverlayBuildOk(overlay, base, baseId, compatibility, snapshot, expected)
            <==>
            && Members(overlay.overlay.value.tombstones) == Members(expected)
            && overlay.overlay.value.files.Keys == snapshot.files.Keys
            && (forall p <- snapshot.files :: overlay.overlay.value.files[p].hash == hashes[p])
            && Members(expected) == Tombstoned(files, hashes)
  {
    hide PartsOk;
    PartsExist(overlay, base, baseId, compatibility);
    var hashes, files := Hashes(snapshot.files), base.manifest.value.files;
    var complete, changed := overlay.overlay.value.files, overlay.manifest.value.files;
    if complete.Keys == snapshot.files.Keys && Members(overlay.overlay.value.tombstones) == Tombstoned(files, hashes) {
      assert changed.Keys == complete.Keys - (files - Tombstoned(files, hashes)).Keys;
      assert changed.Keys == ChangedPaths(files, hashes);
    }
  }
}
