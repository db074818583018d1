/**
 Ordered paths and the difference between a stored manifest and the files of a snapshot.
 */
module Manifest {
  import opened Wrappers
  import opened Contracts
  import opened Sorting

  // ---- Path order ------------------------------------------------------------------------------

  /** The order of JavaScript's `<` and of its default sort. */
  predicate PathLe(a: Path, b: Path) {
    a == "" || (b != "" && (a[0] < b[0] || (a[0] == b[0] && PathLe(a[1..], b[1..]))))
  }

  lemma {:induction false} PathLeTotal(a: Path, b: Path)
    ensures PathLe(a, b) || PathLe(b, a)
    ensures PathLe(a, b) && PathLe(b, a) ==> a == b
  {
    if a != "" && b != "" {
      PathLeTotal(a[1..], b[1..]);
      assert a == [a[0]] + a[1..] && b == [b[0]] + b[1..];
    }
  }

  lemma {:induction false} PathLeTransitive(a: Path, b: Path, c: Path)
    requires PathLe(a, b) && PathLe(b, c)
    ensures PathLe(a, c)
  {
    if a != "" && b != "" && c != "" && a[0] == b[0] == c[0] {
      PathLeTransitive(a[1..], b[1..], c[1..]);
    }
  }

  lemma PathOrder()
    ensures TotalPreorder(PathLe) && Antisymmetric(PathLe)
  {
    forall a, b ensures (PathLe(a, b) || PathLe(b, a)) && (PathLe(a, b) && PathLe(b, a) ==> a == b) {
      PathLeTotal(a, b);
    }
    forall a, b, c | PathLe(a, b) && PathLe(b, c) ensures PathLe(a, c) {
      PathLeTransitive(a, b, c);
    }
  }

  /** The two agree up to `n`, and then `a` has the lesser character. */
  predicate LessAt(a: Path, b: Path, n: nat) {
    n < |a| && n < |b| && a[..n] == b[..n] && a[n] < b[n]
  }

  lemma LessLater(a: Path, b: Path, n: nat)
    requires a != "" && b != "" && a[0] == b[0]
    ensures LessAt(a[1..], b[1..], n) <==> LessAt(a, b, n + 1)
    ensures !LessAt(a, b, 0)
  {
    if n < |a| - 1 && n < |b| - 1 {
      assert a[..n + 1] == [a[0]] + a[1..][..n] && b[..n + 1] == [b[0]] + b[1..][..n];
    }
  }

  /** The order is that of the first character that differs, and a prefix comes first. */
  lemma {:induction false} PathLeByFirstDifference(a: Path, b: Path)
    ensures PathLe(a, b) <==> a <= b || exists n: nat :: LessAt(a, b, n)
    decreases |a|
  {
    if a != "" && b != "" {
      if a[0] == b[0] {
        PathLeByFirstDifference(a[1..], b[1..]);
        assert a == [a[0]] + a[1..] && b == [b[0]] + b[1..];
        hide LessAt;
        forall n: nat ensures LessAt(a[1..], b[1..], n) <==> LessAt(a, b, n + 1) && !LessAt(a, b, 0) { LessLater(a, b, n); }
        if n: nat :| LessAt(a[1..], b[1..], n) { assert LessAt(a, b, n + 1); }
        if n: nat :| LessAt(a, b, n) {
          LessLater(a, b, 0);
          LessLater(a, b, n - 1);
          assert LessAt(a[1..], b[1..], n - 1);
        }
        assert a <= b <==> a[1..] <= b[1..];
      } else {
        assert a[..0] == b[..0];
        assert LessAt(a, b, 0) <==> a[0] < b[0];
        if n: nat :| LessAt(a, b, n) { assert n > 0 ==> a[..n][0] == b[..n][0]; }
      }
    }
  }

  /** `s` lists exactly the members of `paths`, each once, in path order. */
  ghost predicate Enumerates(s: seq<Path>, paths: set<Path>) {
    SortedBy(PathLe, s) && NoRepeats(s) && forall p :: p in s <==> p in paths
  }

  lemma EnumerationIsUnique(a: seq<Path>, b: seq<Path>, paths: set<Path>)
    requires Enumerates(a, paths)
    ensures Enumerates(b, paths) <==> a == b
  {
    PathOrder();
    if Enumerates(b, paths) {
      DistinctMultisets(a, b);
      SortedIsUnique(PathLe, a, b);
    }
  }

  function Members(s: seq<Path>): set<Path> {
    set p | p in s
  }

  lemma SortEnumerates(s: seq<Path>, paths: set<Path>)
    requires NoRepeats(s) && Members(s) == paths
    ensures Enumerates(StableSort(PathLe, s), paths)
  {
    PathOrder();
    StableSortSorts(PathLe, s);
    StableSortKeepsDistinct(PathLe, s);
    hide StableSort, TotalPreorder, Antisymmetric, PathLe;
    forall p ensures p in s <==> p in paths {
      assert p in Members(s) <==> p in s;
    }
  }

  /** The distinct values, sorted. */
  method UniqueSorted(values: seq<Path>) returns (r: seq<Path>)
    ensures Enumerates(r, Members(values))
  {
    var unique: seq<Path> := [];
    for i := 0 to |values|
      invariant NoRepeats(unique)
      invariant forall p :: p in unique <==> p in values[..i]
    {
      assert values[..i + 1] == values[..i] + [values[i]];
      if values[i] !in unique {
        unique := unique + [values[i]];
      }
    }
    assert values[..|values|] == values;
    assert Members(unique) == Members(values);
    SortEnumerates(unique, Members(values));
    r := StableSort(PathLe, unique);
  }

  // ---- Diff ------------------------------------------------------------------------------------

  datatype FileHash = FileHash(path: Path, hash: Hash)

  /** `kept` are the unchanged paths. */
  datatype ManifestDiff = ManifestDiff(changed: seq<Path>, deleted: seq<Path>, kept: seq<Path>)

  /** Later entries of a path win, as in a map filled in order. */
  function HashByPath(current: seq<FileHash>): map<Path, Hash> {
    if current == [] then map[]
    else
      var last := current[|current| - 1];
      HashByPath(current[..|current| - 1])[last.path := last.hash]
  }

  function ChangedPaths(prev: map<Path, Entry>, hashes: map<Path, Hash>): set<Path> {
    set p | p in hashes && (p !in prev || prev[p].hash != hashes[p])
  }

  function DeletedPaths(prev: map<Path, Entry>, hashes: map<Path, Hash>): set<Path> {
    set p | p in prev && p !in hashes
  }

  function UnchangedPaths(prev: map<Path, Entry>, hashes: map<Path, Hash>): set<Path> {
    set p | p in prev && p in hashes && prev[p].hash == hashes[p]
  }

  ghost predicate IsDiff(diff: ManifestDiff, prev: map<Path, Entry>, hashes: map<Path, Hash>) {
    && Enumerates(diff.changed, ChangedPaths(prev, hashes))
    && Enumerates(diff.deleted, DeletedPaths(prev, hashes))
    && Enumerates(diff.kept, UnchangedPaths(prev, hashes))
  }

  /** No previous manifest means that every current path is changed. */
  method DiffManifest(prev: Option<FileManifest>, current: seq<FileHash>) returns (diff: ManifestDiff)
    ensures var files, hashes := if prev.Some? then prev.value.files else map[], HashByPath(current);
            && IsDiff(diff, files, hashes)
            && Members(diff.changed) !! Members(diff.deleted) !! Members(diff.kept)
            && Members(diff.changed) + Members(diff.deleted) + Members(diff.kept) == files.Keys + hashes.Keys
  {
    hide StableSort, Enumerates, PathLe;
    var currentHashByPath: map<Path, Hash> := map[];
    for i := 0 to |current|
      invariant currentHashByPath == HashByPath(current[..i])
    {
      assert current[..i + 1][..i] == current[..i];
      currentHashByPath := currentHashByPath[current[i].path := current[i].hash];
    }
    assert current[..|current|] == current;
    var files: map<Path, Entry> := if prev.Some? then prev.value.files else map[];
    var changed, deleted, kept := ClassifyPrevious(files, currentHashByPath);
    changed := AddNewPaths(files, currentHashByPath, changed);
    SortEnumerates(changed, ChangedPaths(files, currentHashByPath));
    SortEnumerates(deleted, DeletedPaths(files, currentHashByPath));
    SortEnumerates(kept, UnchangedPaths(files, currentHashByPath));
    diff := ManifestDiff(StableSort(PathLe, changed), StableSort(PathLe, deleted), StableSort(PathLe, kept));
    EnumeratedMembers(diff.changed, ChangedPaths(files, currentHashByPath));
    EnumeratedMembers(diff.deleted, DeletedPaths(files, currentHashByPath));
    EnumeratedMembers(diff.kept, UnchangedPaths(files, currentHashByPath));
    DiffPartitions(files, currentHashByPath);
  }

  lemma EnumeratedMembers(s: seq<Path>, paths: set<Path>)
    requires Enumerates(s, paths)
    ensures Members(s) == paths
  {
  }

  method ClassifyPrevious(files: map<Path, Entry>, hashes: map<Path, Hash>)
    returns (changed: seq<Path>, deleted: seq<Path>, kept: seq<Path>)
    ensures NoRepeats(changed) && NoRepeats(deleted) && NoRepeats(kept)
    ensures Members(changed) == ChangedPaths(files, hashes) * files.Keys
    ensures Members(deleted) == DeletedPaths(files, hashes)
    ensures Members(kept) == UnchangedPaths(files, hashes)
  {
    hide NoRepeats, Members, ChangedPaths, DeletedPaths, UnchangedPaths;
    NoMembers();
    ghost var c, d, u := ChangedPaths(files, hashes) * files.Keys, DeletedPaths(files, hashes), UnchangedPaths(files, hashes);
    DiffWithin(files, hashes);
    changed, deleted, kept := [], [], [];
    var rest := files.Keys;
    while rest != {}
      invariant rest <= files.Keys
      invariant NoRepeats(changed) && NoRepeats(deleted) && NoRepeats(kept)
      invariant Members(changed) == c - rest && Members(deleted) == d - rest && Members(kept) == u - rest
      decreases |rest|
    {
      var path :| path in rest;
      Classified(files, hashes, path);
      RestShrinks(c, rest, path);
      RestShrinks(d, rest, path);
      RestShrinks(u, rest, path);
      rest := rest - {path};
      if path !in hashes {
        AddMember(deleted, path);
        deleted := deleted + [path];
      } else if hashes[path] == files[path].hash {
        AddMember(kept, path);
        kept := kept + [path];
      } else {
        AddMember(changed, path);
        changed := changed + [path];
      }
    }
  }

  method AddNewPaths(files: map<Path, Entry>, hashes: map<Path, Hash>, before: seq<Path>) returns (changed: seq<Path>)
    requires NoRepeats(before) && Members(before) == ChangedPaths(files, hashes) * files.Keys
    ensures NoRepeats(changed) && Members(changed) == ChangedPaths(files, hashes)
  {
    changed := before;
    var rest := hashes.Keys;
    while rest != {}
      invariant rest <= hashes.Keys
      invariant NoRepeats(changed)
      invariant Members(changed) == ChangedPaths(files, hashes) - (rest - files.Keys)
      decreases |rest|
    {
      var path :| path in rest;
      rest := rest - {path};
      if path !in files {
        AddMember(changed, path);
        changed := changed + [path];
      }
    }
  }

  lemma RestShrinks(all: set<Path>, rest: set<Path>, path: Path)
    requires path in rest
    ensures all - (rest - {path}) == if path in all then (all - rest) + {path} else all - rest
  {
  }

  lemma Classified(files: map<Path, Entry>, hashes: map<Path, Hash>, path: Path)
    requires path in files
    ensures path in ChangedPaths(files, hashes) <==> path in hashes && files[path].hash != hashes[path]
    ensures path in DeletedPaths(files, hashes) <==> path !in hashes
    ensures path in UnchangedPaths(files, hashes) <==> path in hashes && files[path].hash == hashes[path]
  {
  }

  lemma DiffWithin(files: map<Path, Entry>, hashes: map<Path, Hash>)
    ensures DeletedPaths(files, hashes) <= files.Keys && UnchangedPaths(files, hashes) <= files.Keys
  {
  }

  lemma NoMembers()
    ensures Members([]) == {} && NoRepeats<Path>([])
  {
  }

  lemma AddMember(s: seq<Path>, p: Path)
    ensures Members(s + [p]) == Members(s) + {p}
    ensures NoRepeats(s) && p !in Members(s) ==> NoRepeats(s + [p])
  {
  }

  /** The three lists share no path, and together name every path of either side. */
  lemma DiffPartitions(prev: map<Path, Entry>, hashes: map<Path, Hash>)
    ensures ChangedPaths(prev, hashes) !! DeletedPaths(prev, hashes) !! UnchangedPaths(prev, hashes)
    ensures ChangedPaths(prev, hashes) + DeletedPaths(prev, hashes) + UnchangedPaths(prev, hashes) == prev.Keys + hashes.Keys
  {
  }
}
