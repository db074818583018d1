/**
 Capturing a snapshot: the eligible paths are read in path order, and every path ends up captured or counted under
 the reason that kept it out.
 */
module Capture {
  import opened Sets
  import opened Wrappers
  import opened Contracts
  import opened Sorting
  import opened Manifest
  import opened Enumeration

  /** Reading one path: its bytes, a symbolic link or other non-regular file, or a failure that ends the capture. */
  datatype ReadOutcome = Read(bytes: Bytes) | NotRead(reason: Reason) | Failed(error: SourceError)

  datatype Reader = Reader(read: Path -> ReadOutcome, classifyContent: Bytes -> Option<Reason>, maxTotalBytes: nat)

  datatype Captured = Captured(snapshot: Snapshot, excluded: multiset<Reason>, sourceBytes: nat)

  function CaptureOne(reader: Reader, c: Captured, path: Path): Result<Captured, SourceError> {
    match reader.read(path)
    case Failed(error) => Err(error)
    case NotRead(reason) => Ok(c.(excluded := c.excluded + multiset{reason}))
    case Read(bytes) =>
      match reader.classifyContent(bytes)
      case Some(reason) => Ok(c.(excluded := c.excluded + multiset{reason}))
      case None =>
        if c.sourceBytes + |bytes| > reader.maxTotalBytes then Err(BudgetExceeded)
        else Ok(Captured(Snapshot(c.snapshot.files[path := bytes]), c.excluded, c.sourceBytes + |bytes|))
  }

  function CaptureAll(reader: Reader, c: Captured, paths: seq<Path>): Result<Captured, SourceError> {
    if paths == [] then Ok(c)
    else
      match CaptureAll(reader, c, paths[..|paths| - 1])
      case Err(error) => Err(error)
      case Ok(before) => CaptureOne(reader, before, paths[|paths| - 1])
  }

  function Begin(excluded: multiset<Reason>): Captured {
    Captured(Snapshot(map[]), excluded, 0)
  }

  function CaptureOf(policy: Policy, reader: Reader, stream: Bytes, interrupt: Option<SourceError>, code: int): Result<Captured, SourceError> {
    match Enumerated(policy, stream, interrupt, code)
    case Err(error) => Err(error)
    case Ok(tally) => CaptureAll(reader, Begin(tally.excluded), StableSort(PathLe, tally.eligible))
  }

  method CaptureSnapshot(policy: Policy, reader: Reader, events: seq<Event>, code: int) returns (result: Result<Captured, SourceError>)
    ensures result == CaptureOf(policy, reader, DataBefore(events), FirstInterrupt(events), code)
  {
    hide Enumerated, DataBefore, FirstInterrupt, CaptureAll, StableSort, PathLe;
    var enumerated := EnumerateTrackedPaths(policy, events, code);
    if enumerated.Err? { return Err(enumerated.error); }
    var excluded := enumerated.value.excluded;
    var eligible := StableSort(PathLe, enumerated.value.eligible);
    ghost var begin := Begin(excluded);
    StartCapture(reader, begin, eligible);
    var files: map<Path, Bytes> := map[];
    var sourceBytes: nat := 0;
    for i := 0 to |eligible|
      invariant CaptureAll(reader, begin, eligible[..i]) == Ok(Captured(Snapshot(files), excluded, sourceBytes))
    {
      CaptureNext(reader, begin, eligible, i);
      var relPath := eligible[i];
      var read := reader.read(relPath);
      match read {
        case Failed(error) =>
          Fails(reader, begin, eligible, i + 1);
          return Err(error);
        case NotRead(reason) =>
          excluded := excluded + multiset{reason};
        case Read(bytes) =>
          var contentReason := reader.classifyContent(bytes);
          if contentReason.Some? {
            excluded := excluded + multiset{contentReason.value};
          } else {
            sourceBytes := sourceBytes + |bytes|;
            if sourceBytes > reader.maxTotalBytes {
              Fails(reader, begin, eligible, i + 1);
              return Err(BudgetExceeded);
            }
            files := files[relPath := bytes];
          }
      }
    }
    assert eligible[..|eligible|] == eligible;
    result := Ok(Captured(Snapshot(files), excluded, sourceBytes));
  }

  lemma StartCapture(reader: Reader, c: Captured, paths: seq<Path>)
    ensures CaptureAll(reader, c, paths[..0]) == Ok(c)
  {
  }

  lemma CaptureNext(reader: Reader, c: Captured, paths: seq<Path>, i: nat)
    requires i < |paths| && CaptureAll(reader, c, paths[..i]).Ok?
    ensures CaptureAll(reader, c, paths[..i + 1]) == CaptureOne(reader, CaptureAll(reader, c, paths[..i]).value, paths[i])
  {
    assert paths[..i + 1][..i] == paths[..i];
  }

  lemma {:induction false} Fails(reader: Reader, c: Captured, paths: seq<Path>, i: nat)
    requires i <= |paths| && CaptureAll(reader, c, paths[..i]).Err?
    ensures CaptureAll(reader, c, paths) == CaptureAll(reader, c, paths[..i])
    decreases |paths|
  {
    if i < |paths| {
      var front := paths[..|paths| - 1];
      assert front[..i] == paths[..i];
      Fails(reader, c, front, i);
    } else {
      assert paths[..i] == paths;
    }
  }

  // ---- What a capture holds --------------------------------------------------------------------

  predicate Usable(reader: Reader, path: Path) {
    reader.read(path).Read? && reader.classifyContent(reader.read(path).bytes).None?
  }

  function ContentBytes(reader: Reader, paths: seq<Path>): nat {
    if paths == [] then 0
    else
      var last := paths[|paths| - 1];
      ContentBytes(reader, paths[..|paths| - 1]) + if Usable(reader, last) then |reader.read(last).bytes| else 0
  }

  /** Why a path that can be looked at is not captured. */
  function Exclusion(reader: Reader, path: Path): Option<Reason> {
    match reader.read(path)
    case Failed(_) => None
    case NotRead(reason) => Some(reason)
    case Read(bytes) => reader.classifyContent(bytes)
  }

  function ExcludedFor(reader: Reader, paths: seq<Path>, reason: Reason): nat {
    if paths == [] then 0
    else ExcludedFor(reader, paths[..|paths| - 1], reason)
         + if Exclusion(reader, paths[|paths| - 1]) == Some(reason) then 1 else 0
  }

  /** The usable paths with their bytes, and one exclusion for each of the others. */
  ghost predicate CapturedExactly(reader: Reader, paths: seq<Path>, excluded: multiset<Reason>, c: Captured) {
    && (forall path :: path in c.snapshot.files <==> path in paths && Usable(reader, path))
    && (forall path <- c.snapshot.files :: c.snapshot.files[path] == reader.read(path).bytes)
    && c.sourceBytes == ContentBytes(reader, paths)
    && (forall reason :: c.excluded[reason] == excluded[reason] + ExcludedFor(reader, paths, reason))
    && |c.snapshot.files| + |c.excluded| == |paths| + |excluded|
  }

  /**
   A capture succeeds exactly when no read fails and the usable contents fit the budget, and then holds exactly
   those contents.
   */
  lemma {:induction false} CaptureIsExact(reader: Reader, excluded: multiset<Reason>, paths: seq<Path>)
    requires NoRepeats(paths)
    ensures var result := CaptureAll(reader, Begin(excluded), paths);
            && (result.Ok? <==> (forall path <- paths :: !reader.read(path).Failed?) && ContentBytes(reader, paths) <= reader.maxTotalBytes)
            && (result.Ok? ==> CapturedExactly(reader, paths, excluded, result.value))
    decreases |paths|
  {
    if paths != [] {
      var front, last := paths[..|paths| - 1], paths[|paths| - 1];
      CaptureIsExact(reader, excluded, front);
      assert paths == front + [last];
      assert last !in front;
      var before := CaptureAll(reader, Begin(excluded), front);
      if before.Ok? {
        assert forall path <- front :: path in paths;
        CaptureOneIsExact(reader, front, excluded, before.value, last);
      }
    }
  }

  lemma CaptureOneIsExact(reader: Reader, front: seq<Path>, excluded: multiset<Reason>, c: Captured, last: Path)
    requires CapturedExactly(reader, front, excluded, c) && last !in front
    requires c.sourceBytes <= reader.maxTotalBytes
    ensures var result := CaptureOne(reader, c, last);
            && (result.Ok? <==> !reader.read(last).Failed? && ContentBytes(reader, front + [last]) <= reader.maxTotalBytes)
            && (result.Ok? ==> CapturedExactly(reader, front + [last], excluded, result.value))
  {
    SumsAppend(reader, front, last);
    hide ContentBytes, ExcludedFor;
    assert forall path :: path in front + [last] <==> path in front || path == last;
  }

  lemma SumsAppend(reader: Reader, front: seq<Path>, last: Path)
    ensures ContentBytes(reader, front + [last])
         == ContentBytes(reader, front) + if Usable(reader, last) then |reader.read(last).bytes| else 0
    ensures forall reason ::
              ExcludedFor(reader, front + [last], reason)
              == ExcludedFor(reader, front, reason) + if Exclusion(reader, last) == Some(reason) then 1 else 0
  {
    assert (front + [last])[..|front|] == front;
  }

  /**
   However the output of the child was cut, a captured snapshot holds the usable eligible paths, and captured files
   plus exclusions are the distinct decoded paths plus the undecodable records.
   */
  lemma EveryPathIsAccountedFor(policy: Policy, reader: Reader, stream: Bytes, interrupt: Option<SourceError>, code: int)
    ensures var result := CaptureOf(policy, reader, stream, interrupt, code);
            result.Ok? ==>
              var records, c := Records(stream), result.value;
              && Terminated(records) == stream && interrupt == None && code == 0
              && |c.snapshot.files| + |c.excluded| == |Decoded(policy, records)| + Undecodable(policy, records)
              && |c.snapshot.files| <= policy.maxFiles
              && c.sourceBytes <= reader.maxTotalBytes
              && forall path :: path in c.snapshot.files
                   <==> path in Decoded(policy, records) && policy.classify(path).None? && Usable(reader, path)
  {
    var result := CaptureOf(policy, reader, stream, interrupt, code);
    if result.Ok? {
      var tally := TallyOf(policy, stream);
      TallyIsExact(policy, Records(stream));
      RecordsRestoreStream(stream);
      hide Terminated, Records, CountAll, Decoded, Undecodable, StableSort, PathLe;
      assert NoRepeats(tally.eligible);
      var paths := StableSort(PathLe, tally.eligible);
      PathOrder();
      StableSortKeepsDistinct(PathLe, tally.eligible);
      CaptureIsExact(reader, tally.excluded, paths);
      FilesWithin(result.value.snapshot.files, paths);
    }
  }

  lemma FilesWithin(files: map<Path, Bytes>, paths: seq<Path>)
    requires forall path <- files :: path in paths
    ensures |files| <= |paths|
  {
    var members := Members(paths);
    MembersBound(paths);
    assert files.Keys <= members;
    SubsetSize(files.Keys, members);
    assert |files| == |files.Keys|;
  }

  lemma {:induction false} MembersBound(paths: seq<Path>)
    ensures |Members(paths)| <= |paths|
    decreases |paths|
  {
    if paths != [] {
      var front := paths[..|paths| - 1];
      MembersBound(front);
      assert paths == front + [paths[|paths| - 1]];
      assert Members(paths) == Members(front) + {paths[|paths| - 1]};
    }
  }

  // ---- Why a capture fails ---------------------------------------------------------------------

  /** The path at `i` ends the capture: its read fails, or its bytes no longer fit. */
  predicate EndsAt(reader: Reader, paths: seq<Path>, i: nat, error: SourceError)
    requires i < |paths|
  {
    match reader.read(paths[i])
    case Failed(e) => error == e
    case NotRead(_) => false
    case Read(bytes) => Usable(reader, paths[i]) && ContentBytes(reader, paths[..i]) + |bytes| > reader.maxTotalBytes && error == BudgetExceeded
  }

  lemma OneFails(reader: Reader, paths: seq<Path>, i: nat, c: Captured)
    requires i < |paths| && c.sourceBytes == ContentBytes(reader, paths[..i]) && CaptureOne(reader, c, paths[i]).Err?
    ensures EndsAt(reader, paths, i, CaptureOne(reader, c, paths[i]).error)
  {
    hide ContentBytes;
  }

  /** A capture that fails does so at the first path, in order, that cannot be read or does not fit. */
  lemma {:induction false} FirstFailureEnds(reader: Reader, excluded: multiset<Reason>, paths: seq<Path>) returns (i: nat)
    requires NoRepeats(paths) && CaptureAll(reader, Begin(excluded), paths).Err?
    ensures i < |paths| && EndsAt(reader, paths, i, CaptureAll(reader, Begin(excluded), paths).error)
    ensures ContentBytes(reader, paths[..i]) <= reader.maxTotalBytes && forall path <- paths[..i] :: !reader.read(path).Failed?
    decreases |paths|
  {
    hide CaptureOne, EndsAt, Usable, ContentBytes;
    var front := paths[..|paths| - 1];
    var before := CaptureAll(reader, Begin(excluded), front);
    if before.Err? {
      i := FirstFailureEnds(reader, excluded, front);
      EndsAtToo(reader, paths, i, before.error);
    } else {
      i := |paths| - 1;
      CaptureIsExact(reader, excluded, front);
      OneFails(reader, paths, i, before.value);
    }
  }

  lemma EndsAtToo(reader: Reader, paths: seq<Path>, i: nat, error: SourceError)
    requires i < |paths| - 1 && EndsAt(reader, paths[..|paths| - 1], i, error)
    ensures EndsAt(reader, paths, i, error) && paths[..|paths| - 1][..i] == paths[..i]
  {
    hide ContentBytes;
    assert paths[..|paths| - 1][..i] == paths[..i];
  }

  /** The paths are read in path order, so the failure reported is that of the least path. */
  lemma CaptureFailsAtTheLeast(policy: Policy, reader: Reader, stream: Bytes, interrupt: Option<SourceError>, code: int)
    returns (paths: seq<Path>, i: nat)
    requires Enumerated(policy, stream, interrupt, code).Ok? && CaptureOf(policy, reader, stream, interrupt, code).Err?
    ensures Enumerates(paths, Admitted(policy, stream)) && i < |paths|
    ensures EndsAt(reader, paths, i, CaptureOf(policy, reader, stream, interrupt, code).error)
    ensures ContentBytes(reader, paths[..i]) <= reader.maxTotalBytes && forall path <- paths[..i] :: !reader.read(path).Failed?
  {
    EnumerationOutcome(policy, stream, interrupt, code);
    hide Enumerated, StableSort, PathLe, CaptureAll, ContentBytes, Usable, Admitted, Tallied, EndsAt, Records, Terminated;
    var tally := Enumerated(policy, stream, interrupt, code).value;
    assert NoRepeats(tally.eligible) by { TalliedDistinct(policy, Records(stream), tally); }
    assert Members(tally.eligible) == Admitted(policy, stream);
    PathOrder();
    SortEnumerates(tally.eligible, Admitted(policy, stream));
    paths := StableSort(PathLe, tally.eligible);
    StableSortKeepsDistinct(PathLe, tally.eligible);
    i := FirstFailureEnds(reader, tally.excluded, paths);
  }

  lemma TalliedDistinct(policy: Policy, records: seq<Bytes>, t: Tally)
    requires Tallied(policy, records, t)
    ensures NoRepeats(t.eligible)
  {
  }
}
