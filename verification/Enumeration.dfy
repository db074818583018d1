/**
 The streaming enumeration of tracked paths: NUL-terminated records arrive in arbitrary chunks, are decoded,
 deduplicated and classified, and the enumeration stops at a byte or file budget.
 */
module Enumeration {
  import opened Wrappers
  import opened Contracts

  const NUL: byte := 0
  const ENUMERATION_STDOUT_LIMIT := 16 * 1024 * 1024

  datatype Reason = InvalidPath | InvalidUtf8Name | ExcludedDirectory | ExcludedSecret | ExcludedBinaryExtension
                  | ExcludedTest | ExcludedSymlink | ExcludedNonregular | ContentBinary | ContentNotUtf8

  datatype SourceError = SourceRaced | BudgetExceeded | SourceUnavailable | Aborted

  /** Strict decoding of a record and the policy's verdict on a path. */
  datatype Policy = Policy(decode: Bytes -> Option<Path>, classify: Path -> Option<Reason>, maxFiles: nat)

  /** The exclusion counters are the multiplicities of `excluded`. */
  datatype Tally = Tally(seen: set<Path>, eligible: seq<Path>, excluded: multiset<Reason>)

  const NOTHING := Tally({}, [], multiset{})

  // ---- Records of a stream ---------------------------------------------------------------------

  /** The records of a stream that are terminated by a NUL. */
  function Records(stream: Bytes): seq<Bytes> {
    if stream == [] then []
    else
      var front := stream[..|stream| - 1];
      if stream[|stream| - 1] == 0 then Records(front) + [Rest(front)] else Records(front)
  }

  /** What follows the last NUL. */
  function Rest(stream: Bytes): Bytes {
    if stream == [] || stream[|stream| - 1] == 0 then [] else Rest(stream[..|stream| - 1]) + [stream[|stream| - 1]]
  }

  lemma {:induction false} RestHasNoRecord(stream: Bytes)
    ensures Records(Rest(stream)) == [] && Rest(Rest(stream)) == Rest(stream)
  {
    if stream != [] && stream[|stream| - 1] != 0 {
      RestHasNoRecord(stream[..|stream| - 1]);
      assert Rest(stream)[..|Rest(stream)| - 1] == Rest(stream[..|stream| - 1]);
    }
  }

  /** Splitting may be resumed from the unfinished record alone. */
  lemma {:induction false} RecordsResume(a: Bytes, b: Bytes)
    ensures Records(a + b) == Records(a) + Records(Rest(a) + b)
    ensures Rest(a + b) == Rest(Rest(a) + b)
    decreases |b|
  {
    if b == [] {
      RestHasNoRecord(a);
      assert a + b == a && Rest(a) + b == Rest(a);
    } else {
      var front := b[..|b| - 1];
      RecordsResume(a, front);
      assert (a + b)[..|a + b| - 1] == a + front;
      assert (Rest(a) + b)[..|Rest(a) + b| - 1] == Rest(a) + front;
    }
  }

  function Terminated(records: seq<Bytes>): Bytes {
    if records == [] then [] else Terminated(records[..|records| - 1]) + records[|records| - 1] + [0]
  }

  /** The records, each followed by NUL, and the rest give the stream back, and none of them holds a NUL. */
  lemma {:induction false} RecordsRestoreStream(stream: Bytes)
    ensures Terminated(Records(stream)) + Rest(stream) == stream
    ensures NUL !in Rest(stream) && forall record <- Records(stream) :: NUL !in record
    decreases |stream|
  {
    if stream != [] {
      var front, last := stream[..|stream| - 1], stream[|stream| - 1];
      RecordsRestoreStream(front);
      assert stream == front + [last];
      if last == 0 {
        assert Records(stream)[..|Records(stream)| - 1] == Records(front);
      }
    }
  }

  // ---- Counting records ------------------------------------------------------------------------

  function Count(policy: Policy, t: Tally, record: Bytes): Tally {
    if record == [] then t
    else
      match policy.decode(record)
      case None => t.(excluded := t.excluded + multiset{InvalidUtf8Name})
      case Some(path) =>
        if path in t.seen then t
        else
          match policy.classify(path)
          case Some(reason) => t.(seen := t.seen + {path}, excluded := t.excluded + multiset{reason})
          case None => t.(seen := t.seen + {path}, eligible := t.eligible + [path])
  }

  function CountAll(policy: Policy, t: Tally, records: seq<Bytes>): Tally {
    if records == [] then t else Count(policy, CountAll(policy, t, records[..|records| - 1]), records[|records| - 1])
  }

  lemma {:induction false} CountAllAppend(policy: Policy, t: Tally, a: seq<Bytes>, b: seq<Bytes>)
    ensures CountAll(policy, t, a + b) == CountAll(policy, CountAll(policy, t, a), b)
    decreases |b|
  {
    hide Count;
    if b == [] {
      assert a + b == a;
    } else {
      CountAllAppend(policy, t, a, b[..|b| - 1]);
      assert (a + b)[..|a + b| - 1] == a + b[..|b| - 1];
    }
  }

  lemma {:induction false} EligibleGrows(policy: Policy, t: Tally, records: seq<Bytes>)
    ensures |CountAll(policy, t, records).eligible| >= |t.eligible|
    decreases |records|
  {
    if records != [] { EligibleGrows(policy, t, records[..|records| - 1]); }
  }

  /** The distinct paths that some record decodes to. */
  ghost function Decoded(policy: Policy, records: seq<Bytes>): set<Path> {
    set record | record in records && record != [] && policy.decode(record).Some? :: policy.decode(record).value
  }

  function Undecodable(policy: Policy, records: seq<Bytes>): nat {
    if records == [] then 0
    else
      var last := records[|records| - 1];
      Undecodable(policy, records[..|records| - 1]) + if last != [] && policy.decode(last).None? then 1 else 0
  }

  ghost function Refused(policy: Policy, paths: set<Path>, reason: Reason): set<Path> {
    set path | path in paths && policy.classify(path) == Some(reason)
  }

  /** The paths seen are those decoded, and the eligible ones among them are listed once each. */
  ghost predicate PathsTallied(policy: Policy, records: seq<Bytes>, t: Tally) {
    && t.seen == Decoded(policy, records)
    && (forall i, j :: 0 <= i < j < |t.eligible| ==> t.eligible[i] != t.eligible[j])
    && (forall path :: path in t.eligible <==> path in t.seen && policy.classify(path).None?)
  }

  /** Every other path is counted under its reason once, every undecodable record is counted, and nothing else is. */
  ghost predicate ReasonsTallied(policy: Policy, undecodable: nat, t: Tally) {
    && (forall reason :: t.excluded[reason] == |Refused(policy, t.seen, reason)|
                                             + if reason == InvalidUtf8Name then undecodable else 0)
    && |t.eligible| + |t.excluded| == |t.seen| + undecodable
  }

  ghost predicate Tallied(policy: Policy, records: seq<Bytes>, t: Tally) {
    PathsTallied(policy, records, t) && ReasonsTallied(policy, Undecodable(policy, records), t)
  }

  lemma {:induction false} TallyIsExact(policy: Policy, records: seq<Bytes>)
    ensures Tallied(policy, records, CountAll(policy, NOTHING, records))
    decreases |records|
  {
    hide Tallied, Count;
    if records == [] {
      NothingTallied(policy);
    } else {
      var front, last := records[..|records| - 1], records[|records| - 1];
      TallyIsExact(policy, front);
      assert records == front + [last];
      CountTallied(policy, front, CountAll(policy, NOTHING, front), last);
    }
  }

  lemma NothingTallied(policy: Policy)
    ensures Tallied(policy, [], NOTHING)
  {
    forall reason ensures Refused(policy, {}, reason) == {} {}
  }

  lemma DecodedAppend(policy: Policy, front: seq<Bytes>, last: Bytes)
    ensures Decoded(policy, front + [last])
         == Decoded(policy, front) + if last != [] && policy.decode(last).Some? then {policy.decode(last).value} else {}
    ensures Undecodable(policy, front + [last])
         == Undecodable(policy, front) + if last != [] && policy.decode(last).None? then 1 else 0
  {
    var records := front + [last];
    assert records[..|front|] == front;
    assert last in records && forall record <- front :: record in records;
  }

  lemma RefusedAdd(policy: Policy, paths: set<Path>, path: Path, reason: Reason)
    requires path !in paths
    ensures |Refused(policy, paths + {path}, reason)|
         == |Refused(policy, paths, reason)| + if policy.classify(path) == Some(reason) then 1 else 0
  {
    assert Refused(policy, paths + {path}, reason)
        == Refused(policy, paths, reason) + if policy.classify(path) == Some(reason) then {path} else {};
  }

  lemma CountTallied(policy: Policy, front: seq<Bytes>, t: Tally, last: Bytes)
    requires Tallied(policy, front, t)
    ensures Tallied(policy, front + [last], Count(policy, t, last))
  {
    CountsPaths(policy, front, t, last);
    CountsReasons(policy, front, t, last);
  }

  lemma CountsPaths(policy: Policy, front: seq<Bytes>, t: Tally, last: Bytes)
    requires PathsTallied(policy, front, t)
    ensures PathsTallied(policy, front + [last], Count(policy, t, last))
  {
    hide Decoded, Undecodable;
    DecodedAppend(policy, front, last);
  }

  lemma CountsReasons(policy: Policy, front: seq<Bytes>, t: Tally, last: Bytes)
    requires ReasonsTallied(policy, Undecodable(policy, front), t)
    ensures ReasonsTallied(policy, Undecodable(policy, front + [last]), Count(policy, t, last))
  {
    hide Decoded, Undecodable, Refused, ReasonsTallied;
    DecodedAppend(policy, front, last);
    if last != [] && policy.decode(last).None? {
      CountsUndecodable(policy, Undecodable(policy, front), t);
    } else if last != [] && policy.decode(last).value !in t.seen {
      CountsNewPath(policy, Undecodable(policy, front), t, policy.decode(last).value);
    }
  }

  lemma CountsUndecodable(policy: Policy, undecodable: nat, t: Tally)
    requires ReasonsTallied(policy, undecodable, t)
    ensures ReasonsTallied(policy, undecodable + 1, t.(excluded := t.excluded + multiset{InvalidUtf8Name}))
  {
    hide Refused;
  }

  lemma CountsNewPath(policy: Policy, undecodable: nat, t: Tally, path: Path)
    requires ReasonsTallied(policy, undecodable, t) && path !in t.seen
    ensures var seen := t.(seen := t.seen + {path});
            ReasonsTallied(policy, undecodable,
              match policy.classify(path)
              case Some(reason) => seen.(excluded := t.excluded + multiset{reason})
              case None => seen.(eligible := t.eligible + [path]))
  {
    hide Refused;
    assert |t.seen + {path}| == |t.seen| + 1;
    forall reason
      ensures |Refused(policy, t.seen + {path}, reason)|
           == |Refused(policy, t.seen, reason)| + if policy.classify(path) == Some(reason) then 1 else 0
    {
      RefusedAdd(policy, t.seen, path, reason);
    }
  }

  function TallyOf(policy: Policy, stream: Bytes): Tally {
    CountAll(policy, NOTHING, Records(stream))
  }

  lemma TallyResumes(policy: Policy, a: Bytes, b: Bytes)
    ensures TallyOf(policy, a + b) == CountAll(policy, TallyOf(policy, a), Records(Rest(a) + b))
    ensures Rest(a + b) == Rest(Rest(a) + b)
  {
    RecordsResume(a, b);
    CountAllAppend(policy, NOTHING, Records(a), Records(Rest(a) + b));
  }

  predicate OverBudget(policy: Policy, stream: Bytes) {
    |stream| > ENUMERATION_STDOUT_LIMIT || |TallyOf(policy, stream).eligible| > policy.maxFiles
  }

  lemma OverBudgetGrows(policy: Policy, a: Bytes, b: Bytes)
    requires OverBudget(policy, a)
    ensures OverBudget(policy, a + b)
  {
    TallyResumes(policy, a, b);
    EligibleGrows(policy, TallyOf(policy, a), Records(Rest(a) + b));
  }

  // ---- The events of the child process ---------------------------------------------------------

  /** Output of the child, or an abort, timeout or other request to stop. */
  datatype Event = Data(chunk: Bytes) | Interrupt(error: SourceError)

  /** The bytes that arrive before the first interrupt. */
  function DataBefore(events: seq<Event>): Bytes {
    if events == [] || events[0].Interrupt? then [] else events[0].chunk + DataBefore(events[1..])
  }

  function FirstInterrupt(events: seq<Event>): Option<SourceError> {
    if events == [] then None
    else if events[0].Interrupt? then Some(events[0].error)
    else FirstInterrupt(events[1..])
  }

  /** Chunks arrive one after the other, and nothing counts that comes after an interrupt. */
  lemma {:induction false} NothingAfterAnInterrupt(chunks: seq<Event>, chunk: Bytes, error: SourceError, rest: seq<Event>)
    requires forall e <- chunks :: e.Data?
    ensures DataBefore(chunks + [Data(chunk)]) == DataBefore(chunks) + chunk && FirstInterrupt(chunks) == None
    ensures DataBefore(chunks + [Interrupt(error)] + rest) == DataBefore(chunks)
    ensures FirstInterrupt(chunks + [Interrupt(error)] + rest) == Some(error)
    decreases chunks
  {
    if chunks == [] {
      assert DataBefore([Data(chunk)]) == chunk + DataBefore([]);
      assert [Data(chunk)][1..] == [];
      assert chunks + [Data(chunk)] == [Data(chunk)];
    } else {
      assert chunks[0] in chunks && chunks[0].Data?;
      assert (chunks + [Data(chunk)])[1..] == chunks[1..] + [Data(chunk)];
      assert (chunks + [Interrupt(error)] + rest)[1..] == chunks[1..] + [Interrupt(error)] + rest;
      NothingAfterAnInterrupt(chunks[1..], chunk, error, rest);
      assert DataBefore(chunks) == chunks[0].chunk + DataBefore(chunks[1..]);
      assert chunks[0].chunk + (DataBefore(chunks[1..]) + chunk) == DataBefore(chunks) + chunk;
    }
  }

  /** The outcome of an enumeration: a function of the whole stream, never of how it was cut. */
  function Enumerated(policy: Policy, stream: Bytes, interrupt: Option<SourceError>, code: int): Result<Tally, SourceError> {
    if OverBudget(policy, stream) then Err(BudgetExceeded)
    else if interrupt.Some? then Err(interrupt.value)
    else if code != 0 || Rest(stream) != [] then Err(SourceUnavailable)
    else Ok(TallyOf(policy, stream))
  }

  class Enumerator {
    const policy: Policy
    var totalBytes: nat
    var pending: Bytes
    var seen: set<Path>
    var eligible: seq<Path>
    var excluded: multiset<Reason>
    var stopReason: Option<SourceError>

    function Counted(): Tally
      reads this
    {
      Tally(seen, eligible, excluded)
    }

    /** The state after the bytes of `stream`; once stopped, only the reason matters. */
    ghost predicate Received(stream: Bytes)
      reads this
    {
      if stopReason.Some? then stopReason == Some(BudgetExceeded) && OverBudget(policy, stream)
      else
        && !OverBudget(policy, stream)
        && totalBytes == |stream| && pending == Rest(stream) && Counted() == TallyOf(policy, stream)
    }

    constructor (policy: Policy)
      ensures this.policy == policy && Received([]) && stopReason == None
    {
      this.policy := policy;
      totalBytes, pending, seen, eligible, excluded, stopReason := 0, [], {}, [], multiset{}, None;
    }

    method RequestStop(error: SourceError)
      modifies `stopReason
      ensures stopReason == if old(stopReason).Some? then old(stopReason) else Some(error)
    {
      if stopReason.None? { stopReason := Some(error); }
    }

    method CountRecord(record: Bytes)
      modifies `seen, `eligible, `excluded, `stopReason
      ensures Counted() == Count(policy, old(Counted()), record)
      ensures stopReason == if old(stopReason).None? && |eligible| > policy.maxFiles && |eligible| > |old(eligible)| then Some(BudgetExceeded)
                            else old(stopReason)
    {
      if record == [] { return; }
      var decoded := policy.decode(record);
      if decoded.None? {
        excluded := excluded + multiset{InvalidUtf8Name};
        return;
      }
      var relPath := decoded.value;
      if relPath in seen { return; }
      seen := seen + {relPath};
      var reason := policy.classify(relPath);
      if reason.Some? {
        excluded := excluded + multiset{reason.value};
        return;
      }
      eligible := eligible + [relPath];
      if |eligible| > policy.maxFiles { RequestStop(BudgetExceeded); }
    }

    /** Counts the completed records of `pending` and keeps the unfinished one. */
    method TakeRecords()
      requires stopReason == None && |eligible| <= policy.maxFiles
      modifies `pending, `seen, `eligible, `excluded, `stopReason
      ensures var all := CountAll(policy, old(Counted()), Records(old(pending)));
              if |all.eligible| > policy.maxFiles then stopReason == Some(BudgetExceeded)
              else stopReason == None && Counted() == all && pending == Rest(old(pending))
    {
      hide Count, CountAll, Records, Rest, Scanned;
      ghost var before := Counted();
      ScanStart(policy, before, pending);
      var start, index := 0, 0;
      while index < |pending|
        invariant 0 <= start <= index <= |pending| && pending == old(pending)
        invariant stopReason == None && |eligible| <= policy.maxFiles
        invariant Scanned(policy, before, pending, start, index, Counted())
      {
        if pending[index] == 0 {
          ScanRecord(policy, before, pending, start, index, Counted());
          CountRecord(pending[start..index]);
          start := index + 1;
          if stopReason.Some? {
            StoppedIsOverBudget(policy, before, pending, start, Counted());
            return;
          }
        } else {
          ScanByte(policy, before, pending, start, index, Counted());
        }
        index := index + 1;
      }
      ScanEnd(policy, before, pending, start, Counted());
      pending := pending[start..];
    }

    /** A chunk of output. */
    method OnData(chunk: Bytes, ghost stream: Bytes)
      requires Received(stream)
      modifies this
      ensures Received(stream + chunk)
    {
      hide CountAll, Records, Rest;
      if stopReason.Some? {
        OverBudgetGrows(policy, stream, chunk);
        return;
      }
      totalBytes := totalBytes + |chunk|;
      if totalBytes > ENUMERATION_STDOUT_LIMIT {
        RequestStop(BudgetExceeded);
        return;
      }
      TallyResumes(policy, stream, chunk);
      pending := if pending == [] then chunk else pending + chunk;
      assert pending == Rest(stream) + chunk;
      TakeRecords();
    }

    method OnClose(code: int) returns (result: Result<Tally, SourceError>)
      ensures result == if stopReason.Some? then Err(stopReason.value)
                        else if code != 0 || pending != [] then Err(SourceUnavailable)
                        else Ok(Counted())
    {
      if stopReason.Some? { return Err(stopReason.value); }
      if code != 0 { return Err(SourceUnavailable); }
      if |pending| > 0 { return Err(SourceUnavailable); }
      result := Ok(Tally(seen, eligible, excluded));
    }
  }

  /** The first `index` bytes are counted, and the record that begins at `start` is unfinished. */
  ghost predicate Scanned(policy: Policy, before: Tally, pending: Bytes, start: nat, index: nat, now: Tally) {
    && start <= index <= |pending| && now == CountAll(policy, before, Records(pending[..index]))
    && pending[start..index] == Rest(pending[..index])
  }

  lemma ScanStart(policy: Policy, before: Tally, pending: Bytes)
    ensures Scanned(policy, before, pending, 0, 0, before)
  {
  }

  lemma ScanByte(policy: Policy, before: Tally, pending: Bytes, start: nat, index: nat, now: Tally)
    requires Scanned(policy, before, pending, start, index, now) && index < |pending| && pending[index] != 0
    ensures Scanned(policy, before, pending, start, index + 1, now)
  {
    assert pending[..index + 1][..index] == pending[..index];
    assert pending[start..index + 1] == pending[start..index] + [pending[index]];
  }

  lemma ScanRecord(policy: Policy, before: Tally, pending: Bytes, start: nat, index: nat, now: Tally)
    requires Scanned(policy, before, pending, start, index, now) && index < |pending| && pending[index] == 0
    ensures Scanned(policy, before, pending, index + 1, index + 1, Count(policy, now, pending[start..index]))
  {
    hide Count;
    var records, record := Records(pending[..index]), pending[start..index];
    assert pending[..index + 1][..index] == pending[..index];
    assert (records + [record])[..|records|] == records;
    assert pending[index + 1..index + 1] == [];
  }

  lemma ScanEnd(policy: Policy, before: Tally, pending: Bytes, start: nat, now: Tally)
    requires Scanned(policy, before, pending, start, |pending|, now)
    ensures now == CountAll(policy, before, Records(pending)) && pending[start..] == Rest(pending)
  {
    assert pending[..|pending|] == pending;
  }

  lemma StoppedIsOverBudget(policy: Policy, before: Tally, pending: Bytes, index: nat, now: Tally)
    requires Scanned(policy, before, pending, index, index, now) && |now.eligible| > policy.maxFiles
    ensures |CountAll(policy, before, Records(pending)).eligible| > policy.maxFiles
  {
    var a, b := pending[..index], pending[index..];
    assert pending == a + b;
    RecordsResume(a, b);
    CountAllAppend(policy, before, Records(a), Records(Rest(a) + b));
    EligibleGrows(policy, CountAll(policy, before, Records(a)), Records(Rest(a) + b));
  }

  lemma NextData(events: seq<Event>, stream: Bytes, i: nat)
    requires i < |events| && events[i].Data? && DataBefore(events) == stream + DataBefore(events[i..])
    ensures DataBefore(events) == stream + events[i].chunk + DataBefore(events[i + 1..])
    ensures FirstInterrupt(events[i..]) == FirstInterrupt(events[i + 1..])
  {
    assert events[i..][1..] == events[i + 1..];
  }

  lemma NoMoreData(events: seq<Event>, stream: Bytes, i: nat)
    requires i <= |events| && (i < |events| ==> events[i].Interrupt?) && DataBefore(events) == stream + DataBefore(events[i..])
    ensures DataBefore(events) == stream
    ensures FirstInterrupt(events[i..]) == if i < |events| then Some(events[i].error) else None
  {
    assert stream + [] == stream;
  }

  /** Enumeration does not depend on how the output is cut into chunks. */
  method EnumerateTrackedPaths(policy: Policy, events: seq<Event>, code: int) returns (result: Result<Tally, SourceError>)
    ensures result == Enumerated(policy, DataBefore(events), FirstInterrupt(events), code)
  {
    hide Rest, Records, CountAll, OverBudget, DataBefore, FirstInterrupt;
    var enumerator := new Enumerator(policy);
    ghost var stream: Bytes := [];
    var i := 0;
    assert events[0..] == events;
    while i < |events| && events[i].Data?
      invariant 0 <= i <= |events| && enumerator.policy == policy && enumerator.Received(stream)
      invariant DataBefore(events) == stream + DataBefore(events[i..])
      invariant FirstInterrupt(events) == FirstInterrupt(events[i..])
    {
      NextData(events, stream, i);
      enumerator.OnData(events[i].chunk, stream);
      stream := stream + events[i].chunk;
      i := i + 1;
    }
    NoMoreData(events, stream, i);
    if i < |events| {
      enumerator.RequestStop(events[i].error);
    }
    result := enumerator.OnClose(code);
  }

  /** The distinct paths a stream names that the policy does not refuse. */
  ghost function Admitted(policy: Policy, stream: Bytes): set<Path> {
    set path | path in Decoded(policy, Records(stream)) && policy.classify(path).None?
  }

  lemma {:induction false} ListedSize(s: seq<Path>, paths: set<Path>)
    requires forall i, j :: 0 <= i < j < |s| ==> s[i] != s[j]
    requires forall p :: p in s <==> p in paths
    ensures |s| == |paths|
    decreases |s|
  {
    if s == [] {
      assert paths == {};
    } else {
      var front, last := s[..|s| - 1], s[|s| - 1];
      assert s == front + [last];
      ListedSize(front, paths - {last});
    }
  }

  /**
   An enumeration succeeds exactly for at most 16 MiB of whole records, few enough admitted paths, no interrupt and
   exit code zero, and then lists the admitted paths. Sizes come before interrupts, and interrupts before exit codes.
   */
  lemma EnumerationOutcome(policy: Policy, stream: Bytes, interrupt: Option<SourceError>, code: int)
    ensures var result := Enumerated(policy, stream, interrupt, code);
            if |stream| > 16777216 || |Admitted(policy, stream)| > policy.maxFiles then result == Err(BudgetExceeded)
            else if interrupt.Some? then result == Err(interrupt.value)
            else if code != 0 || Terminated(Records(stream)) != stream then result == Err(SourceUnavailable)
            else result.Ok? && Tallied(policy, Records(stream), result.value)
                 && forall path :: path in result.value.eligible <==> path in Admitted(policy, stream)
  {
    var t := TallyOf(policy, stream);
    TallyIsExact(policy, Records(stream));
    RecordsRestoreStream(stream);
    hide Terminated, Records, CountAll, Decoded, Undecodable, Rest;
    ListedSize(t.eligible, Admitted(policy, stream));
    assert Rest(stream) == [] <==> Terminated(Records(stream)) == stream;
  }
}
