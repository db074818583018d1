/**
 The refill loop of a search: ever wider windows over base and overlay until enough validated hits are found, the
 sources run dry, or a limit is reached.
 */
module Search {
  import opened Wrappers
  import opened Contracts
  import opened Fusion
  import opened Retrieval

  const MAX_LIMIT := 20

  datatype SearchError = InvalidQuery

  /** `window` is the window of the last round. */
  datatype Outcome = Outcome(hits: seq<SearchHit>, candidateLimitReached: bool, progress: Progress, window: nat)

  function Prefix<T>(s: seq<T>, limit: nat): (r: seq<T>)
    ensures r <= s && |r| == Min(|s|, limit)
  {
    if |s| <= limit then s else s[..limit]
  }

  /** One round per window until a round ends the search. */
  function Refill(s: Session, limit: nat, windows: seq<nat>, p: Progress): Outcome
    requires windows != []
  {
    var window, fused := windows[0], Candidates(s, windows[0]);
    var q := VisitAll(s, p, fused);
    var hits := Prefix(Show(s, q.cache, fused), limit);
    if |hits| >= limit || !Saturated(s, window) then Outcome(hits, q.exhausted, q, window)
    else if |windows| == 1 then Outcome(hits, true, q, window)
    else Refill(s, limit, windows[1..], q)
  }

  function Searched(s: Session, limit: int): Result<Outcome, SearchError> {
    if limit < 1 || limit > MAX_LIMIT then Err(InvalidQuery)
    else
      WindowsIncrease(limit);
      Ok(Refill(s, limit, CandidateWindows(limit), START))
  }

  // ---- The imperative search -------------------------------------------------------------------

  /** The variables one query shares between its rounds. */
  class Query {
    const session: Session
    var readCache: map<Path, Option<Bytes>>
    var attemptedFiles: set<Path>
    var staleCounted: set<string>
    var omittedCounted: set<string>
    var bytesBudget: nat
    var staleHits: nat
    var omittedHits: nat
    var budgetExhausted: bool

    function State(): Progress
      reads this
    {
      Progress(readCache, attemptedFiles, staleCounted, omittedCounted, bytesBudget, staleHits, omittedHits, budgetExhausted)
    }

    ghost predicate Valid()
      reads this
    {
      ReadsOk(session, State())
    }

    constructor (session: Session)
      ensures this.session == session && State() == START && Valid()
    {
      this.session := session;
      readCache, attemptedFiles, staleCounted, omittedCounted := map[], {}, {}, {};
      bytesBudget, staleHits, omittedHits, budgetExhausted := 0, 0, 0, false;
      new;
      StartReads(session);
    }

    /** Reads a path of the manifest that has not come up before in this query. */
    method ReadFile(path: Path, identityKey: string) returns (read: Option<Bytes>)
      requires path in session.manifest
      modifies this
      ensures State() == ReadPath(session, old(State()), path, identityKey) && read == readCache[path]
    {
      read := None;
      if |attemptedFiles| >= MAX_EXCERPT_FILES {
        budgetExhausted := true;
      } else {
        attemptedFiles := attemptedFiles + {path};
        var captured := session.read(path);
        if captured.None? {
          CountStale(identityKey);
        } else if Sha256(captured.value) != session.manifest[path].hash {
          CountStale(identityKey);
        } else if bytesBudget + |captured.value| > MAX_EXCERPT_BYTES {
          budgetExhausted := true;
        } else {
          bytesBudget := bytesBudget + |captured.value|;
          read := captured;
        }
      }
      readCache := readCache[path := read];
    }

    method CountStale(identityKey: string)
      modifies `staleCounted, `staleHits
      ensures State() == MarkStale(old(State()), identityKey)
    {
      if identityKey !in staleCounted {
        staleCounted := staleCounted + {identityKey};
        staleHits := staleHits + 1;
      }
    }

    /** The contents a candidate is shown from; `None` when it is counted as stale or omitted instead. */
    method ValidateCandidate(candidate: Hit) returns (read: Option<Bytes>)
      modifies this
      ensures State() == Visit(session, old(State()), candidate)
      ensures read == if candidate.path in session.manifest then readCache[candidate.path] else None
    {
      hide ReadPath, HitIdentity;
      var identityKey := HitIdentity(candidate);
      if candidate.path !in session.manifest {
        if identityKey !in staleCounted {
          staleCounted := staleCounted + {identityKey};
          staleHits := staleHits + 1;
          omittedHits := omittedHits + 1;
        }
        return None;
      }
      if candidate.path in readCache {
        read := readCache[candidate.path];
      } else {
        read := ReadFile(candidate.path, identityKey);
      }
      if read.None? && identityKey !in omittedCounted {
        omittedCounted := omittedCounted + {identityKey};
        omittedHits := omittedHits + 1;
      }
    }

    /** Validates the fused candidates of one round in order. */
    method ValidateRound(fused: seq<Hit>) returns (ordered: seq<SearchHit>)
      requires Valid()
      modifies this
      ensures Valid() && State() == VisitAll(session, old(State()), fused)
      ensures ordered == Show(session, readCache, fused)
    {
      hide ReadsOk, ReadPath, HitIdentity, Shown, Visit;
      ordered := [];
      ghost var before := State();
      for i := 0 to |fused|
        invariant Valid() && State() == VisitAll(session, before, fused[..i])
        invariant ordered == Show(session, readCache, fused[..i])
      {
        var candidate := fused[i];
        assert fused[..i + 1] == fused[..i] + [candidate];
        RoundKeeps(session, before, fused[..i], candidate);
        VisitedIsCached(session, State(), candidate);
        var read := ValidateCandidate(candidate);
        if read.Some? {
          ordered := ordered + [Shown(session, read.value, candidate)];
        }
        assert fused[..i + 1][..i] == fused[..i];
      }
      assert fused[..|fused|] == fused;
    }
  }

  lemma VisitedIsCached(s: Session, p: Progress, candidate: Hit)
    ensures candidate.path in s.manifest ==> candidate.path in Visit(s, p, candidate).cache
  {
  }

  // ---- Candidates ------------------------------------------------------------------------------

  method CollectHits(s: Session, source: Source, raw: seq<Hit>) returns (collected: seq<Hit>)
    ensures collected == Collect(s, source, raw)
  {
    hide HitIdentity;
    collected := [];
    var seen: set<string> := {};
    for i := 0 to |raw|
      invariant collected == Collect(s, source, raw[..i]) && seen == Identities(collected)
    {
      assert raw[..i + 1][..i] == raw[..i];
      var hit := raw[i];
      if source.isBase && hit.path in s.tombstones { continue; }
      var id := HitIdentity(hit);
      if id in seen { continue; }
      ghost var before := collected;
      seen := seen + {id};
      collected := collected + [hit];
      IdentitiesAppend(before, hit);
    }
    assert raw[..|raw|] == raw;
  }

  lemma IdentitiesAppend(hits: seq<Hit>, hit: Hit)
    ensures Identities(hits + [hit]) == Identities(hits) + {HitIdentity(hit)}
  {
    hide HitIdentity;
    SameIdentities(hits);
    SameIdentities(hits + [hit]);
    assert HitIds(hits + [hit]) == HitIds(hits) + {HitIdentity(hit)};
  }

  /** Asks every source for a window and fuses what is left of the answers. */
  method GatherCandidates(s: Session, window: nat) returns (fused: seq<Hit>, anySaturated: bool)
    ensures fused == Candidates(s, window) && anySaturated == Saturated(s, window)
  {
    hide Collect, Fused, PerSource, TotalLength;
    anySaturated := false;
    var perSource: seq<seq<Hit>> := [];
    var total := 0;
    NoSources(s, window);
    for i := 0 to |s.sources|
      invariant perSource == PerSource(s, s.sources[..i], window) && total == TotalLength(perSource)
      invariant anySaturated <==> exists source <- s.sources[..i] :: |Window(source, window)| >= window
    {
      var source := s.sources[i];
      assert s.sources[..i + 1] == s.sources[..i] + [source];
      PerSourceNext(s, s.sources[..i], source, window);
      var raw := Window(source, window);
      if |raw| >= window { anySaturated := true; }
      var collected := CollectHits(s, source, raw);
      perSource := perSource + [collected];
      total := total + |collected|;
    }
    assert s.sources[..|s.sources|] == s.sources;
    fused := ReciprocalRankFuse(perSource, total);
  }

  lemma NoSources(s: Session, window: nat)
    ensures PerSource(s, s.sources[..0], window) == [] && TotalLength([]) == 0
  {
  }

  lemma PerSourceNext(s: Session, front: seq<Source>, source: Source, window: nat)
    ensures var lists, collected := PerSource(s, front, window), Collect(s, source, Window(source, window));
            PerSource(s, front + [source], window) == lists + [collected] && TotalLength(lists + [collected]) == TotalLength(lists) + |collected|
  {
    assert (front + [source])[..|front|] == front;
    var lists, collected := PerSource(s, front, window), Collect(s, source, Window(source, window));
    assert (lists + [collected])[..|lists|] == lists;
  }

  lemma StartReads(s: Session)
    ensures ReadsOk(s, START)
  {
    assert !SomeKeptOut(s, map[], {});
  }

  lemma RoundKeeps(s: Session, before: Progress, front: seq<Hit>, candidate: Hit)
    requires ReadsOk(s, VisitAll(s, before, front)) && ReadsOk(s, before)
    ensures var state := VisitAll(s, before, front);
            var after := Visit(s, state, candidate);
            && VisitAll(s, before, front + [candidate]) == after && ReadsOk(s, after)
            && Show(s, after.cache, front) == Show(s, state.cache, front)
  {
    hide ReadsOk, Visit;
    var state := VisitAll(s, before, front);
    assert (front + [candidate])[..|front|] == front;
    VisitReads(s, state, candidate);
    VisitAllReads(s, before, front);
    ShowStable(s, state.cache, Visit(s, state, candidate).cache, front);
  }

  method Search(s: Session, limit: int) returns (result: Result<Outcome, SearchError>)
    ensures result == Searched(s, limit)
    ensures result.Ok? <==> 1 <= limit <= 20
  {
    hide Candidates, VisitAll, Show, ReadsOk, CandidateWindows, Saturated;
    if limit < 1 || limit > MAX_LIMIT {
      return Err(InvalidQuery);
    }
    WindowsIncrease(limit);
    var windows := CandidateWindows(limit);
    var query := new Query(s);
    var index := 0;
    while true
      invariant 0 <= index < |windows| && query.session == s && query.Valid()
      invariant Searched(s, limit) == Ok(Refill(s, limit, windows[index..], query.State()))
      decreases |windows| - index
    {
      var window := windows[index];
      var isFinalWindow := index == |windows| - 1;
      var fused, anySaturated := GatherCandidates(s, window);
      var ordered := query.ValidateRound(fused);
      var hits := Prefix(ordered, limit);
      var candidateLimitReached := query.budgetExhausted;
      if |hits| >= limit || !anySaturated {
        return Ok(Outcome(hits, candidateLimitReached, query.State(), window));
      }
      if isFinalWindow {
        return Ok(Outcome(hits, true, query.State(), window));
      }
      assert windows[index..][1..] == windows[index + 1..];
      index := index + 1;
    }
  }
}
