/**
 What a finished search promises: where it stops, how its counters add up, that its hits are current, and when
 they are all there is.
 */
module SearchProperties {
  import opened Sets
  import opened Wrappers
  import opened Contracts
  import opened Fusion
  import opened Retrieval
  import opened Search
  import opened IndexRows
  import opened OverlayBuild
  import Manifest
  import Chunking

  // ---- Where a search stops --------------------------------------------------------------------

  /** Some source has at least as many hits as the window asks for. */
  ghost predicate Fills(s: Session, window: nat) {
    exists source <- s.sources :: |source.ranked| >= window
  }

  lemma SaturatedFills(s: Session, window: nat)
    ensures Saturated(s, window) <==> Fills(s, window)
  {
    forall source <- s.sources ensures |Window(source, window)| >= window <==> |source.ranked| >= window {}
  }

  /** What was read stays read. */
  ghost predicate Keeps(a: map<Path, Option<Bytes>>, b: map<Path, Option<Bytes>>) {
    forall path <- a :: path in b && b[path] == a[path]
  }

  lemma {:induction false} ShowsTheSame(s: Session, a: map<Path, Option<Bytes>>, b: map<Path, Option<Bytes>>, hits: seq<Hit>)
    requires Keeps(a, b) && HitPaths(hits) * s.manifest.Keys <= a.Keys
    ensures Show(s, a, hits) == Show(s, b, hits)
    decreases |hits|
  {
    hide Shown;
    if hits != [] {
      var front, last := hits[..|hits| - 1], hits[|hits| - 1];
      assert hits == front + [last];
      assert last.path in HitPaths(hits) && HitPaths(front) <= HitPaths(hits);
      ShowsTheSame(s, a, b, front);
    }
  }

  /** Every narrower window was filled by some source and still left the answer short. */
  ghost predicate NarrowerFellShort(s: Session, limit: nat, o: Outcome, windows: seq<nat>) {
    forall w <- windows | w < o.window :: Fills(s, w) && |Show(s, o.progress.cache, Candidates(s, w))| < limit
  }

  lemma {:induction false} RefillStops(s: Session, limit: nat, windows: seq<nat>, p: Progress, visited: seq<Hit>)
    requires windows != [] && forall i, j :: 0 <= i < j < |windows| ==> windows[i] < windows[j]
    requires ReadsOk(s, p) && CountsOk(s, p, visited) && HitIds(visited) <= HitIds(Candidates(s, windows[0]))
    ensures var o := Refill(s, limit, windows, p);
            && o.window in windows && Keeps(p.cache, o.progress.cache)
            && Ended(s, limit, o, windows[|windows| - 1]) && NarrowerFellShort(s, limit, o, windows)
    decreases |windows|
  {
    hide ReadsOk, CountsOk, HitIds, Candidates, VisitAll, Show, Saturated, HitPaths, Fills;
    var fused := Candidates(s, windows[0]);
    var q := VisitAll(s, p, fused);
    VisitAllReads(s, p, fused);
    VisitAllCounts(s, p, visited, fused);
    IdsAppend(visited, fused);
    CountsOfIdentities(s, q, visited + fused, fused);
    SaturatedFills(s, windows[0]);
    if |Prefix(Show(s, q.cache, fused), limit)| < limit && Saturated(s, windows[0]) && |windows| > 1 {
      CandidatesGrow(s, windows[0], windows[1]);
      RefillStops(s, limit, windows[1..], q, fused);
      ShowsTheSame(s, q.cache, Refill(s, limit, windows[1..], q).progress.cache, fused);
    }
  }

  lemma IdsAppend(a: seq<Hit>, b: seq<Hit>)
    ensures HitIds(a + b) == HitIds(a) + HitIds(b)
  {
    hide HitIdentity;
  }

  /** The state and the flag a search ends with, in terms of the candidates of its last window. */
  ghost predicate Ended(s: Session, limit: nat, o: Outcome, last: nat) {
    var fused := Candidates(s, o.window);
    && ReadsOk(s, o.progress) && CountsOk(s, o.progress, fused)
    && o.hits == Prefix(Show(s, o.progress.cache, fused), limit)
    && (|o.hits| < limit && Fills(s, o.window) ==> o.window == last)
    && (o.candidateLimitReached <==> o.progress.exhausted || (|o.hits| < limit && Fills(s, o.window)))
  }

  /**
   A search ends after the first window that filled the limit or that no source could fill, or else after that of 160;
   the flag is set exactly when a budget kept a file out or the hits stayed short although a source filled that window.
   */
  lemma SearchStops(s: Session, limit: int)
    requires 1 <= limit <= MAX_LIMIT
    ensures Searched(s, limit).Ok?
    ensures var o := Searched(s, limit).value;
            && o.window in CandidateWindows(limit) && o.window <= CANDIDATE_CAP_PER_SOURCE
            && Ended(s, limit, o, CANDIDATE_CAP_PER_SOURCE)
            && NarrowerFellShort(s, limit, o, CandidateWindows(limit))
  {
    hide CandidateWindows, Refill, Ended, ReadsOk, CountsOk, HitIds, Candidates, NarrowerFellShort, Show;
    WindowsIncrease(limit);
    StartReads(s);
    NothingCounted(s, CandidateWindows(limit)[0]);
    RefillStops(s, limit, CandidateWindows(limit), START, []);
    var windows, o := CandidateWindows(limit), Searched(s, limit).value;
    var i :| 0 <= i < |windows| && windows[i] == o.window;
    assert i < |windows| - 1 ==> windows[i] < windows[|windows| - 1];
  }

  lemma NothingCounted(s: Session, window: nat)
    ensures CountsOk(s, START, []) && HitIds([]) <= HitIds(Candidates(s, window))
  {
    assert StalePaths(s, {}) == {};
  }

  // ---- Accounting ------------------------------------------------------------------------------

  /**
   Over all rounds, every candidate of the last round is eligible or counted as omitted, exactly once; stale
   candidates are omitted ones, one for each unknown identity and one for each attempted file that changed.
   */
  lemma SearchAccounting(s: Session, limit: int)
    requires 1 <= limit <= MAX_LIMIT
    ensures var o := Searched(s, limit).value;
            var fused := Candidates(s, o.window);
            && |Show(s, o.progress.cache, fused)| + o.progress.omittedHits == |fused|
            && o.progress.staleHits <= o.progress.omittedHits
            && o.progress.staleHits == |Gone(s, fused)| + |StalePaths(s, o.progress.attempted)|
            && |o.progress.attempted| <= MAX_EXCERPT_FILES
            && Kept(o.progress.cache) <= MAX_EXCERPT_BYTES
  {
    SearchStops(s, limit);
    hide Searched, Candidates, Show, Gone, StalePaths, Unreadable, HitPaths, Kept, SomeKeptOut, Current;
    var o := Searched(s, limit).value;
    var fused := Candidates(s, o.window);
    CandidatesOffer(s, o.window);
    ShownOrOmitted(s, o.progress.cache, fused);
    SubsetSize(o.progress.stale, Gone(s, fused) + o.progress.omitted);
  }

  // ---- Hits ------------------------------------------------------------------------------------

  ghost predicate SamePlace(hit: SearchHit, h: Hit) {
    hit.path == h.path && hit.startLine == h.startLine && hit.endLine == h.endLine
  }

  /** The hit names lines that a source offered, and shows them as the file has them. */
  ghost predicate ShowsCurrentFile(s: Session, hit: SearchHit) {
    && Current(s, hit.path)
    && hit.fileHash == s.manifest[hit.path].hash
    && hit.excerpt == Chunking.ExcerptLines(s.decode(s.read(hit.path).value), hit.startLine, hit.endLine)
  }

  lemma {:induction false} ShowFrom(s: Session, p: Progress, hits: seq<Hit>)
    requires ReadsOk(s, p)
    ensures forall hit <- Show(s, p.cache, hits) :: ShowsCurrentFile(s, hit) && exists h <- hits :: SamePlace(hit, h)
    ensures forall h <- hits :: Readable(s, p.cache, h.path) ==> exists hit <- Show(s, p.cache, hits) :: SamePlace(hit, h)
    decreases |hits|
  {
    hide ReadsOk, ShowsCurrentFile;
    if hits != [] {
      var front, last := hits[..|hits| - 1], hits[|hits| - 1];
      assert hits == front + [last];
      ShowFrom(s, p, front);
      if Readable(s, p.cache, last.path) {
        ReadableShows(s, p, last);
        var shown := Shown(s, p.cache[last.path].value, last);
        assert Show(s, p.cache, hits) == Show(s, p.cache, front) + [shown];
        assert SamePlace(shown, last) && last in hits && shown in Show(s, p.cache, hits);
      }
    }
  }

  lemma ReadableShows(s: Session, p: Progress, h: Hit)
    requires ReadsOk(s, p) && Readable(s, p.cache, h.path)
    ensures p.cache[h.path].Some? && ShowsCurrentFile(s, Shown(s, p.cache[h.path].value, h))
  {
  }

  /** Every hit, of every search, carries the manifest's hash and comes from a source without its tombstoned paths. */
  lemma HitsAreCurrent(s: Session, limit: int, hit: SearchHit)
    requires 1 <= limit <= MAX_LIMIT && hit in Searched(s, limit).value.hits
    ensures ShowsCurrentFile(s, hit)
    ensures exists source <- s.sources, h <- source.ranked :: !Dropped(s, source, h) && SamePlace(hit, h)
  {
    SearchStops(s, limit);
    var o := Searched(s, limit).value;
    var fused := Candidates(s, o.window);
    CandidatesOffer(s, o.window);
    ShowFrom(s, o.progress, fused);
    hide Searched, Candidates, Show, ReadsOk, CountsOk, HitIdentity, ShowsCurrentFile, Dropped;
    assert hit in Show(s, o.progress.cache, fused);
    var c :| c in fused && SamePlace(hit, c);
    assert HitIdentity(c) in Matching(s);
    var source, h :| source in s.sources && h in source.ranked && !Dropped(s, source, h) && HitIdentity(h) == HitIdentity(c);
    IdentityIsInjective(h, c);
  }

  lemma {:induction false} ShowKeepsOrder(s: Session, p: Progress, hits: seq<Hit>)
    requires ReadsOk(s, p) && DistinctHits(hits) && forall i, j :: 0 <= i < j < |hits| ==> hits[i].score >= hits[j].score
    ensures var shown := Show(s, p.cache, hits);
            && (forall hit <- shown :: exists h <- hits :: SamePlace(hit, h) && hit.score == h.score)
            && (forall i, j :: 0 <= i < j < |shown| ==> shown[i].score >= shown[j].score && !SameLines(shown[i], shown[j]))
    decreases |hits|
  {
    hide ReadsOk, HitIdentity;
    if hits != [] {
      var front, last := hits[..|hits| - 1], hits[|hits| - 1];
      ShowKeepsOrder(s, p, front);
      var before, after := Show(s, p.cache, front), Show(s, p.cache, hits);
      if Readable(s, p.cache, last.path) {
        var shown := Shown(s, p.cache[last.path].value, last);
        assert after == before + [shown] && SamePlace(shown, last);
        forall i | 0 <= i < |before| ensures before[i].score >= shown.score && !SameLines(before[i], shown) {
          var h :| h in front && SamePlace(before[i], h) && before[i].score == h.score;
          var k :| 0 <= k < |front| && hits[k] == h;
          IdentityIsInjective(h, last);
        }
      }
    }
  }

  ghost predicate SameLines(a: SearchHit, b: SearchHit) {
    a.path == b.path && a.startLine == b.startLine && a.endLine == b.endLine
  }

  /** At most `limit` hits, best score first, no lines twice. */
  lemma HitsAreRanked(s: Session, limit: int)
    requires 1 <= limit <= MAX_LIMIT
    ensures var hits := Searched(s, limit).value.hits;
            && |hits| <= limit
            && (forall i, j :: 0 <= i < j < |hits| ==> hits[i].score >= hits[j].score && !SameLines(hits[i], hits[j]))
  {
    hide *;
    EndedHits(s, limit);
    var o := Searched(s, limit).value;
    CandidatesRanked(s, o.window);
    ShowKeepsOrder(s, o.progress, Candidates(s, o.window));
  }

  lemma EndedHits(s: Session, limit: int)
    requires 1 <= limit <= MAX_LIMIT
    ensures Searched(s, limit).Ok?
    ensures var o := Searched(s, limit).value;
            && ReadsOk(s, o.progress) && |o.hits| <= limit && o.hits <= Show(s, o.progress.cache, Candidates(s, o.window))
  {
    SearchStops(s, limit);
  }

  lemma CandidatesRanked(s: Session, window: nat)
    ensures var fused := Candidates(s, window);
            DistinctHits(fused) && forall i, j :: 0 <= i < j < |fused| ==> fused[i].score >= fused[j].score
  {
    CandidatesOffer(s, window);
  }

  // ---- Completeness ----------------------------------------------------------------------------

  /**
   A search that returns fewer hits than asked for, without the flag, returns exactly the matching hits of the
   merged index whose file still has the hash of the manifest.
   */
  lemma SearchIsComplete(s: Session, limit: int, source: Source, h: Hit)
    requires 1 <= limit <= MAX_LIMIT
    requires |Searched(s, limit).value.hits| < limit && !Searched(s, limit).value.candidateLimitReached
    requires source in s.sources && h in source.ranked && !Dropped(s, source, h)
    ensures Current(s, h.path) <==> exists hit <- Searched(s, limit).value.hits :: SamePlace(hit, h)
  {
    SearchStops(s, limit);
    var o := Searched(s, limit).value;
    var fused := Candidates(s, o.window);
    CandidatesOffer(s, o.window);
    ShowFrom(s, o.progress, fused);
    hide Searched, Candidates, Show, CountsOk, HitIdentity, Saturated;
    assert o.hits == Show(s, o.progress.cache, fused);
    assert HitIdentity(h) in Matching(s);
    var c :| c in fused && HitIdentity(c) == HitIdentity(h);
    IdentityIsInjective(h, c);
    if Current(s, h.path) {
      CachedWhenCurrent(s, o.progress, fused, c);
      var hit :| hit in o.hits && SamePlace(hit, c);
    }
  }

  lemma CachedWhenCurrent(s: Session, p: Progress, hits: seq<Hit>, c: Hit)
    requires ReadsOk(s, p) && CountsOk(s, p, hits) && c in hits && Current(s, c.path) && !p.exhausted
    ensures Readable(s, p.cache, c.path)
  {
    assert c.path in HitPaths(hits);
    assert !KeptOut(s, p.cache, p.attempted, c.path);
  }

  // ---- The byte budget -------------------------------------------------------------------------

  /** Every file kept is one of the holders and within the reader's ceiling. */
  ghost predicate HeldBy(cache: map<Path, Option<Bytes>>, holders: set<Path>) {
    forall path <- cache :: cache[path].Some? ==> path in holders && |cache[path].value| <= 0x8_0000
  }

  lemma {:induction false} KeptWithin(cache: map<Path, Option<Bytes>>, holders: set<Path>)
    requires HeldBy(cache, holders)
    ensures Kept(cache) <= |holders| * 0x8_0000
    decreases |cache|
  {
    hide *;
    if cache == map[] {
      NothingKept();
    } else {
      var path :| path in cache;
      KeptRemove(cache, path);
      var rest := if cache[path].Some? then holders - {path} else holders;
      HeldByRest(cache, path, holders, rest);
      KeptWithin(cache - {path}, rest);
    }
  }

  lemma NothingKept()
    ensures Kept(map[]) == 0
  {
  }

  lemma HeldByRest(cache: map<Path, Option<Bytes>>, path: Path, holders: set<Path>, rest: set<Path>)
    requires path in cache && HeldBy(cache, holders)
    requires rest == if cache[path].Some? then holders - {path} else holders
    ensures HeldBy(cache - {path}, rest)
    ensures match cache[path]
            case None => rest == holders
            case Some(bytes) => |holders| == |rest| + 1 && |bytes| <= 0x8_0000
  {
  }

  lemma NeverPastTheByteBudget(s: Session, p: Progress, path: Path)
    requires ReadsOk(s, p) && path in p.attempted
    requires forall path :: s.read(path).Some? ==> |s.read(path).value| <= 0x8_0000
    ensures !KeptOut(s, p.cache, p.attempted, path)
  {
    hide Kept, SomeKeptOut;
    if p.cache[path].None? {
      KeptWithin(p.cache, p.attempted - {path});
      assert |p.attempted - {path}| == |p.attempted| - 1;
    }
  }

  lemma ExhaustedByFiles(s: Session, p: Progress)
    requires ReadsOk(s, p) && forall path <- p.attempted :: !KeptOut(s, p.cache, p.attempted, path)
    ensures p.exhausted <==> |p.cache| > MAX_EXCERPT_FILES
  {
    hide Kept, Current;
    assert |p.cache| == |p.cache.Keys|;
    if p.exhausted {
      var path :| KeptOut(s, p.cache, p.attempted, path);
      assert |p.attempted + {path}| == |p.attempted| + 1;
      SubsetSize(p.attempted + {path}, p.cache.Keys);
    } else {
      assert forall path <- p.cache :: !KeptOut(s, p.cache, p.attempted, path);
      SubsetSize(p.cache.Keys, p.attempted);
    }
  }

  /**
   Under the reader's ceiling of 512 KiB a file, 40 files fit in 20 MiB: the byte budget never stops a read, and
   the budget is exhausted exactly when the candidates lie in more than 40 indexed files.
   */
  lemma OnlyTheFileBudgetBinds(s: Session, limit: int)
    requires 1 <= limit <= MAX_LIMIT
    requires forall path :: s.read(path).Some? ==> |s.read(path).value| <= 0x8_0000
    ensures var o := Searched(s, limit).value;
            o.progress.exhausted <==> |HitPaths(Candidates(s, o.window)) * s.manifest.Keys| > MAX_EXCERPT_FILES
  {
    SearchStops(s, limit);
    hide Searched, Candidates, HitPaths, ReadsOk, KeptOut;
    var p := Searched(s, limit).value.progress;
    forall path <- p.attempted ensures !KeptOut(s, p.cache, p.attempted, path) {
      NeverPastTheByteBudget(s, p, path);
    }
    ExhaustedByFiles(s, p);
    assert |p.cache| == |p.cache.Keys|;
  }

  // ---- The answer of the merged index ----------------------------------------------------------

  ghost predicate RowHit(h: Hit, row: Row) {
    h.path == row.chunk.path && h.startLine == row.chunk.startLine && h.endLine == row.chunk.endLine
  }

  /** The source ranks only rows of its store that match. */
  ghost predicate RanksOnly(source: Source, index: map<string, Row>, matches: Row -> bool) {
    forall h <- source.ranked :: exists id <- index :: matches(index[id]) && RowHit(h, index[id])
  }

  /** The source ranks every row of its store that matches. */
  ghost predicate RanksAll(source: Source, index: map<string, Row>, matches: Row -> bool) {
    forall id <- index :: matches(index[id]) ==> exists h <- source.ranked :: RowHit(h, index[id])
  }

  /** Without tombstoned base paths, the sources rank only rows of the index that match. */
  ghost predicate OnlyMatching(s: Session, index: map<string, Row>, matches: Row -> bool) {
    forall source <- s.sources, h <- source.ranked :: !Dropped(s, source, h) ==>
      exists id <- index :: matches(index[id]) && RowHit(h, index[id])
  }

  /** Every matching row of the index is ranked by some source that is not told to drop it. */
  ghost predicate AllMatching(s: Session, index: map<string, Row>, matches: Row -> bool) {
    forall id <- index :: matches(index[id]) ==>
      exists source <- s.sources, h <- source.ranked :: !Dropped(s, source, h) && RowHit(h, index[id])
  }

  ghost predicate HitOfRow(hit: SearchHit, row: Row) {
    hit.path == row.chunk.path && hit.startLine == row.chunk.startLine && hit.endLine == row.chunk.endLine
  }

  predicate Unmodified(s: Session, files: map<Path, Bytes>, path: Path) {
    path in files && s.read(path) == Some(files[path])
  }

  ghost predicate Complete(s: Session, limit: int) {
    1 <= limit <= MAX_LIMIT && |Searched(s, limit).value.hits| < limit && !Searched(s, limit).value.candidateLimitReached
  }

  /** With an injective hash, a file has the manifest's hash exactly when it has the captured bytes. */
  lemma CurrentIsUnmodified(s: Session, t: Toolchain, files: map<Path, Bytes>, path: Path)
    requires s.manifest == ColdFiles(t, files)
    ensures Current(s, path) <==> Unmodified(s, files, path)
  {
    hide Chunks;
  }

  lemma CompleteHasHits(s: Session, limit: int)
    requires Complete(s, limit)
    ensures Searched(s, limit).Ok? && 1 <= limit <= MAX_LIMIT
  {
  }

  lemma MatchingRowIsFound(s: Session, limit: int, t: Toolchain, files: map<Path, Bytes>, matches: Row -> bool, id: string)
    requires Complete(s, limit) && s.manifest == ColdFiles(t, files) && AllMatching(s, ColdIndex(t, files), matches)
    requires id in ColdIndex(t, files) && matches(ColdIndex(t, files)[id])
    ensures var row := ColdIndex(t, files)[id];
            Unmodified(s, files, row.chunk.path) <==> exists hit <- Searched(s, limit).value.hits :: HitOfRow(hit, row)
  {
    SearchStops(s, limit);
    CurrentIsUnmodified(s, t, files, ColdIndex(t, files)[id].chunk.path);
    hide ColdIndex, Searched, Dropped, Ended, Current, Unmodified, ColdFiles;
    var hits, row := Searched(s, limit).value.hits, ColdIndex(t, files)[id];
    var source, h :| source in s.sources && h in source.ranked && !Dropped(s, source, h) && RowHit(h, row);
    SearchIsComplete(s, limit, source, h);
    assert forall hit <- hits :: SamePlace(hit, h) <==> HitOfRow(hit, row);
  }

  lemma FoundHitIsARow(s: Session, limit: int, index: map<string, Row>, matches: Row -> bool, hit: SearchHit)
    requires 1 <= limit <= MAX_LIMIT && hit in Searched(s, limit).value.hits && OnlyMatching(s, index, matches)
    ensures exists id <- index :: matches(index[id]) && HitOfRow(hit, index[id])
  {
    hide Searched, Dropped, ShowsCurrentFile;
    HitsAreCurrent(s, limit, hit);
    var source, h :| source in s.sources && h in source.ranked && !Dropped(s, source, h) && SamePlace(hit, h);
    var id :| id in index && matches(index[id]) && RowHit(h, index[id]);
    assert HitOfRow(hit, index[id]);
  }

  /** The session over a full generation: one source, nothing dropped. */
  lemma FullSourceAnswers(s: Session, index: map<string, Row>, matches: Row -> bool)
    requires |s.sources| == 1 && !s.sources[0].isBase
    ensures RanksOnly(s.sources[0], index, matches) ==> OnlyMatching(s, index, matches)
    ensures RanksAll(s.sources[0], index, matches) ==> AllMatching(s, index, matches)
  {
    var source := s.sources[0];
    hide RowHit;
    if RanksAll(source, index, matches) {
      forall id <- index | matches(index[id])
        ensures exists source <- s.sources, h <- source.ranked :: !Dropped(s, source, h) && RowHit(h, index[id])
      {
        var h :| h in source.ranked && RowHit(h, index[id]);
        assert source in s.sources && !Dropped(s, source, h);
      }
    }
  }

  /**
   A complete search over a full generation, whose one engine ranks exactly the matching rows, finds a matching row
   of the cold build exactly when the row's file still has the captured bytes, and finds nothing else.
   */
  lemma FullSearchAnswersTheColdBuild(s: Session, limit: int, t: Toolchain, snapshot: Snapshot, matches: Row -> bool, id: string, hit: SearchHit)
    requires s.manifest == ColdFiles(t, snapshot.files) && |s.sources| == 1 && !s.sources[0].isBase
    requires RanksOnly(s.sources[0], ColdIndex(t, snapshot.files), matches) && RanksAll(s.sources[0], ColdIndex(t, snapshot.files), matches)
    requires Complete(s, limit)
    ensures var index, hits := ColdIndex(t, snapshot.files), Searched(s, limit).value.hits;
            && (id in index && matches(index[id]) ==>
                  (Unmodified(s, snapshot.files, index[id].chunk.path) <==> exists hit <- hits :: HitOfRow(hit, index[id])))
            && (hit in hits ==> exists id <- index :: matches(index[id]) && HitOfRow(hit, index[id]))
  {
    hide *;
    var index := ColdIndex(t, snapshot.files);
    FullSourceAnswers(s, index, matches);
    CompleteHasHits(s, limit);
    if id in index && matches(index[id]) {
      MatchingRowIsFound(s, limit, t, snapshot.files, matches, id);
    }
    if hit in Searched(s, limit).value.hits {
      FoundHitIsARow(s, limit, index, matches, hit);
    }
  }

  /** The session over an overlay generation: its base without the tombstoned paths, then the overlay. */
  predicate OverlaySources(s: Session) {
    |s.sources| == 2 && s.sources[0].isBase && !s.sources[1].isBase
  }

  lemma OverlayRanksOnlyMatching(s: Session, base: map<string, Row>, overlay: map<string, Row>, matches: Row -> bool)
    requires OverlaySources(s) && RanksOnly(s.sources[0], base, matches) && RanksOnly(s.sources[1], overlay, matches)
    requires Outside(base, s.tombstones).Keys !! overlay.Keys
    ensures OnlyMatching(s, MergedIndex(base, s.tombstones, overlay), matches)
  {
    var merged := MergedIndex(base, s.tombstones, overlay);
    forall source <- s.sources, h <- source.ranked | !Dropped(s, source, h)
      ensures exists id <- merged :: matches(merged[id]) && RowHit(h, merged[id])
    {
      if source == s.sources[1] {
        var id :| id in overlay && matches(overlay[id]) && RowHit(h, overlay[id]);
        assert id in merged && merged[id] == overlay[id];
      } else {
        var id :| id in base && matches(base[id]) && RowHit(h, base[id]);
        assert id in Outside(base, s.tombstones);
        assert id in merged && merged[id] == base[id];
      }
    }
  }

  lemma OverlayRanksAllMatching(s: Session, base: map<string, Row>, overlay: map<string, Row>, matches: Row -> bool)
    requires OverlaySources(s) && RanksAll(s.sources[0], base, matches) && RanksAll(s.sources[1], overlay, matches)
    ensures AllMatching(s, MergedIndex(base, s.tombstones, overlay), matches)
  {
    var merged := MergedIndex(base, s.tombstones, overlay);
    forall id <- merged | matches(merged[id])
      ensures exists source <- s.sources, h <- source.ranked :: !Dropped(s, source, h) && RowHit(h, merged[id])
    {
      if id in overlay {
        var h :| h in s.sources[1].ranked && RowHit(h, overlay[id]);
        assert s.sources[1] in s.sources && !Dropped(s, s.sources[1], h);
      } else {
        var h :| h in s.sources[0].ranked && RowHit(h, base[id]);
        assert s.sources[0] in s.sources && !Dropped(s, s.sources[0], h);
      }
    }
  }

  /** The session searches a built overlay over its base, and each engine ranks exactly the matching rows of its store. */
  ghost predicate SearchesOverlay(s: Session, base: map<string, Row>, overlay: map<string, Row>, manifest: OverlayManifest, matches: Row -> bool) {
    && OverlaySources(s) && s.manifest == manifest.files && s.tombstones == Manifest.Members(manifest.tombstones)
    && RanksOnly(s.sources[0], base, matches) && RanksOnly(s.sources[1], overlay, matches)
    && RanksAll(s.sources[0], base, matches) && RanksAll(s.sources[1], overlay, matches)
  }

  lemma OverlaySearchMatches(s: Session, t: Toolchain, plan: OverlayPlan, before: Snapshot, snapshot: Snapshot, compatibility: Compatibility,
                             overlay: map<string, Row>, files: Option<FileManifest>, manifest: OverlayManifest, matches: Row -> bool)
    requires WellBehaved(t) && PlannedOver(plan, plan.baseId, ManifestOf(compatibility, ColdFiles(t, before.files)), snapshot)
    requires OverlayOutcome(t, plan, compatibility) == Ok(Store(Some(overlay), files, Some(manifest)))
    requires SearchesOverlay(s, ColdIndex(t, before.files), overlay, manifest, matches)
    ensures s.manifest == ColdFiles(t, snapshot.files)
    ensures OnlyMatching(s, ColdIndex(t, snapshot.files), matches) && AllMatching(s, ColdIndex(t, snapshot.files), matches)
  {
    hide ColdIndex, ColdFiles, OverlayOutcome, PlannedOver, RanksOnly, RanksAll, OnlyMatching, AllMatching, MergedIndex, Outside;
    MergedViewIsColdBuild(t, plan, ColdStore(t, compatibility, before), before, snapshot, compatibility);
    OverlayRanksOnlyMatching(s, ColdIndex(t, before.files), overlay, matches);
    OverlayRanksAllMatching(s, ColdIndex(t, before.files), overlay, matches);
  }

  /**
   A complete search over a built overlay and its base finds a matching row of the cold full build of the worktree
   exactly when the row's file still has the captured bytes, and finds nothing else.
   */
  lemma OverlaySearchAnswersTheColdBuild(s: Session, limit: int, t: Toolchain, plan: OverlayPlan, before: Snapshot, snapshot: Snapshot,
                                         compatibility: Compatibility, overlay: map<string, Row>, files: Option<FileManifest>,
                                         manifest: OverlayManifest, matches: Row -> bool, id: string, hit: SearchHit)
    requires WellBehaved(t) && PlannedOver(plan, plan.baseId, ManifestOf(compatibility, ColdFiles(t, before.files)), snapshot)
    requires OverlayOutcome(t, plan, compatibility) == Ok(Store(Some(overlay), files, Some(manifest)))
    requires SearchesOverlay(s, ColdIndex(t, before.files), overlay, manifest, matches)
    requires Complete(s, limit)
    ensures var index, hits := ColdIndex(t, snapshot.files), Searched(s, limit).value.hits;
            && (id in index && matches(index[id]) ==>
                  (Unmodified(s, snapshot.files, index[id].chunk.path) <==> exists hit <- hits :: HitOfRow(hit, index[id])))
            && (hit in hits ==> exists id <- index :: matches(index[id]) && HitOfRow(hit, index[id]))
  {
    hide *;
    OverlaySearchMatches(s, t, plan, before, snapshot, compatibility, overlay, files, manifest, matches);
    CompleteHasHits(s, limit);
    var index := ColdIndex(t, snapshot.files);
    if id in index && matches(index[id]) {
      MatchingRowIsFound(s, limit, t, snapshot.files, matches, id);
    }
    if hit in Searched(s, limit).value.hits {
      FoundHitIsARow(s, limit, index, matches, hit);
    }
  }
}
