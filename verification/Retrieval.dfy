/**
 One query of a search session: the candidate windows, the candidates of a window, and the validation of
 candidates against the files on disk under a read cache and file and byte budgets.
 */
module Retrieval {
  import opened Wrappers
  import opened Contracts
  import opened Sorting
  import opened Fusion
  import Chunking

  const CANDIDATE_CAP_PER_SOURCE := 160
  const MAX_EXCERPT_FILES := 40
  const MAX_EXCERPT_BYTES := 20 * 1024 * 1024

  /** A search engine over one store: a window of n asks for the first n hits of a fixed ranking. */
  datatype Source = Source(ranked: seq<Hit>, isBase: bool)

  /** `read` is what reading a file yields during the query, `None` when it throws; no path is read twice. */
  datatype Session = Session(sources: seq<Source>, tombstones: set<Path>, manifest: map<Path, Entry>,
                             read: Path -> Option<Bytes>, decode: Bytes -> string)

  datatype SearchHit = SearchHit(path: Path, startLine: nat, endLine: nat, symbol: string, score: real,
                                 fileHash: Hash, excerpt: string)

  // ---- Candidate windows -----------------------------------------------------------------------

  function Min(a: nat, b: nat): nat {
    if a < b then a else b
  }

  function Unique(values: seq<nat>): seq<nat> {
    if values == [] then []
    else
      var front := Unique(values[..|values| - 1]);
      if values[|values| - 1] in front then front else front + [values[|values| - 1]]
  }

  function Ascending(): (nat, nat) -> bool {
    (a: nat, b: nat) => a <= b
  }

  function CandidateWindows(limit: nat): seq<nat> {
    StableSort(Ascending(), Unique([Min(2 * limit, CANDIDATE_CAP_PER_SOURCE), Min(4 * limit, CANDIDATE_CAP_PER_SOURCE),
                                    Min(8 * limit, CANDIDATE_CAP_PER_SOURCE), CANDIDATE_CAP_PER_SOURCE]))
  }

  lemma {:induction false} UniqueKeepsMembers(values: seq<nat>)
    ensures NoRepeats(Unique(values)) && forall v :: v in Unique(values) <==> v in values
    ensures |Unique(values)| <= |values|
    decreases |values|
  {
    if values != [] {
      UniqueKeepsMembers(values[..|values| - 1]);
      assert values == values[..|values| - 1] + [values[|values| - 1]];
    }
  }

  /**
   Twice, four and eight times the limit and 160, none above 160, each once: at most four rounds, each asking for
   strictly more than the one before, the last one for 160.
   */
  lemma WindowsIncrease(limit: nat)
    ensures var windows := CandidateWindows(limit);
            && 0 < |windows| <= 4
            && (forall w :: w in windows <==> w in [Min(2 * limit, 160), Min(4 * limit, 160), Min(8 * limit, 160), 160])
            && (forall i, j :: 0 <= i < j < |windows| ==> windows[i] < windows[j])
            && windows[|windows| - 1] == CANDIDATE_CAP_PER_SOURCE
            && windows[0] == Min(2 * limit, CANDIDATE_CAP_PER_SOURCE)
  {
    hide StableSort, Unique;
    var all := [Min(2 * limit, CANDIDATE_CAP_PER_SOURCE), Min(4 * limit, CANDIDATE_CAP_PER_SOURCE),
                Min(8 * limit, CANDIDATE_CAP_PER_SOURCE), CANDIDATE_CAP_PER_SOURCE];
    UniqueKeepsMembers(all);
    SortedWindows(Unique(all));
    var windows := CandidateWindows(limit);
    assert all[0] in all && all[3] in all;
    assert windows[0] in all && windows[|windows| - 1] in all;
    var i :| 0 <= i < |windows| && windows[i] == all[0];
    var j :| 0 <= j < |windows| && windows[j] == all[3];
  }

  lemma SortedWindows(values: seq<nat>)
    requires NoRepeats(values)
    ensures var sorted := StableSort(Ascending(), values);
            && (forall v :: v in sorted <==> v in values)
            && (forall i, j :: 0 <= i < j < |sorted| ==> sorted[i] < sorted[j])
  {
    StableSortKeepsDistinct(Ascending(), values);
    StableSortSorts(Ascending(), values);
    hide StableSort;
    var sorted := StableSort(Ascending(), values);
    forall i, j | 0 <= i < j < |sorted| ensures sorted[i] < sorted[j] {
      assert Ascending()(sorted[i], sorted[j]);
    }
  }

  // ---- Candidates of a window ------------------------------------------------------------------

  predicate Dropped(s: Session, source: Source, hit: Hit) {
    source.isBase && hit.path in s.tombstones
  }

  function Window(source: Source, window: nat): seq<Hit> {
    if |source.ranked| <= window then source.ranked else source.ranked[..window]
  }

  /** Base hits on tombstoned paths are dropped, then repeated identities. */
  function Collect(s: Session, source: Source, raw: seq<Hit>): seq<Hit> {
    if raw == [] then []
    else
      var front, hit := Collect(s, source, raw[..|raw| - 1]), raw[|raw| - 1];
      if Dropped(s, source, hit) || HitIdentity(hit) in Identities(front) then front else front + [hit]
  }

  function Identities(hits: seq<Hit>): set<string> {
    set i | 0 <= i < |hits| :: HitIdentity(hits[i])
  }

  function PerSource(s: Session, sources: seq<Source>, window: nat): seq<seq<Hit>> {
    if sources == [] then []
    else PerSource(s, sources[..|sources| - 1], window)
         + [Collect(s, sources[|sources| - 1], Window(sources[|sources| - 1], window))]
  }

  function TotalLength(lists: seq<seq<Hit>>): nat {
    if lists == [] then 0 else TotalLength(lists[..|lists| - 1]) + |lists[|lists| - 1]|
  }

  function Candidates(s: Session, window: nat): seq<Hit> {
    var lists := PerSource(s, s.sources, window);
    Fused(lists, TotalLength(lists))
  }

  predicate Saturated(s: Session, window: nat) {
    exists source <- s.sources :: |Window(source, window)| >= window
  }

  /** The identities a source offers within a window. */
  ghost function Offered(s: Session, source: Source, window: nat): set<string> {
    set h | h in Window(source, window) && !Dropped(s, source, h) :: HitIdentity(h)
  }

  /** Everything that matches in the merged index: no window, no budget. */
  ghost function Matching(s: Session): set<string> {
    set source, h | source in s.sources && h in source.ranked && !Dropped(s, source, h) :: HitIdentity(h)
  }

  lemma {:induction false} CollectKeepsIdentities(s: Session, source: Source, raw: seq<Hit>)
    ensures HitIds(Collect(s, source, raw)) == set h | h in raw && !Dropped(s, source, h) :: HitIdentity(h)
    ensures DistinctHits(Collect(s, source, raw))
    ensures |Collect(s, source, raw)| <= |raw|
    ensures forall h <- Collect(s, source, raw) :: h in raw && !Dropped(s, source, h)
    decreases |raw|
  {
    hide HitIdentity;
    if raw != [] {
      var front, hit := raw[..|raw| - 1], raw[|raw| - 1];
      CollectKeepsIdentities(s, source, front);
      assert raw == front + [hit];
      var before, after := Collect(s, source, front), Collect(s, source, raw);
      SameIdentities(before);
      assert HitIds(after) == HitIds(before) + if Dropped(s, source, hit) then {} else {HitIdentity(hit)};
    }
  }

  lemma SameIdentities(hits: seq<Hit>)
    ensures Identities(hits) == HitIds(hits)
  {
    hide HitIdentity;
    forall h <- hits ensures HitIdentity(h) in Identities(hits) {
      var i :| 0 <= i < |hits| && hits[i] == h;
    }
    forall i | 0 <= i < |hits| ensures HitIdentity(hits[i]) in HitIds(hits) {
      assert hits[i] in hits;
    }
  }

  lemma {:induction false} PerSourceOffers(s: Session, sources: seq<Source>, window: nat)
    ensures ListIds(PerSource(s, sources, window)) == set source, id | source in sources && id in Offered(s, source, window) :: id
    decreases |sources|
  {
    hide HitIdentity, Collect;
    if sources != [] {
      var front, last := sources[..|sources| - 1], sources[|sources| - 1];
      PerSourceOffers(s, front, window);
      var list := Collect(s, last, Window(last, window));
      CollectKeepsIdentities(s, last, Window(last, window));
      assert HitIds(list) == Offered(s, last, window);
      var lists := PerSource(s, front, window);
      assert ListIds(lists + [list]) == ListIds(lists) + HitIds(list);
      assert sources == front + [last];
    }
  }

  lemma {:induction false} AddListLength(entries: seq<Scored>, hits: seq<Hit>)
    ensures |AddList(entries, hits)| <= |entries| + |hits|
    decreases |hits|
  {
    if hits != [] { AddListLength(entries, hits[..|hits| - 1]); }
  }

  lemma {:induction false} AddListsLength(lists: seq<seq<Hit>>)
    ensures |AddLists([], lists)| <= TotalLength(lists)
    decreases |lists|
  {
    if lists != [] {
      AddListsLength(lists[..|lists| - 1]);
      AddListLength(AddLists([], lists[..|lists| - 1]), lists[|lists| - 1]);
    }
  }

  /** The candidates of a window are, each once and best first, what the sources offer within it. */
  lemma CandidatesOffer(s: Session, window: nat)
    ensures var fused := Candidates(s, window);
            && DistinctHits(fused)
            && HitIds(fused) == (set source, id | source in s.sources && id in Offered(s, source, window) :: id)
            && (forall i, j :: 0 <= i < j < |fused| ==> fused[i].score >= fused[j].score)
            && HitIds(fused) <= Matching(s)
            && (!Saturated(s, window) ==> HitIds(fused) == Matching(s))
  {
    var lists := PerSource(s, s.sources, window);
    AddListsLength(lists);
    FusedIsRanked(lists, TotalLength(lists));
    PerSourceOffers(s, s.sources, window);
    hide HitIdentity, Fused, PerSource;
    forall id | id in Matching(s) && !Saturated(s, window) ensures id in HitIds(Candidates(s, window)) {
      var source, h :| source in s.sources && h in source.ranked && !Dropped(s, source, h) && id == HitIdentity(h);
      assert Window(source, window) == source.ranked;
      assert id in Offered(s, source, window);
    }
  }

  /** A wider window keeps every candidate. */
  lemma CandidatesGrow(s: Session, narrow: nat, wide: nat)
    requires narrow <= wide
    ensures HitIds(Candidates(s, narrow)) <= HitIds(Candidates(s, wide))
  {
    CandidatesOffer(s, narrow);
    CandidatesOffer(s, wide);
    hide HitIdentity, Candidates;
    forall source <- s.sources ensures Offered(s, source, narrow) <= Offered(s, source, wide) {
      assert Window(source, narrow) <= Window(source, wide);
    }
  }

  // ---- Validation ------------------------------------------------------------------------------

  /** What survives between the rounds of one query. */
  datatype Progress = Progress(cache: map<Path, Option<Bytes>>, attempted: set<Path>, stale: set<string>,
                               omitted: set<string>, bytes: nat, staleHits: nat, omittedHits: nat, exhausted: bool)

  const START := Progress(map[], {}, {}, {}, 0, 0, 0, false)

  function MarkStale(p: Progress, id: string): Progress {
    if id in p.stale then p else p.(stale := p.stale + {id}, staleHits := p.staleHits + 1)
  }

  function MarkOmitted(p: Progress, id: string): Progress {
    if id in p.omitted then p else p.(omitted := p.omitted + {id}, omittedHits := p.omittedHits + 1)
  }

  /** The first time a path of the manifest comes up. */
  function ReadPath(s: Session, p: Progress, path: Path, id: string): Progress
    requires path in s.manifest
  {
    if |p.attempted| >= MAX_EXCERPT_FILES then p.(cache := p.cache[path := None], exhausted := true)
    else
      var q := p.(cache := p.cache[path := None], attempted := p.attempted + {path});
      match s.read(path)
      case None => MarkStale(q, id)
      case Some(bytes) =>
        if Sha256(bytes) != s.manifest[path].hash then MarkStale(q, id)
        else if p.bytes + |bytes| > MAX_EXCERPT_BYTES then q.(exhausted := true)
        else q.(cache := p.cache[path := Some(bytes)], bytes := p.bytes + |bytes|)
  }

  function Visit(s: Session, p: Progress, candidate: Hit): Progress {
    var id := HitIdentity(candidate);
    if candidate.path !in s.manifest then
      if id in p.stale then p
      else p.(stale := p.stale + {id}, staleHits := p.staleHits + 1, omittedHits := p.omittedHits + 1)
    else
      var q := if candidate.path in p.cache then p else ReadPath(s, p, candidate.path, id);
      if q.cache[candidate.path].None? then MarkOmitted(q, id) else q
  }

  function VisitAll(s: Session, p: Progress, hits: seq<Hit>): Progress {
    if hits == [] then p else Visit(s, VisitAll(s, p, hits[..|hits| - 1]), hits[|hits| - 1])
  }

  predicate Readable(s: Session, cache: map<Path, Option<Bytes>>, path: Path) {
    path in s.manifest && path in cache && cache[path].Some?
  }

  function Shown(s: Session, bytes: Bytes, hit: Hit): SearchHit {
    SearchHit(hit.path, hit.startLine, hit.endLine, hit.symbol, hit.score, Sha256(bytes),
              Chunking.ExcerptLines(s.decode(bytes), hit.startLine, hit.endLine))
  }

  /** The candidates whose file is in the cache, in order. */
  function Show(s: Session, cache: map<Path, Option<Bytes>>, hits: seq<Hit>): seq<SearchHit> {
    if hits == [] then []
    else
      var front, last := Show(s, cache, hits[..|hits| - 1]), hits[|hits| - 1];
      if Readable(s, cache, last.path) then front + [Shown(s, cache[last.path].value, last)] else front
  }

  // ---- What the read cache holds ---------------------------------------------------------------

  /** The file can be read and still has the hash recorded in the manifest. */
  predicate Current(s: Session, path: Path) {
    path in s.manifest && s.read(path).Some? && Sha256(s.read(path).value) == s.manifest[path].hash
  }

  ghost function Kept(cache: map<Path, Option<Bytes>>): nat {
    if cache == map[] then 0
    else
      var path :| path in cache;
      (match cache[path] case None => 0 case Some(bytes) => |bytes|) + Kept(cache - {path})
  }

  lemma {:induction false} KeptRemove(cache: map<Path, Option<Bytes>>, path: Path)
    requires path in cache
    ensures Kept(cache) == (match cache[path] case None => 0 case Some(bytes) => |bytes|) + Kept(cache - {path})
    decreases |cache|
  {
    var q :| q in cache && Kept(cache) == (match cache[q] case None => 0 case Some(bytes) => |bytes|) + Kept(cache - {q});
    if q != path {
      KeptRemove(cache - {q}, path);
      KeptRemove(cache - {path}, q);
      assert cache - {q} - {path} == cache - {path} - {q};
    }
  }

  lemma KeptAdd(cache: map<Path, Option<Bytes>>, path: Path, read: Option<Bytes>)
    requires path !in cache
    ensures Kept(cache[path := read]) == Kept(cache) + match read case None => 0 case Some(bytes) => |bytes|
  {
    KeptRemove(cache[path := read], path);
    assert cache[path := read] - {path} == cache;
  }

  ghost predicate KeptOut(s: Session, cache: map<Path, Option<Bytes>>, attempted: set<Path>, path: Path) {
    path in cache && (path !in attempted || (cache[path].None? && Current(s, path)))
  }

  ghost predicate SomeKeptOut(s: Session, cache: map<Path, Option<Bytes>>, attempted: set<Path>) {
    exists path :: KeptOut(s, cache, attempted, path)
  }

  /**
   The cache holds current contents of attempted paths within both budgets, and the exhausted flag is set exactly
   when a budget, not the file, kept some path out.
   */
  ghost predicate ReadsOk(s: Session, p: Progress) {
    && p.attempted <= p.cache.Keys <= s.manifest.Keys
    && |p.attempted| <= MAX_EXCERPT_FILES
    && p.bytes == Kept(p.cache) <= MAX_EXCERPT_BYTES
    && (forall path <- p.cache :: p.cache[path].Some? ==>
          path in p.attempted && Current(s, path) && p.cache[path] == s.read(path))
    && (forall path <- p.cache :: path !in p.attempted ==> |p.attempted| == MAX_EXCERPT_FILES)
    && (forall path <- p.attempted :: p.cache[path].None? && Current(s, path) ==>
          p.bytes + |s.read(path).value| > MAX_EXCERPT_BYTES)
    && (p.exhausted <==> SomeKeptOut(s, p.cache, p.attempted))
  }

  lemma KeptOutGrows(s: Session, cache: map<Path, Option<Bytes>>, attempted: set<Path>, path: Path, read: Option<Bytes>, more: set<Path>)
    requires path !in cache && (more == attempted || more == attempted + {path})
    ensures SomeKeptOut(s, cache[path := read], more)
        <==> SomeKeptOut(s, cache, attempted) || KeptOut(s, cache[path := read], more, path)
  {
    var after := cache[path := read];
    forall other | other != path ensures KeptOut(s, after, more, other) <==> KeptOut(s, cache, attempted, other) {}
  }

  /** A path kept out of the cache: past the file budget, unusable, or past the byte budget. */
  lemma MissedOk(s: Session, p: Progress, path: Path, q: Progress)
    requires ReadsOk(s, p) && path in s.manifest && path !in p.cache
    requires q.cache == p.cache[path := None] && q.bytes == p.bytes
    requires q.attempted == if |p.attempted| >= MAX_EXCERPT_FILES then p.attempted else p.attempted + {path}
    requires q.exhausted <==> p.exhausted || |p.attempted| >= MAX_EXCERPT_FILES || Current(s, path)
    requires |p.attempted| < MAX_EXCERPT_FILES && Current(s, path) ==> p.bytes + |s.read(path).value| > MAX_EXCERPT_BYTES
    ensures ReadsOk(s, q)
  {
    hide Kept, SomeKeptOut, Current;
    KeptAdd(p.cache, path, None);
    KeptOutGrows(s, p.cache, p.attempted, path, None, q.attempted);
  }

  lemma HeldOk(s: Session, p: Progress, path: Path, q: Progress)
    requires ReadsOk(s, p) && path in s.manifest && path !in p.cache && |p.attempted| < MAX_EXCERPT_FILES
    requires Current(s, path) && q.cache == p.cache[path := s.read(path)] && q.attempted == p.attempted + {path}
    requires q.bytes == p.bytes + |s.read(path).value| <= MAX_EXCERPT_BYTES && q.exhausted == p.exhausted
    ensures ReadsOk(s, q)
  {
    hide Kept, SomeKeptOut;
    KeptAdd(p.cache, path, s.read(path));
    KeptOutGrows(s, p.cache, p.attempted, path, s.read(path), q.attempted);
  }

  /** The file is read, unchanged, and within both budgets. */
  predicate Fits(s: Session, p: Progress, path: Path) {
    |p.attempted| < MAX_EXCERPT_FILES && Current(s, path) && p.bytes + |s.read(path).value| <= MAX_EXCERPT_BYTES
  }

  lemma ReadPathCases(s: Session, p: Progress, path: Path, id: string)
    requires path in s.manifest
    ensures var q := ReadPath(s, p, path, id);
            && q.attempted == (if |p.attempted| >= MAX_EXCERPT_FILES then p.attempted else p.attempted + {path})
            && q.cache == p.cache[path := if Fits(s, p, path) then s.read(path) else None]
            && q.bytes == p.bytes + (if Fits(s, p, path) then |s.read(path).value| else 0)
            && (q.exhausted <==> p.exhausted || |p.attempted| >= MAX_EXCERPT_FILES || (Current(s, path) && !Fits(s, p, path)))
  {
    var q := ReadPath(s, p, path, id);
    if |p.attempted| >= MAX_EXCERPT_FILES {
      assert q == p.(cache := p.cache[path := None], exhausted := true);
    } else if Fits(s, p, path) {
      assert q.cache == p.cache[path := s.read(path)];
    } else if Current(s, path) {
      assert q == p.(cache := p.cache[path := None], attempted := p.attempted + {path}, exhausted := true);
    } else {
      assert q == MarkStale(p.(cache := p.cache[path := None], attempted := p.attempted + {path}), id);
    }
  }

  lemma ReadPathOk(s: Session, p: Progress, path: Path, id: string)
    requires ReadsOk(s, p) && path in s.manifest && path !in p.cache
    ensures ReadsOk(s, ReadPath(s, p, path, id))
    ensures ReadPath(s, p, path, id).cache.Keys == p.cache.Keys + {path}
    ensures forall other <- p.cache :: ReadPath(s, p, path, id).cache[other] == p.cache[other]
  {
    hide ReadsOk, ReadPath, Current;
    ReadPathCases(s, p, path, id);
    var q := ReadPath(s, p, path, id);
    if Fits(s, p, path) {
      HeldOk(s, p, path, q);
    } else {
      MissedOk(s, p, path, q);
    }
  }

  lemma VisitReads(s: Session, p: Progress, candidate: Hit)
    requires ReadsOk(s, p)
    ensures ReadsOk(s, Visit(s, p, candidate))
    ensures Visit(s, p, candidate).cache.Keys == p.cache.Keys + ({candidate.path} * s.manifest.Keys)
    ensures forall other <- p.cache :: Visit(s, p, candidate).cache[other] == p.cache[other]
  {
    hide ReadPath, HitIdentity, Kept, SomeKeptOut;
    if candidate.path in s.manifest && candidate.path !in p.cache {
      ReadPathOk(s, p, candidate.path, HitIdentity(candidate));
    }
  }

  lemma {:induction false} VisitAllReads(s: Session, p: Progress, hits: seq<Hit>)
    requires ReadsOk(s, p)
    ensures ReadsOk(s, VisitAll(s, p, hits))
    ensures VisitAll(s, p, hits).cache.Keys == p.cache.Keys + (HitPaths(hits) * s.manifest.Keys)
    ensures forall other <- p.cache :: VisitAll(s, p, hits).cache[other] == p.cache[other]
    decreases |hits|
  {
    hide ReadsOk, Visit;
    if hits != [] {
      var front, last := hits[..|hits| - 1], hits[|hits| - 1];
      VisitAllReads(s, p, front);
      VisitReads(s, VisitAll(s, p, front), last);
      assert hits == front + [last];
      assert HitPaths(hits) == HitPaths(front) + {last.path};
    }
  }

  ghost function HitPaths(hits: seq<Hit>): set<Path> {
    set h | h in hits :: h.path
  }

  // ---- What the counters count -----------------------------------------------------------------

  /** Candidates on paths that the manifest does not know. */
  ghost function Gone(s: Session, hits: seq<Hit>): set<string> {
    set h | h in hits && h.path !in s.manifest :: HitIdentity(h)
  }

  /** Candidates whose file was not readable, had changed, or fell to a budget. */
  ghost function Unreadable(s: Session, cache: map<Path, Option<Bytes>>, hits: seq<Hit>): set<string> {
    set h | h in hits && h.path in s.manifest && h.path in cache && cache[h.path].None? :: HitIdentity(h)
  }

  ghost function StalePaths(s: Session, attempted: set<Path>): set<Path> {
    set path | path in attempted && !Current(s, path)
  }

  ghost predicate CountsOk(s: Session, p: Progress, hits: seq<Hit>) {
    && p.cache.Keys == HitPaths(hits) * s.manifest.Keys
    && p.omitted == Unreadable(s, p.cache, hits)
    && Gone(s, hits) <= p.stale <= Gone(s, hits) + p.omitted
    && p.omittedHits == |Gone(s, hits)| + |p.omitted|
    && p.staleHits == |p.stale| == |Gone(s, hits)| + |StalePaths(s, p.attempted)|
  }

  lemma IdentityDecidesPath(s: Session, p: Progress, hits: seq<Hit>, candidate: Hit)
    requires CountsOk(s, p, hits)
    ensures HitIdentity(candidate) in Gone(s, hits) ==> candidate.path !in s.manifest
    ensures HitIdentity(candidate) in p.omitted ==> candidate.path in p.cache && p.cache[candidate.path].None?
  {
    forall h <- hits | HitIdentity(h) == HitIdentity(candidate) ensures h.path == candidate.path {
      IdentityIsInjective(h, candidate);
    }
  }

  lemma Appended(s: Session, cache: map<Path, Option<Bytes>>, hits: seq<Hit>, last: Hit)
    ensures HitPaths(hits + [last]) == HitPaths(hits) + {last.path}
    ensures Gone(s, hits + [last]) == if last.path !in s.manifest then Gone(s, hits) + {HitIdentity(last)} else Gone(s, hits)
    ensures Unreadable(s, cache, hits + [last])
         == if last.path in s.manifest && last.path in cache && cache[last.path].None?
            then Unreadable(s, cache, hits) + {HitIdentity(last)} else Unreadable(s, cache, hits)
  {
    hide HitIdentity;
    var after := hits + [last];
    assert last in after && forall h <- hits :: h in after;
  }

  lemma UnreadableStays(s: Session, a: map<Path, Option<Bytes>>, b: map<Path, Option<Bytes>>, hits: seq<Hit>)
    requires HitPaths(hits) * s.manifest.Keys <= a.Keys <= b.Keys && forall path <- a :: b[path] == a[path]
    ensures Unreadable(s, a, hits) == Unreadable(s, b, hits)
  {
    hide HitIdentity;
    assert forall h <- hits :: h.path in HitPaths(hits);
  }

  lemma VisitGone(s: Session, p: Progress, hits: seq<Hit>, candidate: Hit)
    requires CountsOk(s, p, hits) && candidate.path !in s.manifest
    ensures CountsOk(s, Visit(s, p, candidate), hits + [candidate])
  {
    hide HitIdentity, HitPaths, Gone, Unreadable, StalePaths;
    IdentityDecidesPath(s, p, hits, candidate);
    Appended(s, p.cache, hits, candidate);
    var id, q, after := HitIdentity(candidate), Visit(s, p, candidate), hits + [candidate];
    AddStale(Gone(s, hits), p.stale, p.omitted, id);
    AddKnown(HitPaths(hits), s.manifest.Keys, candidate.path);
    assert q.cache == p.cache && q.attempted == p.attempted && q.omitted == p.omitted;
    assert q.cache.Keys == HitPaths(after) * s.manifest.Keys;
    if id in p.stale {
      assert q == p && Gone(s, after) == Gone(s, hits);
    } else {
      assert q.stale == p.stale + {id} && q.staleHits == p.staleHits + 1 && q.omittedHits == p.omittedHits + 1;
    }
  }

  lemma AddKnown(paths: set<Path>, known: set<Path>, path: Path)
    ensures (paths + {path}) * known == if path in known then paths * known + {path} else paths * known
  {
  }

  lemma AddStale(gone: set<string>, stale: set<string>, omitted: set<string>, id: string)
    requires gone <= stale <= gone + omitted && id !in omitted
    ensures id in stale ==> gone + {id} == gone
    ensures id !in stale ==>
              && |gone + {id}| == |gone| + 1 && |stale + {id}| == |stale| + 1
              && gone + {id} <= stale + {id} <= gone + {id} + omitted
  {
    assert id in stale <==> id in gone;
  }

  lemma VisitKnown(s: Session, p: Progress, hits: seq<Hit>, candidate: Hit)
    requires CountsOk(s, p, hits) && candidate.path in s.manifest && candidate.path in p.cache
    ensures CountsOk(s, Visit(s, p, candidate), hits + [candidate])
  {
    hide HitIdentity, HitPaths, Gone, Unreadable, StalePaths;
    var id, q, after := HitIdentity(candidate), Visit(s, p, candidate), hits + [candidate];
    Appended(s, p.cache, hits, candidate);
    AddKnown(HitPaths(hits), s.manifest.Keys, candidate.path);
    assert q.cache == p.cache && q.stale == p.stale && q.attempted == p.attempted;
    assert q.cache.Keys == HitPaths(after) * s.manifest.Keys;
    assert Gone(s, after) == Gone(s, hits);
    if p.cache[candidate.path].None? && id !in p.omitted {
      assert q.omitted == p.omitted + {id} && |q.omitted| == |p.omitted| + 1;
    } else {
      assert q == p;
    }
  }

  lemma AttemptedAreCached(s: Session, p: Progress)
    requires ReadsOk(s, p)
    ensures p.attempted <= p.cache.Keys
  {
  }

  lemma VisitNew(s: Session, p: Progress, hits: seq<Hit>, candidate: Hit)
    requires ReadsOk(s, p) && CountsOk(s, p, hits) && candidate.path in s.manifest && candidate.path !in p.cache
    ensures CountsOk(s, Visit(s, p, candidate), hits + [candidate])
  {
    hide HitIdentity, HitPaths, Gone, Unreadable, StalePaths, ReadPath, ReadsOk, Current;
    IdentityDecidesPath(s, p, hits, candidate);
    var id, path := HitIdentity(candidate), candidate.path;
    var q := ReadPath(s, p, path, id);
    assert path !in p.attempted by { AttemptedAreCached(s, p); }
    ReadPathOk(s, p, path, id);
    ReadPathCounts(s, p, path, id);
    StalePathsAdd(s, p.attempted, path);
    UnreadableStays(s, p.cache, q.cache, hits);
    AddRead(s, p, q, hits, candidate);
  }

  lemma AddRead(s: Session, p: Progress, q: Progress, hits: seq<Hit>, candidate: Hit)
    requires CountsOk(s, p, hits) && candidate.path in s.manifest && candidate.path !in p.cache
    requires q.cache.Keys == p.cache.Keys + {candidate.path} && Unreadable(s, q.cache, hits) == p.omitted
    requires HitIdentity(candidate) !in p.stale + p.omitted && q.omitted == p.omitted && q.omittedHits == p.omittedHits
    requires q.staleHits - p.staleHits == |StalePaths(s, q.attempted)| - |StalePaths(s, p.attempted)|
    requires || (q.stale == p.stale && q.staleHits == p.staleHits)
             || (q.stale == p.stale + {HitIdentity(candidate)} && q.staleHits == p.staleHits + 1 && q.cache[candidate.path].None?)
    ensures CountsOk(s, if q.cache[candidate.path].None? then MarkOmitted(q, HitIdentity(candidate)) else q, hits + [candidate])
  {
    hide HitIdentity, HitPaths, Gone, Unreadable, StalePaths;
    Appended(s, q.cache, hits, candidate);
  }

  lemma ReadPathCounts(s: Session, p: Progress, path: Path, id: string)
    requires path in s.manifest && path !in p.attempted && id !in p.stale
    ensures var q := ReadPath(s, p, path, id);
            && q.omitted == p.omitted && q.omittedHits == p.omittedHits
            && q.attempted == (if |p.attempted| >= MAX_EXCERPT_FILES then p.attempted else p.attempted + {path})
            && if |p.attempted| >= MAX_EXCERPT_FILES || Current(s, path)
               then q.stale == p.stale && q.staleHits == p.staleHits
               else q.stale == p.stale + {id} && q.staleHits == p.staleHits + 1 && q.cache[path].None?
  {
    var q := ReadPath(s, p, path, id);
    if |p.attempted| >= MAX_EXCERPT_FILES {
      assert q == p.(cache := p.cache[path := None], exhausted := true);
    } else if Current(s, path) {
      assert q.stale == p.stale && q.staleHits == p.staleHits;
    } else {
      assert q == MarkStale(p.(cache := p.cache[path := None], attempted := p.attempted + {path}), id);
    }
  }

  lemma StalePathsAdd(s: Session, attempted: set<Path>, path: Path)
    requires path !in attempted
    ensures StalePaths(s, attempted + {path}) == StalePaths(s, attempted) + if Current(s, path) then {} else {path}
    ensures path !in StalePaths(s, attempted)
  {
  }

  lemma {:induction false} VisitAllCounts(s: Session, p: Progress, before: seq<Hit>, hits: seq<Hit>)
    requires ReadsOk(s, p) && CountsOk(s, p, before)
    ensures CountsOk(s, VisitAll(s, p, hits), before + hits)
    decreases |hits|
  {
    hide ReadsOk, Visit, CountsOk;
    if hits == [] {
      assert before + hits == before;
    } else {
      var front, last := hits[..|hits| - 1], hits[|hits| - 1];
      VisitAllReads(s, p, front);
      VisitAllCounts(s, p, before, front);
      var q := VisitAll(s, p, front);
      assert before + hits == before + front + [last];
      if last.path !in s.manifest {
        VisitGone(s, q, before + front, last);
      } else if last.path in q.cache {
        VisitKnown(s, q, before + front, last);
      } else {
        VisitNew(s, q, before + front, last);
      }
    }
  }

  /** The counters depend on the identities visited, not on how often or in which order. */
  lemma CountsOfIdentities(s: Session, p: Progress, a: seq<Hit>, b: seq<Hit>)
    requires CountsOk(s, p, a) && HitIds(a) == HitIds(b)
    ensures CountsOk(s, p, b)
  {
    hide HitIdentity, HitPaths, Gone, Unreadable, StalePaths, HitIds;
    CountsSubset(s, p.cache, a, b);
    CountsSubset(s, p.cache, b, a);
    assert HitPaths(a) == HitPaths(b) && Gone(s, a) == Gone(s, b);
  }

  lemma CountsSubset(s: Session, cache: map<Path, Option<Bytes>>, a: seq<Hit>, b: seq<Hit>)
    requires HitIds(a) <= HitIds(b)
    ensures HitPaths(a) <= HitPaths(b) && Gone(s, a) <= Gone(s, b) && Unreadable(s, cache, a) <= Unreadable(s, cache, b)
  {
    forall h <- a ensures exists g :: g in b && HitIdentity(g) == HitIdentity(h) && g.path == h.path {
      assert HitIdentity(h) in HitIds(b);
      var g :| g in b && HitIdentity(g) == HitIdentity(h);
      IdentityIsInjective(g, h);
    }
    hide HitIdentity;
  }

  lemma LastIsNew(s: Session, cache: map<Path, Option<Bytes>>, front: seq<Hit>, last: Hit)
    requires DistinctHits(front + [last])
    ensures DistinctHits(front) && HitIdentity(last) !in Gone(s, front) + Unreadable(s, cache, front)
  {
    hide HitIdentity;
    var hits := front + [last];
    forall i | 0 <= i < |front| ensures HitIdentity(front[i]) != HitIdentity(last) {
      assert hits[i] == front[i] && hits[|front|] == last;
    }
    forall i, j | 0 <= i < j < |front| ensures HitIdentity(front[i]) != HitIdentity(front[j]) {
      assert hits[i] == front[i] && hits[j] == front[j];
    }
  }

  /** Every candidate is either shown or counted as omitted. */
  lemma {:induction false} ShownOrOmitted(s: Session, cache: map<Path, Option<Bytes>>, hits: seq<Hit>)
    requires DistinctHits(hits) && HitPaths(hits) * s.manifest.Keys <= cache.Keys
    ensures |Show(s, cache, hits)| + |Gone(s, hits)| + |Unreadable(s, cache, hits)| == |hits|
    decreases |hits|
  {
    if hits != [] {
      var front, last := hits[..|hits| - 1], hits[|hits| - 1];
      assert hits == front + [last];
      hide HitIdentity, HitPaths, Gone, Unreadable, DistinctHits, Show;
      assert HitPaths(hits) == HitPaths(front) + {last.path} by { Appended(s, cache, front, last); }
      LastIsNew(s, cache, front, last);
      ShownOrOmitted(s, cache, front);
      ShownStep(s, cache, front, last);
    }
  }

  lemma ShownStep(s: Session, cache: map<Path, Option<Bytes>>, front: seq<Hit>, last: Hit)
    requires HitIdentity(last) !in Gone(s, front) + Unreadable(s, cache, front) && (last.path in s.manifest ==> last.path in cache)
    ensures var hits := front + [last];
            |Show(s, cache, hits)| + |Gone(s, hits)| + |Unreadable(s, cache, hits)|
            == |Show(s, cache, front)| + |Gone(s, front)| + |Unreadable(s, cache, front)| + 1
  {
    hide HitIdentity, HitPaths, Gone, Unreadable;
    Appended(s, cache, front, last);
    assert (front + [last])[..|front|] == front;
  }

  /** The cache only grows, so what was shown early in a round stays. */
  lemma {:induction false} ShowStable(s: Session, a: map<Path, Option<Bytes>>, b: map<Path, Option<Bytes>>, hits: seq<Hit>)
    requires HitPaths(hits) * s.manifest.Keys <= a.Keys <= b.Keys && forall path <- a :: b[path] == a[path]
    ensures Show(s, a, hits) == Show(s, b, hits)
    decreases |hits|
  {
    if hits != [] {
      var front, last := hits[..|hits| - 1], hits[|hits| - 1];
      assert hits == front + [last];
      assert last.path in HitPaths(hits);
      ShowStable(s, a, b, front);
    }
  }
}
