/** The order of the hits of an overlay session: base and overlay take turns, the base first. */
module SearchOverlayOrder {
  import opened Wrappers
  import opened Contracts
  import opened Fusion
  import opened Retrieval
  import opened Search
  import opened SearchProperties
  import SearchRanks

  /** The lists take turns; what is left of the longer one follows. */
  function Interleave(a: seq<Hit>, b: seq<Hit>): seq<Hit> {
    if a == [] then b else if b == [] then a else [a[0], b[0]] + Interleave(a[1..], b[1..])
  }

  /** The hits on paths of which `keep` holds, in their order. */
  function Those(keep: Path -> bool, hits: seq<Hit>): seq<Hit> {
    if hits == [] then [] else (if keep(hits[0].path) then [hits[0]] else []) + Those(keep, hits[1..])
  }

  /** The first hits of a ranking. */
  function Top(hits: seq<Hit>, window: nat): seq<Hit> {
    if |hits| <= window then hits else hits[..window]
  }

  /** What the two sources of an overlay session offer in a window, taking turns. */
  function Turns(s: Session, window: nat): seq<Hit>
    requires |s.sources| == 2
  {
    Interleave(Those(path => path !in s.tombstones, Top(s.sources[0].ranked, window)), Top(s.sources[1].ranked, window))
  }

  /** Each source ranks nothing twice, and the overlay nothing that the base still offers. */
  ghost predicate SourcesApart(s: Session) {
    && OverlaySources(s) && DistinctHits(s.sources[0].ranked) && DistinctHits(s.sources[1].ranked)
    && forall a <- s.sources[0].ranked, b <- s.sources[1].ranked ::
         a.path !in s.tombstones ==> HitIdentity(a) != HitIdentity(b)
  }

  // ---- Lists -----------------------------------------------------------------------------------

  lemma {:induction false} ThoseMembers(keep: Path -> bool, hits: seq<Hit>)
    ensures forall h :: h in Those(keep, hits) <==> h in hits && keep(h.path)
    ensures |Those(keep, hits)| <= |hits|
  {
    if hits != [] {
      ThoseMembers(keep, hits[1..]);
      assert hits == [hits[0]] + hits[1..];
    }
  }

  lemma {:induction false} ThoseAppend(keep: Path -> bool, hits: seq<Hit>, hit: Hit)
    ensures Those(keep, hits + [hit]) == Those(keep, hits) + if keep(hit.path) then [hit] else []
  {
    if hits == [] {
      assert hits + [hit] == [hit] && [hit][1..] == [];
    } else {
      ThoseAppend(keep, hits[1..], hit);
      assert (hits + [hit])[1..] == hits[1..] + [hit];
    }
  }

  lemma {:induction false} ThoseAgree(a: Path -> bool, b: Path -> bool, hits: seq<Hit>)
    requires forall h <- hits :: a(h.path) == b(h.path)
    ensures Those(a, hits) == Those(b, hits)
  {
    if hits != [] {
      assert hits[0] in hits && forall h <- hits[1..] :: h in hits;
      ThoseAgree(a, b, hits[1..]);
    }
  }

  lemma DistinctPart(hits: seq<Hit>, window: nat)
    requires DistinctHits(hits)
    ensures DistinctHits(Top(hits, window)) && forall h <- Top(hits, window) :: h in hits
  {
    hide HitIdentity;
  }

  /** Without repetitions, collecting only drops. */
  lemma {:induction false} CollectedThose(s: Session, source: Source, raw: seq<Hit>)
    requires DistinctHits(raw)
    ensures Collect(s, source, raw) == if source.isBase then Those(path => path !in s.tombstones, raw) else raw
    decreases |raw|
  {
    hide HitIdentity;
    if raw != [] {
      var front, hit := raw[..|raw| - 1], raw[|raw| - 1];
      assert raw == front + [hit];
      CollectedThose(s, source, front);
      SearchRanks.CollectNext(s, source, front, hit);
      ThoseAppend(path => path !in s.tombstones, front, hit);
      CollectKeepsIdentities(s, source, front);
      forall h <- Collect(s, source, front) ensures HitIdentity(h) != HitIdentity(hit) {
        var i :| 0 <= i < |front| && front[i] == h;
        assert raw[i] == h;
      }
    }
  }

  /** The two lists that an overlay session fuses. */
  lemma TwoLists(s: Session, window: nat)
    requires SourcesApart(s)
    ensures var a, b := Those(path => path !in s.tombstones, Top(s.sources[0].ranked, window)), Top(s.sources[1].ranked, window);
            && PerSource(s, s.sources, window) == [a, b] && DisjointLists([a, b]) && TotalLength([a, b]) == |a| + |b|
  {
    hide HitIdentity, Collect, PerSource, TotalLength, DisjointLists, Top, Those;
    var first, second := s.sources[0], s.sources[1];
    var keep := (path: Path) => path !in s.tombstones;
    var a, b := Those(keep, Top(first.ranked, window)), Top(second.ranked, window);
    DistinctPart(first.ranked, window);
    DistinctPart(second.ranked, window);
    CollectedThose(s, first, Top(first.ranked, window));
    CollectedThose(s, second, b);
    CollectKeepsIdentities(s, first, Top(first.ranked, window));
    ThoseMembers(keep, Top(first.ranked, window));
    WindowIsTop(first, window);
    WindowIsTop(second, window);
    TwoSources(s, first, second, window);
    ListsApart(a, b);
  }

  lemma WindowIsTop(source: Source, window: nat)
    ensures Window(source, window) == Top(source.ranked, window)
  {
  }

  lemma TwoSources(s: Session, first: Source, second: Source, window: nat)
    requires s.sources == [first, second]
    ensures PerSource(s, s.sources, window) == [Collect(s, first, Window(first, window)), Collect(s, second, Window(second, window))]
  {
    hide Collect;
    assert s.sources[..1] == [first] && [first][..0] == [];
    assert PerSource(s, [first], window) == [Collect(s, first, Window(first, window))];
  }

  lemma ListsApart(a: seq<Hit>, b: seq<Hit>)
    requires DistinctHits(a) && DistinctHits(b) && forall g <- a, h <- b :: HitIdentity(g) != HitIdentity(h)
    ensures DisjointLists([a, b]) && TotalLength([a, b]) == |a| + |b|
  {
    hide HitIdentity;
    assert [a, b][..1] == [a] && [a][..0] == [];
    assert TotalLength([a]) == |a|;
    forall id ensures !(id in HitIds(a) && id in HitIds(b)) {
    }
  }

  // ---- Taking turns ----------------------------------------------------------------------------

  function HitsOf(entries: seq<Scored>): (hits: seq<Hit>)
    ensures |hits| == |entries|
  {
    seq(|entries|, i requires 0 <= i < |entries| => entries[i].hit)
  }

  lemma RoundOfTwo(a: seq<Hit>, b: seq<Hit>, rank: nat)
    ensures HitsOf(Round([a, b], rank)) == (if rank < |a| then [a[rank]] else []) + (if rank < |b| then [b[rank]] else [])
    ensures Longest([a, b]) == if |a| > |b| then |a| else |b|
  {
    assert [a, b][..1] == [a] && [a][..0] == [];
    assert Round([a], rank) == if rank < |a| then [Scored(RankScore(rank), a[rank])] else [];
    assert Longest([a]) == |a|;
  }

  lemma {:induction false} InterleaveFrom(a: seq<Hit>, b: seq<Hit>, rank: nat)
    ensures var x, y := if rank < |a| then a[rank..] else [], if rank < |b| then b[rank..] else [];
            var m, n := if rank < |a| then a[rank + 1..] else [], if rank < |b| then b[rank + 1..] else [];
            Interleave(x, y) == (if rank < |a| then [a[rank]] else []) + (if rank < |b| then [b[rank]] else []) + Interleave(m, n)
  {
    var x, y := if rank < |a| then a[rank..] else [], if rank < |b| then b[rank..] else [];
    assert x != [] ==> x[1..] == a[rank + 1..] && x == [x[0]] + x[1..];
    assert y != [] ==> y[1..] == b[rank + 1..] && y == [y[0]] + y[1..];
  }

  lemma {:induction false} RobinTakesTurns(a: seq<Hit>, b: seq<Hit>, rank: nat)
    ensures HitsOf(RoundRobin([a, b], rank)) == Interleave(if rank < |a| then a[rank..] else [], if rank < |b| then b[rank..] else [])
    decreases Longest([a, b]) - rank
  {
    hide Round, Longest, RankScore, Interleave;
    RoundOfTwo(a, b, rank);
    if rank < Longest([a, b]) {
      RobinTakesTurns(a, b, rank + 1);
      InterleaveFrom(a, b, rank);
      assert rank + 1 >= |a| > rank ==> a[rank + 1..] == [];
      assert rank + 1 >= |b| > rank ==> b[rank + 1..] == [];
      HitsOfAppend(Round([a, b], rank), RoundRobin([a, b], rank + 1));
    } else {
      InterleaveNothing();
    }
  }

  lemma InterleaveNothing()
    ensures Interleave([], []) == []
  {
  }

  lemma HitsOfAppend(a: seq<Scored>, b: seq<Scored>)
    ensures HitsOf(a + b) == HitsOf(a) + HitsOf(b)
  {
  }

  lemma {:induction false} InterleaveSize(a: seq<Hit>, b: seq<Hit>)
    ensures |Interleave(a, b)| == |a| + |b|
  {
    if a != [] && b != [] { InterleaveSize(a[1..], b[1..]); }
  }

  /** The lists differ in scores only. */
  ghost predicate Alike(a: seq<Hit>, b: seq<Hit>) {
    |a| == |b| && forall i :: 0 <= i < |a| ==> a[i] == b[i].(score := a[i].score)
  }

  /** The candidates of an overlay session are base and overlay hits in turns. */
  lemma CandidatesTakeTurns(s: Session, window: nat)
    requires SourcesApart(s)
    ensures Alike(Candidates(s, window), Turns(s, window))
  {
    hide HitIdentity, Fused, PerSource, TotalLength, Those, Interleave, DisjointLists, RoundRobin, SourcesApart;
    assert |s.sources| == 2 by { ApartHasTwo(s); }
    var a, b := Those(path => path !in s.tombstones, Top(s.sources[0].ranked, window)), Top(s.sources[1].ranked, window);
    TwoLists(s, window);
    DisjointListsInterleave([a, b], |a| + |b|);
    RobinTakesTurns(a, b, 0);
    assert (if 0 < |a| then a[0..] else []) == a && (if 0 < |b| then b[0..] else []) == b;
    InterleaveSize(a, b);
    NormalizedAlike(RoundRobin([a, b], 0));
  }

  lemma ApartHasTwo(s: Session)
    requires SourcesApart(s)
    ensures |s.sources| == 2
  {
  }

  lemma NormalizedAlike(entries: seq<Scored>)
    ensures Alike(Normalize(entries), HitsOf(entries))
  {
  }

  // ---- What is shown ---------------------------------------------------------------------------

  ghost predicate ShowsThese(shown: seq<SearchHit>, hits: seq<Hit>) {
    |shown| == |hits| && forall i :: 0 <= i < |shown| ==> SamePlace(shown[i], hits[i]) && shown[i].symbol == hits[i].symbol
  }

  lemma {:induction false} ShowsReadable(s: Session, cache: map<Path, Option<Bytes>>, hits: seq<Hit>, turns: seq<Hit>)
    requires Alike(hits, turns)
    ensures ShowsThese(Show(s, cache, hits), Those(path => Readable(s, cache, path), turns))
    decreases |hits|
  {
    var keep := (path: Path) => Readable(s, cache, path);
    if hits != [] {
      var front, last := turns[..|turns| - 1], turns[|turns| - 1];
      ShowsReadable(s, cache, hits[..|hits| - 1], front);
      assert turns == front + [last];
      ThoseAppend(keep, front, last);
    }
  }

  /**
   In an overlay session whose sources share nothing, the hits are, from the first on and up to the limit, those of the
   base and of the overlay in turns, the base first, whose file is in the read cache; unless a budget kept a file out,
   these are the hits whose file still has the manifest's hash.
   */
  lemma OverlayHitsTakeTurns(s: Session, limit: int)
    requires 1 <= limit <= 20 && SourcesApart(s)
    ensures |s.sources| == 2
    ensures var o := Searched(s, limit).value;
            var readable := Those(path => Readable(s, o.progress.cache, path), Turns(s, o.window));
            && ShowsThese(o.hits, readable[..Min(|readable|, limit)])
            && (!o.progress.exhausted ==> readable == Those(path => Current(s, path), Turns(s, o.window)))
  {
    hide *;
    ApartHasTwo(s);
    EndedWith(s, limit);
    var o := Searched(s, limit).value;
    CandidatesTakeTurns(s, o.window);
    ShowsReadable(s, o.progress.cache, Candidates(s, o.window), Turns(s, o.window));
    ShowsPrefix(Show(s, o.progress.cache, Candidates(s, o.window)), Those(path => Readable(s, o.progress.cache, path), Turns(s, o.window)), limit);
    if !o.progress.exhausted { ReadableAreCurrent(s, o.progress, Candidates(s, o.window), Turns(s, o.window)); }
  }

  lemma EndedWith(s: Session, limit: int)
    requires 1 <= limit <= 20
    ensures Searched(s, limit).Ok?
    ensures var o := Searched(s, limit).value;
            && ReadsOk(s, o.progress) && CountsOk(s, o.progress, Candidates(s, o.window))
            && o.hits == Prefix(Show(s, o.progress.cache, Candidates(s, o.window)), limit)
  {
    hide Searched, Candidates, ReadsOk, CountsOk;
    SearchStops(s, limit);
  }

  lemma ShowsPrefix(shown: seq<SearchHit>, hits: seq<Hit>, limit: nat)
    requires ShowsThese(shown, hits)
    ensures ShowsThese(Prefix(shown, limit), hits[..Min(|hits|, limit)])
  {
  }

  lemma ReadableAreCurrent(s: Session, p: Progress, fused: seq<Hit>, turns: seq<Hit>)
    requires ReadsOk(s, p) && CountsOk(s, p, fused) && !p.exhausted && Alike(fused, turns)
    ensures Those(path => Readable(s, p.cache, path), turns) == Those(path => Current(s, path), turns)
  {
    hide Readable, Current, ReadsOk, CountsOk, Those;
    forall h <- turns ensures Readable(s, p.cache, h.path) == Current(s, h.path) {
      var i :| 0 <= i < |turns| && turns[i] == h;
      assert fused[i] in fused && fused[i].path == h.path;
      ReadableIsCurrent(s, p, fused, fused[i]);
    }
    ThoseAgree(path => Readable(s, p.cache, path), path => Current(s, path), turns);
  }

  lemma ReadableIsCurrent(s: Session, p: Progress, hits: seq<Hit>, c: Hit)
    requires ReadsOk(s, p) && CountsOk(s, p, hits) && c in hits && !p.exhausted
    ensures Readable(s, p.cache, c.path) == Current(s, c.path)
  {
    if Current(s, c.path) { CachedWhenCurrent(s, p, hits, c); }
    if Readable(s, p.cache, c.path) { ReadableShows(s, p, c); }
  }
}
