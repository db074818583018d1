/**
 Which score and which place a hit has: told from the rankings of the sources alone, and for an overlay session as the
 round robin of base and overlay.
 */
module SearchRanks {
  import opened Wrappers
  import opened Contracts
  import opened Sorting
  import opened Fusion
  import opened Retrieval
  import opened Search
  import opened SearchProperties

  // ---- Places in a source ----------------------------------------------------------------------

  /** Position `k` of the ranking is inside the window and not a tombstoned base hit. */
  predicate Counts(s: Session, source: Source, k: nat) {
    k < |source.ranked| && !(source.isBase && source.ranked[k].path in s.tombstones)
  }

  /** The identities that stand before position `k`. */
  ghost function Before(s: Session, source: Source, k: nat): set<string> {
    set j: nat | j < k && Counts(s, source, j) :: HitIdentity(source.ranked[j])
  }

  /** Position `k` is the first of its identity. */
  ghost predicate FirstAt(s: Session, source: Source, k: nat, id: string) {
    Counts(s, source, k) && HitIdentity(source.ranked[k]) == id && id !in Before(s, source, k)
  }

  ghost predicate OfferedWithin(s: Session, source: Source, window: nat, id: string) {
    exists k: nat :: k < window && FirstAt(s, source, k, id)
  }

  /** 1 / (60 + place), where the place of an identity is that of its first position among the distinct ones. */
  ghost function Share(s: Session, source: Source, window: nat, id: string): real {
    if OfferedWithin(s, source, window, id) then
      var k: nat :| k < window && FirstAt(s, source, k, id);
      1.0 / (61 + |Before(s, source, k)|) as real
    else 0.0
  }

  ghost function Shares(s: Session, sources: seq<Source>, window: nat, id: string): real {
    if sources == [] then 0.0
    else Shares(s, sources[..|sources| - 1], window, id) + Share(s, sources[|sources| - 1], window, id)
  }

  lemma FirstIsUnique(s: Session, source: Source, j: nat, k: nat, id: string)
    requires FirstAt(s, source, j, id) && FirstAt(s, source, k, id)
    ensures j == k
  {
    hide HitIdentity;
  }

  lemma BeforeNext(s: Session, source: Source, k: nat)
    ensures Before(s, source, k + 1) == Before(s, source, k) + if Counts(s, source, k) then {HitIdentity(source.ranked[k])} else {}
  {
    hide HitIdentity;
  }

  lemma ShareNext(s: Session, source: Source, n: nat, id: string)
    ensures Share(s, source, n + 1, id) == Share(s, source, n, id)
            + if FirstAt(s, source, n, id) then 1.0 / (61 + |Before(s, source, n)|) as real else 0.0
  {
    hide HitIdentity, FirstAt, Before;
    forall j: nat, k: nat | FirstAt(s, source, j, id) && FirstAt(s, source, k, id) ensures j == k {
      FirstIsUnique(s, source, j, k, id);
    }
    if OfferedWithin(s, source, n + 1, id) {
      var k: nat :| k < n + 1 && FirstAt(s, source, k, id);
      assert k < n ==> OfferedWithin(s, source, n, id);
    }
  }

  // ---- What fusion makes of the places ---------------------------------------------------------

  lemma ListScoreAppend(hits: seq<Hit>, hit: Hit, id: string)
    ensures ListScore(hits + [hit], id) == ListScore(hits, id) + if HitIdentity(hit) == id then RankScore(|hits|) else 0.0
  {
    assert (hits + [hit])[..|hits|] == hits;
  }

  lemma CollectNext(s: Session, source: Source, raw: seq<Hit>, hit: Hit)
    ensures Collect(s, source, raw + [hit])
         == if Dropped(s, source, hit) || HitIdentity(hit) in HitIds(Collect(s, source, raw)) then Collect(s, source, raw)
            else Collect(s, source, raw) + [hit]
  {
    hide HitIdentity;
    assert (raw + [hit])[..|raw|] == raw;
    SameIdentities(Collect(s, source, raw));
  }

  /** The collected hits of the first `n` positions are the distinct undropped ones, and their scores are the shares. */
  lemma {:induction false} CollectedShares(s: Session, source: Source, n: nat, id: string)
    requires n <= |source.ranked|
    ensures var list := Collect(s, source, source.ranked[..n]);
            && HitIds(list) == Before(s, source, n) && |list| == |Before(s, source, n)|
            && ListScore(list, id) == Share(s, source, n, id)
  {
    hide HitIdentity, Collect, ListScore, Share, FirstAt, Before, HitIds, RankScore;
    if n == 0 {
      NothingCollected(s, source, id);
    } else {
      CollectedShares(s, source, n - 1, id);
      var front, hit := source.ranked[..n - 1], source.ranked[n - 1];
      assert source.ranked[..n] == front + [hit];
      CollectNext(s, source, front, hit);
      BeforeNext(s, source, n - 1);
      ShareNext(s, source, n - 1, id);
      FirstIs(s, source, n - 1, id);
      var list := Collect(s, source, front);
      ListScoreAppend(list, hit, id);
      IdsAppend(list, [hit]);
      OneId(hit);
      Ranking(|list|);
    }
  }

  lemma NothingCollected(s: Session, source: Source, id: string)
    ensures Collect(s, source, source.ranked[..0]) == [] && HitIds([]) == {} == Before(s, source, 0)
    ensures ListScore([], id) == 0.0 == Share(s, source, 0, id)
  {
  }

  lemma FirstIs(s: Session, source: Source, k: nat, id: string)
    ensures FirstAt(s, source, k, id) <==>
              k < |source.ranked| && !Dropped(s, source, source.ranked[k])
              && HitIdentity(source.ranked[k]) == id && HitIdentity(source.ranked[k]) !in Before(s, source, k)
    ensures k < |source.ranked| ==> (Counts(s, source, k) <==> !Dropped(s, source, source.ranked[k]))
  {
  }

  lemma OneId(hit: Hit)
    ensures HitIds([hit]) == {HitIdentity(hit)}
  {
    hide HitIdentity;
  }

  lemma Ranking(rank: nat)
    ensures RankScore(rank) == 1.0 / (61 + rank) as real
  {
  }

  lemma WindowIsPrefix(source: Source, window: nat)
    ensures Window(source, window) == source.ranked[..Min(window, |source.ranked|)]
  {
  }

  lemma BeyondTheEnd(s: Session, source: Source, window: nat, id: string)
    ensures Share(s, source, window, id) == Share(s, source, Min(window, |source.ranked|), id)
  {
    hide HitIdentity, Before;
    var end := Min(window, |source.ranked|);
    forall j: nat, k: nat | FirstAt(s, source, j, id) && FirstAt(s, source, k, id) ensures j == k {
      FirstIsUnique(s, source, j, k, id);
    }
    if OfferedWithin(s, source, window, id) {
      var k: nat :| k < window && FirstAt(s, source, k, id);
      assert k < end;
    }
  }

  lemma SourceShares(s: Session, source: Source, window: nat, id: string)
    ensures ListScore(Collect(s, source, Window(source, window)), id) == Share(s, source, window, id)
  {
    hide Share, Collect, ListScore, Before;
    WindowIsPrefix(source, window);
    BeyondTheEnd(s, source, window, id);
    CollectedShares(s, source, Min(window, |source.ranked|), id);
  }

  lemma {:induction false} TotalsAreShares(s: Session, sources: seq<Source>, window: nat, id: string)
    ensures TotalScore(PerSource(s, sources, window), id) == Shares(s, sources, window, id)
    decreases |sources|
  {
    hide Share, Collect, ListScore;
    if sources != [] {
      var front, last := sources[..|sources| - 1], sources[|sources| - 1];
      TotalsAreShares(s, front, window, id);
      SourceShares(s, last, window, id);
      var lists := PerSource(s, front, window);
      assert (lists + [Collect(s, last, Window(last, window))])[..|lists|] == lists;
    }
  }

  // ---- The score of a hit ----------------------------------------------------------------------

  function PlaceId(hit: SearchHit): string {
    HitIdentity(Hit(hit.path, hit.startLine, hit.endLine, "", "", "", 0.0))
  }

  /** The highest sum that any identity has. */
  ghost predicate IsBest(s: Session, window: nat, best: real) {
    && (forall id :: Shares(s, s.sources, window, id) <= best)
    && exists id :: Shares(s, s.sources, window, id) == best
  }

  /**
   Every hit of every search has as its score the sum, over the sources, of 1 / (60 + its place among the source's
   distinct undropped hits in the last window), relative to the highest such sum.
   */
  lemma HitScoresAreShares(s: Session, limit: int, hit: SearchHit) returns (best: real)
    requires 1 <= limit <= 20 && hit in Searched(s, limit).value.hits
    ensures var window := Searched(s, limit).value.window;
            && IsBest(s, window, best) && best > 0.0
            && hit.score == Shares(s, s.sources, window, PlaceId(hit)) / best
  {
    hide Candidates, Searched, Shares, HitIdentity, Show, ReadsOk;
    EndedHits(s, limit);
    var o := Searched(s, limit).value;
    var fused := Candidates(s, o.window);
    CandidatesRanked(s, o.window);
    ShowKeepsOrder(s, o.progress, fused);
    assert hit in Show(s, o.progress.cache, fused);
    var c :| c in fused && SamePlace(hit, c) && hit.score == c.score;
    SamePlaceId(hit, c);
    best := Shares(s, s.sources, o.window, HitIdentity(fused[0]));
    CandidateScores(s, o.window, c);
    forall id ensures Shares(s, s.sources, o.window, id) <= best {
      NoneIsBetter(s, o.window, id);
    }
  }

  lemma SamePlaceId(hit: SearchHit, c: Hit)
    requires SamePlace(hit, c)
    ensures PlaceId(hit) == HitIdentity(c)
  {
  }

  lemma CandidateScores(s: Session, window: nat, c: Hit)
    requires c in Candidates(s, window)
    ensures var best := Shares(s, s.sources, window, HitIdentity(Candidates(s, window)[0]));
            best > 0.0 && c.score == Shares(s, s.sources, window, HitIdentity(c)) / best
  {
    hide Shares, HitIdentity, Fused, TotalScore;
    var lists := PerSource(s, s.sources, window);
    FusedScoresAreTotals(lists, TotalLength(lists));
    TotalsAreShares(s, s.sources, window, HitIdentity(c));
    TotalsAreShares(s, s.sources, window, HitIdentity(Candidates(s, window)[0]));
  }

  /** Nothing has a higher sum than the first candidate. */
  lemma NoneIsBetter(s: Session, window: nat, id: string)
    requires Candidates(s, window) != []
    ensures Shares(s, s.sources, window, id) <= Shares(s, s.sources, window, HitIdentity(Candidates(s, window)[0]))
  {
    hide Shares, HitIdentity, Candidates, TotalScore;
    var fused := Candidates(s, window);
    TotalsAreShares(s, s.sources, window, id);
    CandidateScores(s, window, fused[0]);
    CandidatesRanked(s, window);
    if id in HitIds(fused) {
      var c :| c in fused && HitIdentity(c) == id;
      var i :| 0 <= i < |fused| && fused[i] == c;
      CandidateScores(s, window, c);
      Dividing(Shares(s, s.sources, window, id), Shares(s, s.sources, window, HitIdentity(fused[0])), c.score);
    } else {
      NotOffered(s, window, id);
    }
  }

  lemma Dividing(a: real, b: real, q: real)
    requires b > 0.0 && q == a / b && q <= b / b
    ensures a <= b
  {
    assert q * b == a && (b / b) * b == b;
  }

  lemma NotOffered(s: Session, window: nat, id: string)
    requires id !in HitIds(Candidates(s, window))
    ensures TotalScore(PerSource(s, s.sources, window), id) == 0.0
  {
    hide HitIdentity, Fused;
    var lists := PerSource(s, s.sources, window);
    AddListsLength(lists);
    FusedIsRanked(lists, TotalLength(lists));
    AbsentHasNoScore(lists, id);
  }

  lemma {:induction false} AbsentHasNoScore(lists: seq<seq<Hit>>, id: string)
    requires id !in ListIds(lists)
    ensures TotalScore(lists, id) == 0.0
    decreases |lists|
  {
    hide HitIdentity;
    if lists != [] {
      var front, last := lists[..|lists| - 1], lists[|lists| - 1];
      assert lists == front + [last];
      assert last in lists && forall l <- front :: l in lists;
      AbsentHasNoScore(front, id);
      AbsentHasNoListScore(last, id);
    }
  }

  lemma {:induction false} AbsentHasNoListScore(hits: seq<Hit>, id: string)
    requires id !in HitIds(hits)
    ensures ListScore(hits, id) == 0.0
    decreases |hits|
  {
    hide HitIdentity;
    if hits != [] {
      assert hits[|hits| - 1] in hits && forall h <- hits[..|hits| - 1] :: h in hits;
      AbsentHasNoListScore(hits[..|hits| - 1], id);
    }
  }

  // ---- Which of several equal places a hit shows -----------------------------------------------

  function Flat(lists: seq<seq<Hit>>): seq<Hit> {
    if lists == [] then [] else Flat(lists[..|lists| - 1]) + lists[|lists| - 1]
  }

  /** The hit is the first of its identity in the list. */
  ghost predicate FirstOf(hits: seq<Hit>, h: Hit) {
    exists k :: 0 <= k < |hits| && hits[k] == h && forall j :: 0 <= j < k ==> HitIdentity(hits[j]) != HitIdentity(h)
  }

  ghost predicate KeepsFirst(entries: seq<Scored>, seen: seq<Hit>) {
    EntriesOk(entries) && EntryIds(entries) == HitIds(seen) && forall e <- entries :: FirstOf(seen, e.hit)
  }

  lemma AddKeepsFirst(entries: seq<Scored>, seen: seq<Hit>, hit: Hit, rank: nat)
    requires KeepsFirst(entries, seen)
    ensures KeepsFirst(Add(entries, hit, rank), seen + [hit])
  {
    AddOk(entries, hit, rank);
    IdsAppend(seen, [hit]);
    OneId(hit);
    hide HitIdentity, EntriesOk, RankScore;
    forall e <- Add(entries, hit, rank) ensures FirstOf(seen + [hit], e.hit) {
      if FirstOf(seen, e.hit) {
        FirstStays(seen, hit, e.hit);
      } else {
        assert e.hit == hit && HitIdentity(hit) !in EntryIds(entries);
        NewIsFirst(seen, hit);
      }
    }
  }

  lemma FirstStays(seen: seq<Hit>, hit: Hit, h: Hit)
    requires FirstOf(seen, h)
    ensures FirstOf(seen + [hit], h)
  {
    hide HitIdentity;
    var k :| 0 <= k < |seen| && seen[k] == h && forall j :: 0 <= j < k ==> HitIdentity(seen[j]) != HitIdentity(h);
    assert (seen + [hit])[k] == h;
  }

  lemma NewIsFirst(seen: seq<Hit>, hit: Hit)
    requires HitIdentity(hit) !in HitIds(seen)
    ensures FirstOf(seen + [hit], hit)
  {
    hide HitIdentity;
    forall j | 0 <= j < |seen| ensures HitIdentity(seen[j]) != HitIdentity(hit) { assert seen[j] in seen; }
    assert (seen + [hit])[|seen|] == hit;
  }

  lemma {:induction false} AddListKeepsFirst(entries: seq<Scored>, seen: seq<Hit>, hits: seq<Hit>)
    requires KeepsFirst(entries, seen)
    ensures KeepsFirst(AddList(entries, hits), seen + hits)
    decreases |hits|
  {
    hide KeepsFirst, Add, HitIdentity;
    if hits == [] {
      assert seen + hits == seen;
    } else {
      var front, last := hits[..|hits| - 1], hits[|hits| - 1];
      AddListKeepsFirst(entries, seen, front);
      AddKeepsFirst(AddList(entries, front), seen + front, last, |hits| - 1);
      assert (seen + front) + [last] == seen + hits;
    }
  }

  lemma {:induction false} AddListsKeepFirst(lists: seq<seq<Hit>>)
    ensures KeepsFirst(AddLists([], lists), Flat(lists))
    decreases |lists|
  {
    hide AddList, HitIdentity;
    if lists != [] {
      AddListsKeepFirst(lists[..|lists| - 1]);
      AddListKeepsFirst(AddLists([], lists[..|lists| - 1]), Flat(lists[..|lists| - 1]), lists[|lists| - 1]);
    }
  }

  /** Every candidate is the first hit of its identity over all sources, apart from its score. */
  lemma CandidateIsFirst(s: Session, window: nat, c: Hit)
    requires c in Candidates(s, window)
    ensures exists score :: FirstOf(Flat(PerSource(s, s.sources, window)), c.(score := score))
  {
    hide HitIdentity, AddLists, StableSort, PerSource, EntriesOk;
    var lists := PerSource(s, s.sources, window);
    AddListsKeepFirst(lists);
    var entries := AddLists([], lists);
    SortedEntriesOk(entries);
    StableSortSorts(HigherFirst(), entries) by { HigherFirstIsOrder(); }
    var sorted := StableSort(HigherFirst(), entries);
    var top := if |sorted| <= TotalLength(lists) then sorted else sorted[..TotalLength(lists)];
    var i :| 0 <= i < |Candidates(s, window)| && Candidates(s, window)[i] == c;
    assert sorted[i] in multiset(sorted);
    assert sorted[i] in entries && c == sorted[i].hit.(score := c.score);
    assert c.(score := sorted[i].hit.score) == sorted[i].hit;
  }

  /** The hit stands in a source, inside the window, before every other place of its identity in this or a later source. */
  ghost predicate FirstOffered(s: Session, window: nat, i: nat, k: nat, path: Path, startLine: nat, endLine: nat, symbol: string) {
    && i < |s.sources| && k < window && k < |s.sources[i].ranked|
    && var h := s.sources[i].ranked[k];
       && h.path == path && h.startLine == startLine && h.endLine == endLine && h.symbol == symbol
       && FirstAt(s, s.sources[i], k, HitIdentity(h))
       && forall j :: 0 <= j < i ==> !OfferedWithin(s, s.sources[j], window, HitIdentity(h))
  }

  lemma {:induction false} FirstInSource(s: Session, source: Source, n: nat, h: Hit) returns (k: nat)
    requires n <= |source.ranked| && h in Collect(s, source, source.ranked[..n])
    ensures k < n && source.ranked[k] == h && FirstAt(s, source, k, HitIdentity(h))
  {
    hide HitIdentity, FirstAt, Before;
    var front, hit := source.ranked[..n - 1], source.ranked[n - 1];
    assert source.ranked[..n] == front + [hit];
    CollectNext(s, source, front, hit);
    if h in Collect(s, source, front) {
      k := FirstInSource(s, source, n - 1, h);
    } else {
      k := n - 1;
      CollectedShares(s, source, n - 1, HitIdentity(h));
      FirstIs(s, source, n - 1, HitIdentity(h));
    }
  }

  lemma {:induction false} FirstInSources(s: Session, sources: seq<Source>, window: nat, h: Hit) returns (i: nat, k: nat)
    requires FirstOf(Flat(PerSource(s, sources, window)), h)
    ensures i < |sources| && k < window && k < |sources[i].ranked| && sources[i].ranked[k] == h
    ensures FirstAt(s, sources[i], k, HitIdentity(h))
    ensures forall j :: 0 <= j < i ==> !OfferedWithin(s, sources[j], window, HitIdentity(h))
    decreases |sources|
  {
    hide HitIdentity, FirstAt, Collect, OfferedWithin;
    var front, last := sources[..|sources| - 1], sources[|sources| - 1];
    var lists, list := PerSource(s, front, window), Collect(s, last, Window(last, window));
    FlatNext(s, sources, window);
    if FirstOf(Flat(lists), h) {
      i, k := FirstInSources(s, front, window, h);
    } else {
      FirstInTail(Flat(lists), list, h);
      WindowIsPrefix(last, window);
      k := FirstInSource(s, last, Min(window, |last.ranked|), h);
      i := |front|;
      forall j | 0 <= j < i ensures !OfferedWithin(s, sources[j], window, HitIdentity(h)) {
        if OfferedWithin(s, front[j], window, HitIdentity(h)) { OfferedIsListed(s, front, window, j, HitIdentity(h)); }
      }
    }
  }

  lemma FlatNext(s: Session, sources: seq<Source>, window: nat)
    ensures var lists := PerSource(s, sources, window);
            if sources == [] then Flat(lists) == []
            else
              var front, last := sources[..|sources| - 1], sources[|sources| - 1];
              Flat(lists) == Flat(PerSource(s, front, window)) + Collect(s, last, Window(last, window))
  {
    hide Collect;
    if sources != [] {
      var lists := PerSource(s, sources, window);
      assert lists[..|lists| - 1] == PerSource(s, sources[..|sources| - 1], window);
    }
  }

  lemma FirstInTail(a: seq<Hit>, b: seq<Hit>, h: Hit)
    requires FirstOf(a + b, h) && !FirstOf(a, h)
    ensures h in b && HitIdentity(h) !in HitIds(a)
  {
    hide HitIdentity;
    var k :| 0 <= k < |a + b| && (a + b)[k] == h && forall j :: 0 <= j < k ==> HitIdentity((a + b)[j]) != HitIdentity(h);
    assert forall j :: 0 <= j < |a| && j < k ==> (a + b)[j] == a[j];
    assert k >= |a|;
    assert b[k - |a|] == h;
  }

  lemma {:induction false} OfferedIsListed(s: Session, sources: seq<Source>, window: nat, j: nat, id: string)
    requires j < |sources| && OfferedWithin(s, sources[j], window, id)
    ensures id in HitIds(Flat(PerSource(s, sources, window)))
    decreases |sources|
  {
    hide HitIdentity, Collect, FirstAt, OfferedWithin, HitIds;
    var front, last := sources[..|sources| - 1], sources[|sources| - 1];
    FlatNext(s, sources, window);
    IdsAppend(Flat(PerSource(s, front, window)), Collect(s, last, Window(last, window)));
    if j < |front| {
      assert front[j] == sources[j];
      OfferedIsListed(s, front, window, j, id);
    } else {
      OfferedIsCollected(s, last, window, id);
    }
  }

  lemma OfferedIsCollected(s: Session, source: Source, window: nat, id: string)
    requires OfferedWithin(s, source, window, id)
    ensures id in HitIds(Collect(s, source, Window(source, window)))
  {
    hide HitIdentity, Collect, HitIds;
    var k: nat :| k < window && FirstAt(s, source, k, id);
    WindowIsPrefix(source, window);
    CollectedShares(s, source, Min(window, |source.ranked|), id);
    assert id in Before(s, source, Min(window, |source.ranked|));
  }

  /** Every hit shows the lines and the symbol of the first place its identity has, in the first source that offers it. */
  lemma HitIsFirstOffered(s: Session, limit: int, hit: SearchHit) returns (i: nat, k: nat)
    requires 1 <= limit <= 20 && hit in Searched(s, limit).value.hits
    ensures FirstOffered(s, Searched(s, limit).value.window, i, k, hit.path, hit.startLine, hit.endLine, hit.symbol)
  {
    hide Candidates, Searched, HitIdentity, Show, ReadsOk, FirstAt, OfferedWithin, FirstOf, Flat, PerSource;
    EndedHits(s, limit);
    var o := Searched(s, limit).value;
    var fused := Candidates(s, o.window);
    assert hit in Show(s, o.progress.cache, fused);
    var c := ShownFrom(s, o.progress.cache, fused, hit);
    CandidateIsFirst(s, o.window, c);
    var score :| FirstOf(Flat(PerSource(s, s.sources, o.window)), c.(score := score));
    i, k := FirstInSources(s, s.sources, o.window, c.(score := score));
  }

  lemma {:induction false} ShownFrom(s: Session, cache: map<Path, Option<Bytes>>, hits: seq<Hit>, hit: SearchHit) returns (c: Hit)
    requires hit in Show(s, cache, hits)
    ensures c in hits && SamePlace(hit, c) && hit.symbol == c.symbol && hit.score == c.score
    decreases |hits|
  {
    var front, last := hits[..|hits| - 1], hits[|hits| - 1];
    if hit in Show(s, cache, front) {
      c := ShownFrom(s, cache, front, hit);
    } else {
      c := last;
    }
  }
}
