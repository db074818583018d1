/**
 Reciprocal rank fusion of ranked hit lists: score accumulation, stable ordering and normalization.
 */
module Fusion {
  import opened Wrappers
  import opened Contracts
  import opened Sorting
  import opened IndexRows

  datatype Hit = Hit(path: Path, startLine: nat, endLine: nat, symbol: string, language: string, content: string, score: real)

  const RRF_K := 60

  function HitIdentity(hit: Hit): string {
    hit.path + "#" + Decimal(hit.startLine) + "#" + Decimal(hit.endLine)
  }

  /** Two hits have the same identity only when they name the same lines of the same path. */
  lemma IdentityIsInjective(a: Hit, b: Hit)
    ensures HitIdentity(a) == HitIdentity(b) <==> a.path == b.path && a.startLine == b.startLine && a.endLine == b.endLine
  {
    assert HitIdentity(a) == MakeCodeChunkId(MakeCodeChunkId(a.path, a.startLine), a.endLine);
    assert HitIdentity(b) == MakeCodeChunkId(MakeCodeChunkId(b.path, b.startLine), b.endLine);
    ChunkIdIsInjective(MakeCodeChunkId(a.path, a.startLine), a.endLine, MakeCodeChunkId(b.path, b.startLine), b.endLine);
    ChunkIdIsInjective(a.path, a.startLine, b.path, b.startLine);
  }

  /** What the hit at position `rank` of a list contributes. */
  function RankScore(rank: nat): (score: real)
    ensures 0.0 < score <= 1.0 / 61.0
  {
    1.0 / (RRF_K + rank + 1) as real
  }

  lemma RankScoreDecreases(i: nat, j: nat)
    ensures i < j <==> RankScore(j) < RankScore(i)
    ensures RankScore(i) == RankScore(j) <==> i == j
  {
    var a, b := (RRF_K + i + 1) as real, (RRF_K + j + 1) as real;
    if i < j { Reciprocals(a, b); }
    if j < i { Reciprocals(b, a); }
  }

  lemma Reciprocals(a: real, b: real)
    requires 0.0 < a < b
    ensures 1.0 / b < 1.0 / a
  {
    assert (1.0 / a) * a == 1.0 && (1.0 / b) * b == 1.0;
  }

  // ---- Accumulating scores ---------------------------------------------------------------------

  datatype Scored = Scored(score: real, hit: Hit)

  /** Entries in insertion order, as a JavaScript map keeps them. */
  function Position(entries: seq<Scored>, identity: string): nat
    ensures Position(entries, identity) <= |entries|
    ensures Position(entries, identity) < |entries| ==> HitIdentity(entries[Position(entries, identity)].hit) == identity
    ensures forall i :: 0 <= i < Position(entries, identity) ==> HitIdentity(entries[i].hit) != identity
  {
    if entries == [] then 0
    else if HitIdentity(entries[0].hit) == identity then 0
    else 1 + Position(entries[1..], identity)
  }

  /** A known identity gains score; a new one is appended with its first hit. */
  function Add(entries: seq<Scored>, hit: Hit, rank: nat): seq<Scored> {
    var at := Position(entries, HitIdentity(hit));
    if at < |entries| then entries[at := entries[at].(score := entries[at].score + RankScore(rank))]
    else entries + [Scored(RankScore(rank), hit)]
  }

  function AddList(entries: seq<Scored>, hits: seq<Hit>): seq<Scored> {
    if hits == [] then entries else Add(AddList(entries, hits[..|hits| - 1]), hits[|hits| - 1], |hits| - 1)
  }

  function AddLists(entries: seq<Scored>, lists: seq<seq<Hit>>): seq<Scored> {
    if lists == [] then entries else AddList(AddLists(entries, lists[..|lists| - 1]), lists[|lists| - 1])
  }

  function HigherFirst(): (Scored, Scored) -> bool {
    (a: Scored, b: Scored) => a.score >= b.score
  }

  function Normalize(entries: seq<Scored>): seq<Hit> {
    if entries == [] then []
    else
      var top := entries[0].score;
      if top <= 0.0 then seq(|entries|, i requires 0 <= i < |entries| => entries[i].hit.(score := 0.0))
      else seq(|entries|, i requires 0 <= i < |entries| => entries[i].hit.(score := entries[i].score / top))
  }

  function Fused(lists: seq<seq<Hit>>, limit: nat): seq<Hit> {
    var sorted := StableSort(HigherFirst(), AddLists([], lists));
    Normalize(if |sorted| <= limit then sorted else sorted[..limit])
  }

  method ReciprocalRankFuse(lists: seq<seq<Hit>>, limit: nat) returns (fused: seq<Hit>)
    ensures fused == Fused(lists, limit)
  {
    hide HitIdentity, RankScore;
    var scoreMap: seq<Scored> := [];
    for l := 0 to |lists|
      invariant scoreMap == AddLists([], lists[..l])
    {
      var hits := lists[l];
      assert lists[..l + 1][..l] == lists[..l];
      ghost var before := scoreMap;
      for i := 0 to |hits|
        invariant scoreMap == AddList(before, hits[..i])
      {
        assert hits[..i + 1][..i] == hits[..i];
        var at := Position(scoreMap, HitIdentity(hits[i]));
        var rrf := RankScore(i);
        if at < |scoreMap| {
          scoreMap := scoreMap[at := scoreMap[at].(score := scoreMap[at].score + rrf)];
        } else {
          scoreMap := scoreMap + [Scored(rrf, hits[i])];
        }
      }
      assert hits[..|hits|] == hits;
    }
    assert lists[..|lists|] == lists;
    var sorted := StableSort(HigherFirst(), scoreMap);
    var top := if |sorted| <= limit then sorted else sorted[..limit];
    fused := Normalize(top);
  }

  // ---- Identities ------------------------------------------------------------------------------

  ghost predicate DistinctEntries(entries: seq<Scored>) {
    forall i, j :: 0 <= i < j < |entries| ==> HitIdentity(entries[i].hit) != HitIdentity(entries[j].hit)
  }

  ghost predicate DistinctHits(hits: seq<Hit>) {
    forall i, j :: 0 <= i < j < |hits| ==> HitIdentity(hits[i]) != HitIdentity(hits[j])
  }

  ghost function EntryIds(entries: seq<Scored>): set<string> {
    set e | e in entries :: HitIdentity(e.hit)
  }

  ghost function HitIds(hits: seq<Hit>): set<string> {
    set h | h in hits :: HitIdentity(h)
  }

  ghost function ListIds(lists: seq<seq<Hit>>): set<string> {
    set l, h | l in lists && h in l :: HitIdentity(h)
  }

  /** Entries have distinct identities and positive scores. */
  ghost predicate EntriesOk(entries: seq<Scored>) {
    DistinctEntries(entries) && forall e <- entries :: e.score > 0.0
  }

  lemma AddOk(entries: seq<Scored>, hit: Hit, rank: nat)
    requires EntriesOk(entries)
    ensures EntriesOk(Add(entries, hit, rank))
    ensures EntryIds(Add(entries, hit, rank)) == EntryIds(entries) + {HitIdentity(hit)}
  {
    hide HitIdentity;
    var at, after := Position(entries, HitIdentity(hit)), Add(entries, hit, rank);
    if at < |entries| {
      assert after[at].hit == entries[at].hit;
      forall e <- entries ensures HitIdentity(e.hit) in EntryIds(after) {
        var i :| 0 <= i < |entries| && entries[i] == e;
        assert after[i].hit == e.hit && after[i] in after;
      }
      forall e <- after ensures HitIdentity(e.hit) in EntryIds(entries) && e.score > 0.0 {
        var i :| 0 <= i < |after| && after[i] == e;
        assert entries[i].hit == e.hit && entries[i] in entries;
      }
      assert entries[at] in entries;
    } else {
      assert after == entries + [Scored(RankScore(rank), hit)];
    }
  }

  lemma {:induction false} AddListOk(entries: seq<Scored>, hits: seq<Hit>)
    requires EntriesOk(entries)
    ensures EntriesOk(AddList(entries, hits))
    ensures EntryIds(AddList(entries, hits)) == EntryIds(entries) + HitIds(hits)
    decreases |hits|
  {
    hide EntriesOk, EntryIds, Add, HitIdentity;
    if hits != [] {
      var front, last := hits[..|hits| - 1], hits[|hits| - 1];
      AddListOk(entries, front);
      AddOk(AddList(entries, front), last, |hits| - 1);
      assert hits == front + [last];
      assert HitIds(hits) == HitIds(front) + {HitIdentity(last)};
    }
  }

  lemma {:induction false} AddListsOk(lists: seq<seq<Hit>>)
    ensures EntriesOk(AddLists([], lists))
    ensures EntryIds(AddLists([], lists)) == ListIds(lists)
    decreases |lists|
  {
    hide AddList, HitIdentity;
    if lists != [] {
      var front, last := lists[..|lists| - 1], lists[|lists| - 1];
      AddListsOk(front);
      AddListOk(AddLists([], front), last);
      assert lists == front + [last];
      assert ListIds(lists) == ListIds(front) + HitIds(last);
    }
  }

  lemma HigherFirstIsOrder()
    ensures TotalPreorder(HigherFirst())
  {
  }

  lemma SortedEntriesOk(entries: seq<Scored>)
    requires EntriesOk(entries)
    ensures var sorted := StableSort(HigherFirst(), entries);
            EntriesOk(sorted) && EntryIds(sorted) == EntryIds(entries) && SortedBy(HigherFirst(), sorted)
  {
    hide HitIdentity;
    HigherFirstIsOrder();
    StableSortSorts(HigherFirst(), entries);
    StableSortKeepsDistinct(HigherFirst(), entries);
    var sorted := StableSort(HigherFirst(), entries);
    hide StableSort;
    forall i, j | 0 <= i < j < |sorted| ensures HitIdentity(sorted[i].hit) != HitIdentity(sorted[j].hit) {
      assert sorted[i] in entries && sorted[j] in entries && sorted[i] != sorted[j];
    }
  }

  /**
   The fused list never repeats an identity, runs from score 1 downwards, never reaches 0, and with a limit that
   covers every candidate contains exactly the identities of the lists.
   */
  lemma FusedIsRanked(lists: seq<seq<Hit>>, limit: nat)
    ensures var fused := Fused(lists, limit);
            && DistinctHits(fused)
            && (forall i, j :: 0 <= i < j < |fused| ==> fused[i].score >= fused[j].score)
            && (forall h <- fused :: 0.0 < h.score <= 1.0)
            && (fused != [] ==> fused[0].score == 1.0)
            && HitIds(fused) <= ListIds(lists)
            && (|AddLists([], lists)| <= limit ==> HitIds(fused) == ListIds(lists))
  {
    AddListsOk(lists);
    var entries := AddLists([], lists);
    SortedEntriesOk(entries);
    var sorted := StableSort(HigherFirst(), entries);
    hide StableSort, AddLists;
    var top := if |sorted| <= limit then sorted else sorted[..limit];
    NormalizeKeepsOrder(top);
    assert |sorted| == |entries|;
    assert EntryIds(top) <= EntryIds(sorted);
  }

  lemma NormalizeKeepsOrder(top: seq<Scored>)
    requires EntriesOk(top) && SortedBy(HigherFirst(), top)
    ensures var hits := Normalize(top);
            && |hits| == |top| && (forall i :: 0 <= i < |top| ==> HitIdentity(hits[i]) == HitIdentity(top[i].hit))
            && DistinctHits(hits) && HitIds(hits) == EntryIds(top)
            && (forall i, j :: 0 <= i < j < |hits| ==> hits[i].score >= hits[j].score)
            && (forall h <- hits :: 0.0 < h.score <= 1.0)
            && (hits != [] ==> hits[0].score == 1.0)
  {
    hide Normalize, HitIdentity;
    var hits := Normalize(top);
    NormalizedLength(top);
    forall i | 0 <= i < |top|
      ensures 0.0 < hits[i].score <= 1.0 && HitIdentity(hits[i]) == HitIdentity(top[i].hit)
    {
      NormalizedAt(top, i);
    }
    forall i, j | 0 <= i < j < |hits| ensures hits[i].score >= hits[j].score {
      NormalizedAt(top, i);
      NormalizedAt(top, j);
      assert HigherFirst()(top[i], top[j]) && top[0] in top;
      QuotientOrder(top[i].score, top[j].score, top[0].score);
    }
    SameIds(hits, top);
    if top != [] { NormalizedAt(top, 0); }
  }

  lemma NormalizedLength(top: seq<Scored>)
    ensures |Normalize(top)| == |top|
  {
  }

  lemma NormalizedAt(top: seq<Scored>, i: nat)
    requires EntriesOk(top) && SortedBy(HigherFirst(), top) && i < |top|
    ensures |Normalize(top)| == |top|
    ensures Normalize(top)[i].score == top[i].score / top[0].score && 0.0 < Normalize(top)[i].score <= 1.0
    ensures i == 0 ==> Normalize(top)[i].score == 1.0
    ensures HitIdentity(Normalize(top)[i]) == HitIdentity(top[i].hit)
  {
    hide HitIdentity;
    assert top[0] in top && top[i] in top;
    if i > 0 { assert HigherFirst()(top[0], top[i]); }
    Quotient(top[i].score, top[0].score);
    SameLines(Normalize(top)[i], top[i].hit);
  }

  lemma SameLines(a: Hit, b: Hit)
    requires a == b.(score := a.score)
    ensures HitIdentity(a) == HitIdentity(b)
  {
  }

  lemma SameIds(hits: seq<Hit>, top: seq<Scored>)
    requires |hits| == |top| && forall i :: 0 <= i < |top| ==> HitIdentity(hits[i]) == HitIdentity(top[i].hit)
    ensures HitIds(hits) == EntryIds(top)
  {
    hide HitIdentity;
    forall h <- hits ensures HitIdentity(h) in EntryIds(top) {
      var i :| 0 <= i < |hits| && hits[i] == h;
      assert top[i] in top;
    }
    forall e <- top ensures HitIdentity(e.hit) in HitIds(hits) {
      var i :| 0 <= i < |top| && top[i] == e;
      assert hits[i] in hits;
    }
  }

  lemma Quotient(a: real, b: real)
    requires 0.0 < a <= b
    ensures 0.0 < a / b <= 1.0
  {
    assert (a / b) * b == a;
  }

  lemma QuotientOrder(a: real, c: real, b: real)
    requires 0.0 < b && c <= a
    ensures c / b <= a / b
  {
    assert (a / b) * b == a && (c / b) * b == c;
  }

  // ---- Scores ----------------------------------------------------------------------------------

  ghost function ListScore(hits: seq<Hit>, identity: string): real {
    if hits == [] then 0.0
    else ListScore(hits[..|hits| - 1], identity)
         + if HitIdentity(hits[|hits| - 1]) == identity then RankScore(|hits| - 1) else 0.0
  }

  /** The sum of 1 / (60 + position) over every place where the identity stands in some list. */
  ghost function TotalScore(lists: seq<seq<Hit>>, identity: string): real {
    if lists == [] then 0.0
    else TotalScore(lists[..|lists| - 1], identity) + ListScore(lists[|lists| - 1], identity)
  }

  function EntryScore(entries: seq<Scored>, identity: string): real {
    var at := Position(entries, identity);
    if at < |entries| then entries[at].score else 0.0
  }

  lemma PositionIs(entries: seq<Scored>, i: nat)
    requires i < |entries| && DistinctEntries(entries)
    ensures Position(entries, HitIdentity(entries[i].hit)) == i
  {
  }

  lemma AddScore(entries: seq<Scored>, hit: Hit, rank: nat, identity: string)
    requires EntriesOk(entries)
    ensures EntryScore(Add(entries, hit, rank), identity)
         == EntryScore(entries, identity) + if HitIdentity(hit) == identity then RankScore(rank) else 0.0
  {
    AddOk(entries, hit, rank);
    hide HitIdentity, RankScore;
    var after, at := Add(entries, hit, rank), Position(entries, identity);
    if at < |entries| {
      assert after[at].hit == entries[at].hit;
      PositionIs(after, at);
    } else if HitIdentity(hit) == identity {
      PositionIs(after, |entries|);
    } else {
      forall i | 0 <= i < |after| ensures HitIdentity(after[i].hit) != identity {
        if i < |entries| { assert after[i].hit == entries[i].hit; }
      }
      assert Position(after, identity) == |after|;
    }
  }

  lemma {:induction false} AddListScore(entries: seq<Scored>, hits: seq<Hit>, identity: string)
    requires EntriesOk(entries)
    ensures EntryScore(AddList(entries, hits), identity) == EntryScore(entries, identity) + ListScore(hits, identity)
    decreases |hits|
  {
    hide EntriesOk, Add, HitIdentity, RankScore, EntryScore;
    if hits != [] {
      var front := hits[..|hits| - 1];
      AddListScore(entries, front, identity);
      AddListOk(entries, front);
      AddScore(AddList(entries, front), hits[|hits| - 1], |hits| - 1, identity);
    }
  }

  lemma {:induction false} AddListsScore(lists: seq<seq<Hit>>, identity: string)
    ensures EntryScore(AddLists([], lists), identity) == TotalScore(lists, identity)
    decreases |lists|
  {
    hide EntriesOk, AddList, HitIdentity;
    if lists != [] {
      var front := lists[..|lists| - 1];
      AddListsScore(front, identity);
      AddListsOk(front);
      AddListScore(AddLists([], front), lists[|lists| - 1], identity);
    }
  }

  lemma EntryHasTotalScore(lists: seq<seq<Hit>>, e: Scored)
    requires e in AddLists([], lists)
    ensures e.score == TotalScore(lists, HitIdentity(e.hit))
  {
    var entries := AddLists([], lists);
    AddListsOk(lists);
    AddListsScore(lists, HitIdentity(e.hit));
    hide AddLists, HitIdentity, TotalScore;
    var i :| 0 <= i < |entries| && entries[i] == e;
    PositionIs(entries, i);
  }

  lemma SortedTotals(lists: seq<seq<Hit>>)
    ensures var sorted := StableSort(HigherFirst(), AddLists([], lists));
            && EntriesOk(sorted) && SortedBy(HigherFirst(), sorted) && EntryIds(sorted) == ListIds(lists)
            && forall i :: 0 <= i < |sorted| ==> sorted[i].score == TotalScore(lists, HitIdentity(sorted[i].hit))
  {
    AddListsOk(lists);
    var entries := AddLists([], lists);
    SortedEntriesOk(entries);
    StableSortSorts(HigherFirst(), entries);
    var sorted := StableSort(HigherFirst(), entries);
    assert multiset(sorted) == multiset(entries);
    hide StableSort, AddLists, HitIdentity, TotalScore, EntriesOk;
    forall i | 0 <= i < |sorted| ensures sorted[i].score == TotalScore(lists, HitIdentity(sorted[i].hit)) {
      assert sorted[i] in multiset(sorted);
      EntryHasTotalScore(lists, sorted[i]);
    }
  }

  /** Every fused score is the identity's total relative to the best total. */
  lemma FusedScoresAreTotals(lists: seq<seq<Hit>>, limit: nat)
    ensures var fused := Fused(lists, limit);
            forall h <- fused ::
              && TotalScore(lists, HitIdentity(fused[0])) > 0.0
              && h.score == TotalScore(lists, HitIdentity(h)) / TotalScore(lists, HitIdentity(fused[0]))
  {
    SortedTotals(lists);
    var sorted, fused := StableSort(HigherFirst(), AddLists([], lists)), Fused(lists, limit);
    hide StableSort, AddLists, HitIdentity, TotalScore;
    var top := if |sorted| <= limit then sorted else sorted[..limit];
    NormalizeKeepsOrder(top);
    forall h <- fused ensures TotalScore(lists, HitIdentity(fused[0])) > 0.0
                           && h.score == TotalScore(lists, HitIdentity(h)) / TotalScore(lists, HitIdentity(fused[0]))
    {
      var i :| 0 <= i < |fused| && fused[i] == h;
      assert top[i] == sorted[i] && top[0] == sorted[0] && sorted[0] in sorted;
    }
  }

  /** No identity left out by the limit has a higher total than one that was kept. */
  lemma FusedKeepsTheBest(lists: seq<seq<Hit>>, limit: nat, h: Hit, id: string)
    requires h in Fused(lists, limit) && id in ListIds(lists) - HitIds(Fused(lists, limit))
    ensures TotalScore(lists, id) <= TotalScore(lists, HitIdentity(h))
  {
    SortedTotals(lists);
    var sorted, fused := StableSort(HigherFirst(), AddLists([], lists)), Fused(lists, limit);
    hide StableSort, AddLists, HitIdentity, TotalScore;
    var top := if |sorted| <= limit then sorted else sorted[..limit];
    NormalizeKeepsOrder(top);
    var i :| 0 <= i < |fused| && fused[i] == h;
    var e :| e in sorted && HitIdentity(e.hit) == id;
    var j :| 0 <= j < |sorted| && sorted[j] == e;
    assert e !in top;
    assert HigherFirst()(sorted[i], sorted[j]);
  }

  // ---- Disjoint lists --------------------------------------------------------------------------

  /** No identity occurs twice, neither inside a list nor in two lists. */
  ghost predicate DisjointLists(lists: seq<seq<Hit>>) {
    && (forall l <- lists :: DistinctHits(l))
    && (forall k, l :: 0 <= k < l < |lists| ==> HitIds(lists[k]) !! HitIds(lists[l]))
  }

  function Ranked(hits: seq<Hit>): (r: seq<Scored>)
    ensures |r| == |hits|
  {
    seq(|hits|, i requires 0 <= i < |hits| => Scored(RankScore(i), hits[i]))
  }

  /** The hits of one rank, earlier lists first. */
  function Round(lists: seq<seq<Hit>>, rank: nat): seq<Scored> {
    if lists == [] then []
    else Round(lists[..|lists| - 1], rank)
         + if rank < |lists[|lists| - 1]| then [Scored(RankScore(rank), lists[|lists| - 1][rank])] else []
  }

  function Longest(lists: seq<seq<Hit>>): nat {
    if lists == [] then 0
    else
      var before := Longest(lists[..|lists| - 1]);
      if |lists[|lists| - 1]| > before then |lists[|lists| - 1]| else before
  }

  /** Rank by rank, starting at `rank`. */
  function RoundRobin(lists: seq<seq<Hit>>, rank: nat): seq<Scored>
    decreases Longest(lists) - rank
  {
    if rank >= Longest(lists) then [] else Round(lists, rank) + RoundRobin(lists, rank + 1)
  }

  function Concatenated(lists: seq<seq<Hit>>): seq<Scored> {
    if lists == [] then [] else Concatenated(lists[..|lists| - 1]) + Ranked(lists[|lists| - 1])
  }

  lemma {:induction false} AddListAppends(entries: seq<Scored>, hits: seq<Hit>)
    requires DistinctHits(hits) && EntryIds(entries) !! HitIds(hits)
    ensures AddList(entries, hits) == entries + Ranked(hits)
    decreases |hits|
  {
    hide HitIdentity, RankScore;
    if hits != [] {
      var front, last := hits[..|hits| - 1], hits[|hits| - 1];
      AddListAppends(entries, front) by {
        assert HitIds(front) <= HitIds(hits);
      }
      var before := entries + Ranked(front);
      forall i | 0 <= i < |before| ensures HitIdentity(before[i].hit) != HitIdentity(last) {
        if i < |entries| {
          assert entries[i] in entries && last in hits;
          assert HitIdentity(entries[i].hit) in EntryIds(entries) && HitIdentity(last) in HitIds(hits);
        } else {
          assert before[i].hit == hits[i - |entries|];
        }
      }
      assert Position(before, HitIdentity(last)) == |before|;
      assert Ranked(hits) == Ranked(front) + [Scored(RankScore(|hits| - 1), last)];
    }
  }

  lemma {:induction false} DisjointListsConcatenate(lists: seq<seq<Hit>>)
    requires DisjointLists(lists)
    ensures AddLists([], lists) == Concatenated(lists)
    decreases |lists|
  {
    if lists != [] {
      var front, last := lists[..|lists| - 1], lists[|lists| - 1];
      DisjointListsConcatenate(front);
      AddListsOk(front);
      forall id | id in ListIds(front) ensures id !in HitIds(last) {
        var l, h :| l in front && h in l && id == HitIdentity(h);
        var k :| 0 <= k < |front| && front[k] == l;
        assert id in HitIds(lists[k]) && HitIds(lists[k]) !! HitIds(lists[|lists| - 1]);
      }
      AddListAppends(AddLists([], front), last);
    }
  }

  /** The entries with a given score, in order. */
  function OfScore(s: seq<Scored>, score: real): seq<Scored> {
    if s == [] then [] else (if s[0].score == score then [s[0]] else []) + OfScore(s[1..], score)
  }

  lemma {:induction false} OfScoreAppend(a: seq<Scored>, b: seq<Scored>, score: real)
    ensures OfScore(a + b, score) == OfScore(a, score) + OfScore(b, score)
  {
    hide OfScore;
    OfScoreStep(a, score);
    if a == [] {
      assert a + b == b;
    } else {
      OfScoreStep(a + b, score);
      assert (a + b)[1..] == a[1..] + b && (a + b)[0] == a[0];
      OfScoreAppend(a[1..], b, score);
      Regroup(if a[0].score == score then [a[0]] else [], OfScore(a[1..], score), OfScore(b, score));
    }
  }

  lemma OfScoreStep(s: seq<Scored>, score: real)
    ensures OfScore(s, score) == if s == [] then [] else (if s[0].score == score then [s[0]] else []) + OfScore(s[1..], score)
  {
  }

  lemma Regroup<T>(a: seq<T>, b: seq<T>, c: seq<T>)
    ensures a + (b + c) == (a + b) + c
  {
  }

  lemma {:induction false} OfScoreMembers(s: seq<Scored>, e: Scored, score: real)
    ensures e in OfScore(s, score) <==> e in s && e.score == score
  {
    if s != [] {
      OfScoreMembers(s[1..], e, score);
      assert s == [s[0]] + s[1..];
    }
  }

  lemma OfScoreNone(score: real)
    ensures OfScore([], score) == []
  {
  }

  /** Sorting keeps the order of entries with equal scores. */
  lemma {:induction false} InsertIsStable(e: Scored, s: seq<Scored>, score: real)
    requires SortedBy(HigherFirst(), s)
    ensures OfScore(Insert(HigherFirst(), e, s), score) == OfScore([e] + s, score)
  {
    assert ([e] + s)[1..] == s;
    if s != [] && !HigherFirst()(e, s[0]) {
      InsertIsStable(e, s[1..], score);
      assert ([e] + s[1..])[1..] == s[1..];
      var r := Insert(HigherFirst(), e, s);
      assert r[0] == s[0] && r[1..] == Insert(HigherFirst(), e, s[1..]);
    } else {
      assert Insert(HigherFirst(), e, s) == [e] + s;
    }
  }

  lemma {:induction false} SortIsStable(s: seq<Scored>, score: real)
    ensures OfScore(StableSort(HigherFirst(), s), score) == OfScore(s, score)
  {
    if s != [] {
      SortIsStable(s[1..], score);
      HigherFirstIsOrder();
      StableSortSorts(HigherFirst(), s[1..]);
      var sorted := StableSort(HigherFirst(), s[1..]);
      InsertIsStable(s[0], sorted, score);
      assert ([s[0]] + sorted)[1..] == sorted;
    }
  }

  /** A sorted list is determined by its entries of every score. */
  lemma {:induction false} SortedByScoreIsUnique(a: seq<Scored>, b: seq<Scored>)
    requires SortedBy(HigherFirst(), a) && SortedBy(HigherFirst(), b)
    requires forall score :: OfScore(a, score) == OfScore(b, score)
    ensures a == b
    decreases |a|
  {
    if a == [] {
      assert b == [];
    } else {
      var score := a[0].score;
      OfScoreMembers(a, a[0], score);
      OfScoreMembers(b, a[0], score);
      assert b != [];
      OfScoreMembers(b, b[0], b[0].score);
      OfScoreMembers(a, b[0], b[0].score);
      var i :| 0 <= i < |a| && a[i] == b[0];
      var j :| 0 <= j < |b| && b[j] == a[0];
      assert i > 0 ==> HigherFirst()(a[0], a[i]);
      assert j > 0 ==> HigherFirst()(b[0], b[j]);
      assert b[0].score == score;
      assert OfScore(a, score)[0] == a[0] && OfScore(b, score)[0] == b[0];
      forall s ensures OfScore(a[1..], s) == OfScore(b[1..], s) {
        assert OfScore(a, s) == OfScore(b, s);
        var head := if a[0].score == s then [a[0]] else [];
        assert OfScore(a[1..], s) == OfScore(a, s)[|head|..];
        assert OfScore(b[1..], s) == OfScore(b, s)[|head|..];
      }
      SortedByScoreIsUnique(a[1..], b[1..]);
      assert a == [a[0]] + a[1..] && b == [b[0]] + b[1..];
    }
  }

  ghost predicate IsRankScore(score: real) {
    exists rank: nat :: score == RankScore(rank)
  }

  /** A ranked list has one entry of each of its ranks. */
  lemma {:induction false} RankedOfScore(hits: seq<Hit>, rank: nat)
    ensures OfScore(Ranked(hits), RankScore(rank)) == if rank < |hits| then [Scored(RankScore(rank), hits[rank])] else []
    decreases |hits|
  {
    if hits != [] {
      var front, last := hits[..|hits| - 1], |hits| - 1;
      RankedOfScore(front, rank);
      var tail := [Scored(RankScore(last), hits[last])];
      assert Ranked(hits) == Ranked(front) + tail;
      OfScoreAppend(Ranked(front), tail, RankScore(rank));
      RankScoreDecreases(rank, last);
      assert tail[1..] == [];
    }
  }

  lemma {:induction false} ConcatenatedOfScore(lists: seq<seq<Hit>>, rank: nat)
    ensures OfScore(Concatenated(lists), RankScore(rank)) == Round(lists, rank)
    decreases |lists|
  {
    if lists != [] {
      var front, last := lists[..|lists| - 1], lists[|lists| - 1];
      ConcatenatedOfScore(front, rank);
      OfScoreAppend(Concatenated(front), Ranked(last), RankScore(rank));
      RankedOfScore(last, rank);
    }
  }

  lemma {:induction false} RoundHasScore(lists: seq<seq<Hit>>, rank: nat)
    ensures forall e <- Round(lists, rank) :: e.score == RankScore(rank)
    ensures rank >= Longest(lists) ==> Round(lists, rank) == []
    decreases |lists|
  {
    if lists != [] {
      RoundHasScore(lists[..|lists| - 1], rank);
    }
  }

  lemma {:induction false} OfScoreAll(s: seq<Scored>, own: real, score: real)
    requires forall e <- s :: e.score == own
    ensures OfScore(s, score) == if own == score then s else []
  {
    if s != [] {
      assert s[0] in s;
      OfScoreAll(s[1..], own, score);
    }
  }

  lemma {:induction false} RoundRobinOfScore(lists: seq<seq<Hit>>, from: nat, rank: nat)
    ensures OfScore(RoundRobin(lists, from), RankScore(rank)) == if rank < from then [] else Round(lists, rank)
    decreases Longest(lists) - from
  {
    hide RankScore, Round, Longest, OfScore;
    OfScoreNone(RankScore(rank));
    RoundHasScore(lists, rank);
    if from < Longest(lists) {
      RoundRobinOfScore(lists, from + 1, rank);
      OfScoreAppend(Round(lists, from), RoundRobin(lists, from + 1), RankScore(rank));
      RoundHasScore(lists, from);
      OfScoreAll(Round(lists, from), RankScore(from), RankScore(rank));
      RankScoreDecreases(from, rank);
    }
  }

  lemma {:induction false} RoundRobinSorted(lists: seq<seq<Hit>>, from: nat)
    ensures SortedBy(HigherFirst(), RoundRobin(lists, from))
    ensures forall e <- RoundRobin(lists, from) :: IsRankScore(e.score) && e.score <= RankScore(from)
    decreases Longest(lists) - from
  {
    if from < Longest(lists) {
      RoundRobinSorted(lists, from + 1);
      RoundHasScore(lists, from);
      RankScoreDecreases(from, from + 1);
      var now, later := Round(lists, from), RoundRobin(lists, from + 1);
      assert forall i :: 0 <= i < |now| ==> now[i] in now;
      assert forall i :: 0 <= i < |later| ==> later[i] in later;
    }
  }

  lemma {:induction false} ConcatenatedScores(lists: seq<seq<Hit>>)
    ensures forall e <- Concatenated(lists) :: IsRankScore(e.score)
    decreases |lists|
  {
    if lists != [] {
      ConcatenatedScores(lists[..|lists| - 1]);
    }
  }

  lemma NoSuchScore(s: seq<Scored>, score: real)
    requires !IsRankScore(score) && forall e <- s :: IsRankScore(e.score)
    ensures OfScore(s, score) == []
  {
    if OfScore(s, score) != [] {
      OfScoreMembers(s, OfScore(s, score)[0], score);
      assert false;
    }
  }

  lemma SortedConcatenationIsRoundRobin(lists: seq<seq<Hit>>)
    ensures StableSort(HigherFirst(), Concatenated(lists)) == RoundRobin(lists, 0)
  {
    var all, robin := Concatenated(lists), RoundRobin(lists, 0);
    var sorted := StableSort(HigherFirst(), all);
    HigherFirstIsOrder();
    StableSortSorts(HigherFirst(), all);
    RoundRobinSorted(lists, 0);
    ConcatenatedScores(lists);
    forall score ensures OfScore(sorted, score) == OfScore(robin, score) {
      SortIsStable(all, score);
      if IsRankScore(score) {
        var rank: nat :| score == RankScore(rank);
        ConcatenatedOfScore(lists, rank);
        RoundRobinOfScore(lists, 0, rank);
      } else {
        NoSuchScore(all, score);
        NoSuchScore(robin, score);
      }
    }
    SortedByScoreIsUnique(sorted, robin);
  }

  /**
   Lists that share no identity, such as a base without its tombstoned paths and its overlay, fuse to the round
   robin of their ranks, earlier lists first.
   */
  lemma DisjointListsInterleave(lists: seq<seq<Hit>>, limit: nat)
    requires DisjointLists(lists)
    ensures var robin := RoundRobin(lists, 0);
            Fused(lists, limit) == Normalize(if |robin| <= limit then robin else robin[..limit])
  {
    DisjointListsConcatenate(lists);
    SortedConcatenationIsRoundRobin(lists);
  }

  /** A single list keeps its order; the hit of rank r gets score 61 / (61 + r). */
  lemma SingleListKeepsItsOrder(hits: seq<Hit>, limit: nat)
    requires DistinctHits(hits)
    ensures var fused := Fused([hits], limit);
            && |fused| == (if |hits| <= limit then |hits| else limit)
            && forall i :: 0 <= i < |fused| ==> fused[i] == hits[i].(score := 61.0 / (61 + i) as real)
  {
    hide HitIdentity, StableSort, AddLists;
    DisjointListsInterleave([hits], limit);
    SingleRoundRobin(hits, 0);
    var robin := RoundRobin([hits], 0);
    assert Ranked(hits)[0..] == robin;
    var top := if |robin| <= limit then robin else robin[..limit];
    var fused := Normalize(top);
    forall i | 0 <= i < |fused| ensures fused[i] == hits[i].(score := 61.0 / (61 + i) as real) {
      assert top[i] == Scored(RankScore(i), hits[i]) && top[0].score == 1.0 / 61.0;
      Ratio((61 + i) as real);
    }
  }

  lemma Ratio(a: real)
    requires a > 0.0
    ensures (1.0 / a) / (1.0 / 61.0) == 61.0 / a
  {
    assert (1.0 / a) * 61.0 == 61.0 / a;
  }

  lemma {:induction false} SingleRoundRobin(hits: seq<Hit>, from: nat)
    requires from <= |hits|
    ensures RoundRobin([hits], from) == Ranked(hits)[from..]
    decreases |hits| - from
  {
    assert [hits][..0] == [];
    assert Longest([hits]) == |hits|;
    if from < |hits| {
      SingleRoundRobin(hits, from + 1);
      assert Round([hits], from) == [Ranked(hits)[from]];
    }
  }
}
