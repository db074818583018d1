/**
 The passes of `generalize` as one substitution: where matches keep apart, the longest home wins at every position, and
 the order of homes of equal length is of no consequence.
 */
module HomePathOrder {
  import opened HomePaths

  // ---- One substitution for many patterns ------------------------------------------------------

  /** The first pattern that matches at the position. */
  function First(word: char -> bool, ps: seq<Pattern>, text: string, at: nat): (i: int)
    ensures -1 <= i < |ps|
    ensures i >= 0 ==> MatchAt(word, ps[i], text, at) && forall j :: 0 <= j < i ==> !MatchAt(word, ps[j], text, at)
    ensures i < 0 ==> forall p <- ps :: !MatchAt(word, p, text, at)
  {
    if ps == [] then -1
    else if MatchAt(word, ps[0], text, at) then 0
    else
      var i := First(word, ps[1..], text, at);
      if i < 0 then -1 else i + 1
  }

  predicate AllUsable(ps: seq<Pattern>) {
    forall p <- ps :: Usable(p)
  }

  /** From left to right, the first pattern that matches is replaced. */
  function AtOnceFrom(word: char -> bool, ps: seq<Pattern>, text: string, at: nat): string
    requires AllUsable(ps) && at <= |text|
    decreases |text| - at
  {
    if at == |text| then ""
    else
      var i := First(word, ps, text, at);
      if i < 0 then [text[at]] + AtOnceFrom(word, ps, text, at + 1)
      else
        MatchFits(word, ps[i], text, at);
        assert ps[i] in ps;
        "~" + AtOnceFrom(word, ps, text, at + |ps[i].literal|)
  }

  /** One pattern after the other. */
  function Subs(word: char -> bool, ps: seq<Pattern>, text: string): string
    requires AllUsable(ps)
    decreases |ps|
  {
    if ps == [] then text
    else
      assert ps[0] in ps && forall p <- ps[1..] :: p in ps;
      Subs(word, ps[1..], Sub(word, ps[0], text))
  }

  /** A match of `r` that begins behind the beginning of a match of `p` begins behind its end and does not touch it. */
  ghost predicate KeepsOff(word: char -> bool, p: Pattern, r: Pattern, text: string) {
    forall k: nat, l: nat :: MatchAt(word, p, text, k) && MatchAt(word, r, text, l) && k < l ==> k + |p.literal| < l
  }

  /** Matches of different patterns at different positions neither overlap nor touch. */
  ghost predicate Apart(word: char -> bool, ps: seq<Pattern>, text: string) {
    forall p <- ps, r <- ps :: p != r ==> KeepsOff(word, p, r, text)
  }

  ghost predicate AllStable(word: char -> bool, ps: seq<Pattern>) {
    forall p <- ps :: Stable(word, p)
  }

  // ---- Positions before and after a pass -------------------------------------------------------

  lemma {:induction false} UntouchedStretch(word: char -> bool, p: Pattern, text: string, at: nat, n: nat)
    requires p.literal != "" && at + n <= |text| && forall i :: at <= i < at + n ==> !MatchAt(word, p, text, i)
    ensures SubFrom(word, p, text, at) == text[at..at + n] + SubFrom(word, p, text, at + n)
    decreases n
  {
    hide MatchAt, SubFrom;
    if n == 0 {
      assert text[at..at] == "";
    } else {
      UntouchedStretch(word, p, text, at + 1, n - 1);
      SubSkips(word, p, text, at);
      var rest := SubFrom(word, p, text, at + n);
      assert text[at..at + n] == [text[at]] + text[at + 1..at + n];
      assert [text[at]] + (text[at + 1..at + n] + rest) == ([text[at]] + text[at + 1..at + n]) + rest;
    }
  }

  /** The position `q` of the substituted text is the position `at` of the text, right behind a match or an untouched character. */
  ghost predicate Tied(word: char -> bool, p: Pattern, text: string, q: nat, at: nat)
    requires Usable(p)
  {
    && ComesFrom(word, p, text, q, at) && (at == 0 ==> q == 0)
    && (q > 0 ==> Sub(word, p, text)[q - 1] == text[at - 1]
                  || MatchEnds(word, p, text, at))
  }

  /** Away from the replaced matches, the pass changes no match of another pattern. */
  lemma SameMatch(word: char -> bool, p: Pattern, r: Pattern, text: string, q: nat, at: nat)
    requires Usable(p) && Stable(word, r) && Tied(word, p, text, q, at) && !MatchAt(word, p, text, at)
    requires p != r ==> KeepsOff(word, p, r, text) && KeepsOff(word, r, p, text)
    ensures MatchAt(word, r, Sub(word, p, text), q) <==> MatchAt(word, r, text, at)
    ensures MatchAt(word, r, text, at) && p != r ==> at + |r.literal| <= |text| && Tied(word, p, text, q + |r.literal|, at + |r.literal|)
  {
    var after := Sub(word, p, text);
    if MatchAt(word, r, after, q) {
      MatchWasThere(word, p, text, r, q, at);
    }
    if MatchAt(word, r, text, at) && p != r {
      MatchSurvives(word, p, r, text, q, at);
    }
  }

  lemma MatchSurvives(word: char -> bool, p: Pattern, r: Pattern, text: string, q: nat, at: nat)
    requires Usable(p) && Stable(word, r) && Tied(word, p, text, q, at) && !MatchAt(word, p, text, at)
    requires KeepsOff(word, p, r, text) && KeepsOff(word, r, p, text) && MatchAt(word, r, text, at)
    ensures at + |r.literal| <= |text| && Tied(word, p, text, q + |r.literal|, at + |r.literal|)
    ensures MatchAt(word, r, Sub(word, p, text), q)
  {
    hide SubFrom, MayFollow, Exposed, Continues;
    var after, n := Sub(word, p, text), |r.literal|;
    MatchFits(word, r, text, at);
    assert NoneThrough(word, p, text, at, at + n) by { hide MatchAt; }
    UntouchedStretch(word, p, text, at, n);
    Stretch(after, q, text, at, n, SubFrom(word, p, text, at + n));
    assert MatchEnds(word, p, text, at) ==> false by { hide MatchAt; }
    TildeContinues(word);
    assert MayPrecede(word, after, q);
    assert text[at..][..n] == text[at..at + n];
    SameFollow(word, p, r, text, at + n);
    FollowMoves(r, SubFrom(word, p, text, at + n), after, q + n);
  }

  lemma FollowMoves(r: Pattern, rest: string, after: string, q: nat)
    requires q <= |after| && after[q..] == rest && MayFollow(r, rest, 0)
    ensures MayFollow(r, after, q)
  {
    assert rest[0..] == rest;
  }

  lemma Stretch(after: string, q: nat, text: string, at: nat, n: nat, rest: string)
    requires q <= |after| && at + n <= |text| && after[q..] == text[at..at + n] + rest
    ensures q + n <= |after| && after[q + n..] == rest && HasAt(after, q, text[at..at + n])
    ensures n > 0 ==> after[q + n - 1] == text[at + n - 1]
  {
    assert after[q + n..] == after[q..][n..];
    if n > 0 { assert after[q + n - 1] == after[q..][n - 1]; }
  }

  ghost predicate MatchEnds(word: char -> bool, p: Pattern, text: string, at: nat) {
    exists k: nat :: k < at && MatchAt(word, p, text, k) && k + |p.literal| == at
  }

  ghost predicate NoneThrough(word: char -> bool, p: Pattern, text: string, at: nat, end: nat) {
    forall i :: at <= i <= end ==> !MatchAt(word, p, text, i)
  }

  lemma SameFollow(word: char -> bool, p: Pattern, r: Pattern, text: string, at: nat)
    requires Usable(p) && Usable(r) && at <= |text| && !MatchAt(word, p, text, at) && MayFollow(r, text, at)
    ensures MayFollow(r, SubFrom(word, p, text, at), 0)
  {
    var after := SubFrom(word, p, text, at);
    if at < |text| && !IsBoundary(text[at]) && r.separator == "\\/" {
      NoMatchAfter(word, p, text, at + 1);
      assert text[at..][..2] == "\\/";
      assert text[at] == '\\' && text[at + 1] == '/';
      assert SubFrom(word, p, text, at + 1)[0] == '/';
    }
  }

  lemma SameFirst(word: char -> bool, ps: seq<Pattern>, text: string, at: nat, other: string, q: nat)
    requires forall p <- ps :: MatchAt(word, p, text, at) <==> MatchAt(word, p, other, q)
    ensures First(word, ps, text, at) == First(word, ps, other, q)
  {
    hide MatchAt;
    var i, j := First(word, ps, text, at), First(word, ps, other, q);
    if i >= 0 { assert ps[i] in ps; }
    if j >= 0 { assert ps[j] in ps; }
  }

  lemma FirstStep(word: char -> bool, p: Pattern, rest: seq<Pattern>, text: string, at: nat)
    ensures var i, j := First(word, [p] + rest, text, at), First(word, rest, text, at);
            i == if MatchAt(word, p, text, at) then 0 else if j < 0 then -1 else j + 1
  {
    hide MatchAt;
    assert ([p] + rest)[1..] == rest;
  }

  /** The pattern whose pass comes first, seen against the others. */
  ghost predicate PeelsOff(word: char -> bool, p: Pattern, rest: seq<Pattern>, text: string) {
    && Usable(p) && AllUsable(rest) && AllStable(word, rest)
    && forall r <- rest :: p != r ==> KeepsOff(word, p, r, text) && KeepsOff(word, r, p, text)
  }

  /** At a match of the first pattern, its pass leaves a `~` that nothing else matches. */
  lemma PeelMatch(word: char -> bool, p: Pattern, rest: seq<Pattern>, text: string, q: nat, at: nat)
    requires PeelsOff(word, p, rest, text) && Tied(word, p, text, q, at) && at < |text| && MatchAt(word, p, text, at)
    ensures at + |p.literal| <= |text| && Tied(word, p, text, q + 1, at + |p.literal|)
    ensures q < |Sub(word, p, text)| && Sub(word, p, text)[q] == '~' && First(word, rest, Sub(word, p, text), q) == -1
  {
    hide MatchAt, Continues, Exposed, KeepsOff;
    var after := Sub(word, p, text);
    MatchFits(word, p, text, at);
    assert after[q..] == "~" + SubFrom(word, p, text, at + |p.literal|);
    assert after[q + 1..] == after[q..][1..] && after[q] == after[q..][0];
    var i := First(word, rest, after, q);
    if i >= 0 {
      assert rest[i] in rest;
      MatchWasThere(word, p, text, rest[i], q, at);
      assert false;
    }
  }

  lemma TiedStep(word: char -> bool, p: Pattern, text: string, q: nat, at: nat)
    requires Usable(p) && Tied(word, p, text, q, at) && at < |text| && !MatchAt(word, p, text, at)
    ensures q < |Sub(word, p, text)| && Sub(word, p, text)[q] == text[at] && Tied(word, p, text, q + 1, at + 1)
  {
    hide MatchAt;
    var after := Sub(word, p, text);
    assert after[q..] == [text[at]] + SubFrom(word, p, text, at + 1);
    assert after[q + 1..] == after[q..][1..] && after[q] == after[q..][0];
  }

  lemma PeelFirst(word: char -> bool, p: Pattern, rest: seq<Pattern>, text: string, q: nat, at: nat)
    requires PeelsOff(word, p, rest, text) && Tied(word, p, text, q, at) && at < |text| && !MatchAt(word, p, text, at)
    ensures q < |Sub(word, p, text)| && Sub(word, p, text)[q] == text[at] && Tied(word, p, text, q + 1, at + 1)
    ensures var i := First(word, rest, text, at);
            && i == First(word, rest, Sub(word, p, text), q)
            && (i >= 0 ==> at + |rest[i].literal| <= |text| && Tied(word, p, text, q + |rest[i].literal|, at + |rest[i].literal|))
  {
    hide MatchAt, Continues, Exposed, KeepsOff;
    hide Tied, Sub;
    var after := Sub(word, p, text);
    TiedStep(word, p, text, q, at);
    forall r <- rest ensures MatchAt(word, r, text, at) <==> MatchAt(word, r, after, q) {
      SameMatch(word, p, r, text, q, at);
    }
    SameFirst(word, rest, text, at, after, q);
    var i := First(word, rest, text, at);
    if i >= 0 {
      assert rest[i] in rest;
      SameMatch(word, p, rest[i], text, q, at);
    }
  }

  /** Replacing one pattern before and the others at once is replacing all at once. */
  lemma {:induction false} AtOncePeels(word: char -> bool, p: Pattern, rest: seq<Pattern>, text: string, q: nat, at: nat)
    requires PeelsOff(word, p, rest, text) && AllUsable([p] + rest) && Tied(word, p, text, q, at)
    ensures AtOnceFrom(word, rest, Sub(word, p, text), q) == AtOnceFrom(word, [p] + rest, text, at)
    decreases |text| - at
  {
    hide MatchAt, PeelsOff, Tied, Sub, AtOnceFrom, First;
    assert p in [p] + rest && forall r <- rest :: r in [p] + rest;
    var after := Sub(word, p, text);
    TiedEnds(word, p, text, q, at);
    if at == |text| {
      AtOnceEnds(word, rest, after);
      AtOnceEnds(word, [p] + rest, text);
    } else {
      FirstStep(word, p, rest, text, at);
      AtOnceStep(word, [p] + rest, text, at);
      if MatchAt(word, p, text, at) {
        PeelMatch(word, p, rest, text, q, at);
        AtOnceStep(word, rest, after, q);
        AtOncePeels(word, p, rest, text, q + 1, at + |p.literal|);
      } else {
        PeelFirst(word, p, rest, text, q, at);
        AtOnceStep(word, rest, after, q);
        var i := First(word, rest, text, at);
        var n := if i >= 0 then |rest[i].literal| else 1;
        AtOncePeels(word, p, rest, text, q + n, at + n);
      }
    }
  }

  lemma AtOnceEnds(word: char -> bool, ps: seq<Pattern>, text: string)
    requires AllUsable(ps)
    ensures AtOnceFrom(word, ps, text, |text|) == ""
  {
  }

  lemma AtOnceStep(word: char -> bool, ps: seq<Pattern>, text: string, at: nat)
    requires AllUsable(ps) && at < |text|
    ensures var i := First(word, ps, text, at);
            if i < 0 then AtOnceFrom(word, ps, text, at) == [text[at]] + AtOnceFrom(word, ps, text, at + 1)
            else && 0 < |ps[i].literal| && at + |ps[i].literal| <= |text|
                 && AtOnceFrom(word, ps, text, at) == "~" + AtOnceFrom(word, ps, text, at + |ps[i].literal|)
  {
    hide MatchAt;
    var i := First(word, ps, text, at);
    if i >= 0 {
      assert ps[i] in ps;
      MatchFits(word, ps[i], text, at);
    }
  }

  lemma TiedAtStart(word: char -> bool, p: Pattern, text: string)
    requires Usable(p)
    ensures Tied(word, p, text, 0, 0)
  {
    assert Sub(word, p, text)[0..] == SubFrom(word, p, text, 0);
  }

  lemma TiedEnds(word: char -> bool, p: Pattern, text: string, q: nat, at: nat)
    requires Usable(p) && Tied(word, p, text, q, at)
    ensures q <= |Sub(word, p, text)| && at <= |text| && (at == |text| ==> q == |Sub(word, p, text)|)
  {
  }

  // ---- Passes keep matches apart ---------------------------------------------------------------

  lemma KeepsOffStays(word: char -> bool, p: Pattern, text: string, r: Pattern, s: Pattern)
    requires Usable(p) && Stable(word, r) && Stable(word, s) && KeepsOff(word, r, s, text)
    ensures KeepsOff(word, r, s, Sub(word, p, text))
  {
    hide MatchAt, Sub, Exposed, Continues;
    var after := Sub(word, p, text);
    forall k: nat, l: nat | MatchAt(word, r, after, k) && MatchAt(word, s, after, l) && k < l ensures k + |r.literal| < l {
      if l <= k + |r.literal| {
        MatchFits(word, r, after, k);
        var from := EveryPositionComesFrom(word, p, text, k);
        MatchWasThere(word, p, text, r, k, from);
        ComesFromLater(word, p, text, k, from, l - k);
        MatchWasThere(word, p, text, s, l, from + (l - k));
      }
    }
  }

  lemma ComesFromLater(word: char -> bool, p: Pattern, text: string, q: nat, at: nat, n: nat)
    requires Usable(p) && ComesFrom(word, p, text, q, at) && 0 < n && at + n <= |text|
    requires forall i :: at <= i < at + n ==> !MatchAt(word, p, text, i)
    ensures ComesFrom(word, p, text, q + n, at + n)
  {
    hide MatchAt, SubFrom;
    UntouchedStretch(word, p, text, at, n);
    Stretch(Sub(word, p, text), q, text, at, n, SubFrom(word, p, text, at + n));
  }

  lemma ApartStays(word: char -> bool, p: Pattern, rest: seq<Pattern>, text: string)
    requires AllStable(word, [p] + rest) && Apart(word, [p] + rest, text)
    ensures Usable(p) && PeelsOff(word, p, rest, text) && Apart(word, rest, Sub(word, p, text))
  {
    hide KeepsOff, Exposed;
    assert p in [p] + rest && forall r <- rest :: r in [p] + rest;
    forall r <- rest, s <- rest | r != s ensures KeepsOff(word, r, s, Sub(word, p, text)) {
      KeepsOffStays(word, p, text, r, s);
    }
  }

  lemma {:induction false} NothingAtOnce(word: char -> bool, text: string, at: nat)
    requires at <= |text|
    ensures AtOnceFrom(word, [], text, at) == text[at..]
    decreases |text| - at
  {
    if at < |text| {
      NothingAtOnce(word, text, at + 1);
      assert text[at..] == [text[at]] + text[at + 1..];
    }
  }

  /** Where matches keep apart, substituting pattern by pattern is one substitution, the first pattern winning. */
  lemma {:induction false} SubsAreAtOnce(word: char -> bool, ps: seq<Pattern>, text: string)
    requires AllUsable(ps) && AllStable(word, ps) && Apart(word, ps, text)
    ensures Subs(word, ps, text) == AtOnceFrom(word, ps, text, 0)
    decreases |ps|
  {
    hide Sub, Apart, KeepsOff, Exposed, PeelsOff;
    if ps == [] {
      NothingAtOnce(word, text, 0);
    } else {
      var p, rest := ps[0], ps[1..];
      assert ps == [p] + rest;
      ApartStays(word, p, rest, text);
      SubsAreAtOnce(word, rest, Sub(word, p, text));
      TiedAtStart(word, p, text);
      AtOncePeels(word, p, rest, text, 0, 0);
    }
  }

  // ---- The longest home wins -------------------------------------------------------------------

  /** The patterns in the order of their passes. */
  function Patterns(homes: seq<string>): (ps: seq<Pattern>)
    ensures |ps| == 2 * |homes|
    ensures forall i :: 0 <= i < |homes| ==> ps[2 * i] == Plain(homes[i]) && ps[2 * i + 1] == Escaped(homes[i])
    ensures Homes(homes) ==> AllUsable(ps)
  {
    if homes == [] then []
    else
      assert Homes(homes) ==> Homes(homes[1..]) && Usable(Plain(homes[0])) && Usable(Escaped(homes[0])) by {
        assert homes[0] in homes;
      }
      [Plain(homes[0]), Escaped(homes[0])] + Patterns(homes[1..])
  }

  predicate Matches(word: char -> bool, home: string, text: string, at: nat) {
    MatchAt(word, Plain(home), text, at) || MatchAt(word, Escaped(home), text, at)
  }

  /** What is replaced at a match of the home. */
  function Matched(word: char -> bool, home: string, text: string, at: nat): (p: Pattern)
    requires Matches(word, home, text, at)
    ensures MatchAt(word, p, text, at) && (p == Plain(home) || p == Escaped(home))
  {
    if MatchAt(word, Plain(home), text, at) then Plain(home) else Escaped(home)
  }

  /** The longest home that matches at the position in either spelling. */
  function Longest(word: char -> bool, homes: seq<string>, text: string, at: nat): (i: int)
    ensures -1 <= i < |homes|
    ensures i < 0 ==> forall home <- homes :: !Matches(word, home, text, at)
    ensures i >= 0 ==> && Matches(word, homes[i], text, at)
                       && forall home <- homes :: Matches(word, home, text, at) ==> |home| <= |homes[i]|
  {
    if homes == [] then -1
    else
      assert homes == [homes[0]] + homes[1..];
      var rest := Longest(word, homes[1..], text, at);
      var i := if rest < 0 then -1 else rest + 1;
      if Matches(word, homes[0], text, at) && (i < 0 || |homes[0]| >= |homes[i]|) then 0 else i
  }

  /** From left to right, the longest home that matches is replaced. */
  function LongestFrom(word: char -> bool, homes: seq<string>, text: string, at: nat): string
    requires Homes(homes) && at <= |text|
    decreases |text| - at
  {
    if at == |text| then ""
    else
      var i := Longest(word, homes, text, at);
      if i < 0 then [text[at]] + LongestFrom(word, homes, text, at + 1)
      else
        var p := Matched(word, homes[i], text, at);
        MatchFits(word, p, text, at);
        assert homes[i] in homes;
        "~" + LongestFrom(word, homes, text, at + |p.literal|)
  }

  lemma PatternOfHome(homes: seq<string>, p: Pattern)
    ensures p in Patterns(homes) <==> exists home :: home in homes && (p == Plain(home) || p == Escaped(home))
  {
    var ps := Patterns(homes);
    if p in ps {
      var i :| 0 <= i < |ps| && ps[i] == p;
      assert i == 2 * (i / 2) || i == 2 * (i / 2) + 1;
      assert homes[i / 2] in homes;
    }
    forall home | home in homes && (p == Plain(home) || p == Escaped(home)) ensures p in ps {
      var i :| 0 <= i < |homes| && homes[i] == home;
      assert ps[2 * i] == Plain(home) && ps[2 * i + 1] == Escaped(home);
    }
  }

  ghost predicate LongestFirst(homes: seq<string>) {
    forall i, j :: 0 <= i < j < |homes| ==> |homes[i]| >= |homes[j]|
  }

  lemma {:induction false} LongestIsFirst(word: char -> bool, homes: seq<string>, text: string, at: nat)
    requires LongestFirst(homes)
    ensures forall j :: 0 <= j < Longest(word, homes, text, at) ==> !Matches(word, homes[j], text, at)
  {
    hide Matches;
    if homes != [] {
      var rest := homes[1..];
      LongestIsFirst(word, rest, text, at);
      forall j | 0 <= j < Longest(word, homes, text, at) ensures !Matches(word, homes[j], text, at) {
        assert j > 0 ==> homes[j] == rest[j - 1];
      }
    }
  }

  /** With longer homes first, the first pattern that matches is that of the longest home. */
  lemma FirstIsLongest(word: char -> bool, homes: seq<string>, text: string, at: nat)
    requires LongestFirst(homes)
    ensures var ps, m := Patterns(homes), Longest(word, homes, text, at);
            var i := First(word, ps, text, at);
            && (i < 0 <==> m < 0)
            && (i >= 0 ==> ps[i] == Matched(word, homes[m], text, at))
  {
    hide MatchAt, Plain, Escaped, Longest, Patterns, First;
    var ps, m := Patterns(homes), Longest(word, homes, text, at);
    if m >= 0 {
      NoneBefore(word, homes, text, at);
      FirstIs(word, ps, text, at, if MatchAt(word, ps[2 * m], text, at) then 2 * m else 2 * m + 1);
    } else if First(word, ps, text, at) >= 0 {
      PatternOfHome(homes, ps[First(word, ps, text, at)]);
    }
  }

  lemma FirstIs(word: char -> bool, ps: seq<Pattern>, text: string, at: nat, i: nat)
    requires i < |ps| && MatchAt(word, ps[i], text, at) && forall j :: 0 <= j < i ==> !MatchAt(word, ps[j], text, at)
    ensures First(word, ps, text, at) == i
  {
    hide MatchAt;
    assert ps[i] in ps;
  }

  lemma NoneBefore(word: char -> bool, homes: seq<string>, text: string, at: nat)
    requires LongestFirst(homes)
    ensures forall j :: 0 <= j < 2 * Longest(word, homes, text, at) ==> !MatchAt(word, Patterns(homes)[j], text, at)
  {
    hide MatchAt, Plain, Escaped, Longest, Patterns;
    LongestIsFirst(word, homes, text, at);
    forall j | 0 <= j < 2 * Longest(word, homes, text, at) ensures !MatchAt(word, Patterns(homes)[j], text, at) {
      assert j == 2 * (j / 2) || j == 2 * (j / 2) + 1;
      assert !Matches(word, homes[j / 2], text, at);
    }
  }

  lemma {:induction false} FirstWinsIsLongestWins(word: char -> bool, homes: seq<string>, text: string, at: nat)
    requires Homes(homes) && at <= |text| && LongestFirst(homes)
    ensures AtOnceFrom(word, Patterns(homes), text, at) == LongestFrom(word, homes, text, at)
    decreases |text| - at
  {
    hide MatchAt, Longest, Patterns, First, AtOnceFrom, LongestFrom;
    LongestStep(word, homes, text, at);
    if at < |text| {
      FirstIsLongest(word, homes, text, at);
      AtOnceStep(word, Patterns(homes), text, at);
      var m := Longest(word, homes, text, at);
      var n := if m >= 0 then |Matched(word, homes[m], text, at).literal| else 1;
      FirstWinsIsLongestWins(word, homes, text, at + n);
    } else {
      AtOnceEnds(word, Patterns(homes), text);
    }
  }

  lemma LongestStep(word: char -> bool, homes: seq<string>, text: string, at: nat)
    requires Homes(homes) && at <= |text|
    ensures if at == |text| then LongestFrom(word, homes, text, at) == ""
            else
              var m := Longest(word, homes, text, at);
              if m < 0 then LongestFrom(word, homes, text, at) == [text[at]] + LongestFrom(word, homes, text, at + 1)
              else
                var n := |Matched(word, homes[m], text, at).literal|;
                0 < n && at + n <= |text| && LongestFrom(word, homes, text, at) == "~" + LongestFrom(word, homes, text, at + n)
  {
    hide MatchAt, Longest, Matched;
    if at < |text| && Longest(word, homes, text, at) >= 0 { LongestFits(word, homes, text, at); }
  }

  lemma LongestFits(word: char -> bool, homes: seq<string>, text: string, at: nat)
    requires Homes(homes) && at < |text| && Longest(word, homes, text, at) >= 0
    ensures var n := |Matched(word, homes[Longest(word, homes, text, at)], text, at).literal|; 0 < n && at + n <= |text|
  {
    hide MatchAt, Longest;
    var m := Longest(word, homes, text, at);
    assert homes[m] in homes;
    MatchFits(word, Matched(word, homes[m], text, at), text, at);
  }

  lemma {:induction false} SubsAppend(word: char -> bool, front: seq<Pattern>, back: seq<Pattern>, text: string)
    requires AllUsable(front) && AllUsable(back)
    ensures AllUsable(front + back) && Subs(word, front + back, text) == Subs(word, back, Subs(word, front, text))
    decreases |front|
  {
    hide Sub;
    if front == [] {
      assert front + back == back;
    } else {
      assert front[0] in front && forall p <- front[1..] :: p in front;
      SubsAppend(word, front[1..], back, Sub(word, front[0], text));
      assert (front + back)[1..] == front[1..] + back;
    }
  }

  lemma PassIsSubs(word: char -> bool, home: string, text: string)
    requires home != ""
    ensures Subs(word, Patterns([home]), text) == Pass(word, text, home)
  {
    hide Sub;
    assert [home][1..] == [] && Patterns([]) == [];
    assert Patterns([home]) == [Plain(home), Escaped(home)];
    var ps := Patterns([home]);
    assert ps[1..] == [Escaped(home)] && ps[1..][1..] == [];
    assert Subs(word, ps, text) == Subs(word, ps[1..], Sub(word, Plain(home), text));
    assert Subs(word, ps[1..], Sub(word, Plain(home), text)) == Subs(word, [], Pass(word, text, home));
  }

  lemma {:induction false} PatternsAppend(homes: seq<string>, last: string)
    ensures Patterns(homes + [last]) == Patterns(homes) + Patterns([last])
  {
    hide Patterns;
    PatternsStep(homes);
    if homes == [] {
      assert homes + [last] == [last];
      Regrouped([], [], Patterns([last]));
    } else {
      PatternsAppend(homes[1..], last);
      PatternsStep(homes + [last]);
      assert (homes + [last])[1..] == homes[1..] + [last] && (homes + [last])[0] == homes[0];
      Regrouped([Plain(homes[0]), Escaped(homes[0])], Patterns(homes[1..]), Patterns([last]));
    }
  }

  lemma Regrouped<T>(a: seq<T>, b: seq<T>, c: seq<T>)
    ensures a + (b + c) == (a + b) + c && [] + c == c
  {
  }

  lemma PatternsStep(homes: seq<string>)
    ensures Patterns(homes) == if homes == [] then [] else [Plain(homes[0]), Escaped(homes[0])] + Patterns(homes[1..])
  {
  }

  lemma {:induction false} GeneralizedIsSubs(word: char -> bool, text: string, homes: seq<string>)
    requires Homes(homes)
    ensures Generalized(word, text, homes) == Subs(word, Patterns(homes), text)
    decreases |homes|
  {
    hide Pass, Patterns;
    if homes == [] {
      assert Patterns(homes) == [];
    } else {
      var front, last := homes[..|homes| - 1], homes[|homes| - 1];
      assert homes == front + [last] && last in homes;
      GeneralizedIsSubs(word, text, front);
      PatternsAppend(front, last);
      SubsAppend(word, Patterns(front), Patterns([last]), text);
      PassIsSubs(word, last, Subs(word, Patterns(front), text));
    }
  }

  lemma AllPatternsAreStable(word: char -> bool, homes: seq<string>)
    requires StableHomes(word, homes)
    ensures AllStable(word, Patterns(homes))
  {
    hide Patterns, Stable;
    forall p <- Patterns(homes) ensures Stable(word, p) {
      PatternOfHome(homes, p);
      var home :| home in homes && (p == Plain(home) || p == Escaped(home));
      PatternsAreStable(word, home);
    }
  }

  /**
   In a text where matches of different patterns neither overlap nor touch, all passes together are one substitution
   from left to right that replaces the longest matching home at each position, in either spelling.
   */
  lemma LongestHomeWins(word: char -> bool, text: string, homes: seq<string>, given: seq<string>)
    requires Passes(homes, given) && StableHomes(word, homes) && Apart(word, Patterns(homes), text)
    ensures Generalized(word, text, homes) == LongestFrom(word, homes, text, 0)
  {
    hide Apart, Patterns, Generalized, Exposed;
    GeneralizedIsSubs(word, text, homes);
    AllPatternsAreStable(word, homes);
    SubsAreAtOnce(word, Patterns(homes), text);
    FirstWinsIsLongestWins(word, homes, text, 0);
  }
}
