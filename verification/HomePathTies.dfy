/**
 Homes of equal length: when the order in which a set yields them is of no consequence, and when it decides.
 */
module HomePathTies {
  import opened HomePaths
  import opened HomePathOrder

  /** What the command line accepts: an absolute path without a trailing slash. */
  predicate Accepted(home: string) {
    |home| > 1 && home[0] == '/' && home[|home| - 1] != '/'
  }

  /** The string can go on as an escaped path: each of its slashes has its own backslash. */
  predicate IsEscaped(s: string) {
    && s != "" && s[0] == '\\' && (|s| == 1 || s[1] == '/')
    && forall i :: 0 < i < |s| && s[i] == '/' ==> s[i - 1] == '\\'
  }

  /** Another home may begin at position `t` of this one or right behind it. */
  predicate Splits(word: char -> bool, home: string, t: nat) {
    0 < t <= |home| && !Continues(word, home[t - 1]) && (t == |home| || home[t] == '/' || IsEscaped(home[t..]))
  }

  /** Every component of the home ends in a character that goes on. */
  ghost predicate Whole(word: char -> bool, home: string) {
    forall t: nat :: !Splits(word, home, t)
  }

  // ---- Escaped spellings -----------------------------------------------------------------------

  lemma {:induction false} EscapedSlash(home: string, i: nat) returns (t: nat)
    requires i < |EscapeSlashes(home)| && EscapeSlashes(home)[i] == '/'
    ensures i > 0 && EscapeSlashes(home)[i - 1] == '\\'
    ensures t < |home| && home[t] == '/' && (t == 0 <==> i == 1)
    ensures t > 0 ==> i > 1 && EscapeSlashes(home)[i - 2] == home[t - 1]
  {
    var n := if home[0] == '/' then 2 else 1;
    if i < n {
      t := 0;
    } else {
      assert EscapeSlashes(home)[n..] == EscapeSlashes(home[1..]);
      t := EscapedSlash(home[1..], i - n);
      t := t + 1;
    }
  }

  lemma {:induction false} EscapedEnd(home: string)
    requires home != ""
    ensures EscapeSlashes(home)[|EscapeSlashes(home)| - 1] == home[|home| - 1]
  {
    if |home| > 1 { EscapedEnd(home[1..]); }
  }

  lemma {:induction false} EscapedPrefixes(a: string, b: string, text: string)
    requires EscapeSlashes(a) <= text && EscapeSlashes(b) <= text && |a| == |b|
    requires a != "" ==> a[|a| - 1] != '/' && b[|b| - 1] != '/'
    ensures a == b
  {
    if a != "" {
      if |a| > 1 {
        var x, y := EscapeSlashes(a[1..]), EscapeSlashes(b[1..]);
        assert x[0] != '/' && y[0] != '/';
        assert EscapeSlashes(a) == (if a[0] == '/' then "\\/" else [a[0]]) + x;
        assert EscapeSlashes(b) == (if b[0] == '/' then "\\/" else [b[0]]) + y;
        assert EscapeSlashes(a)[0] == text[0] == EscapeSlashes(b)[0] && EscapeSlashes(a)[1] == text[1] == EscapeSlashes(b)[1];
        assert a[0] == b[0];
        var n := if a[0] == '/' then 2 else 1;
        assert x == EscapeSlashes(a)[n..] && y == EscapeSlashes(b)[n..];
        EscapedPrefixes(a[1..], b[1..], text[n..]);
      }
      assert a == [a[0]] + a[1..] && b == [b[0]] + b[1..];
    }
  }

  // ---- Whole homes keep apart ------------------------------------------------------------------

  /** Another home of the same length that begins inside the home, or right behind it, splits it. */
  lemma PlainOverlapSplits(word: char -> bool, home: string, other: string, r: Pattern, text: string, k: nat, l: nat)
    requires Accepted(home) && Accepted(other) && |home| == |other| && (r == Plain(other) || r == Escaped(other))
    requires MatchAt(word, Plain(home), text, k) && MatchAt(word, r, text, l) && k < l <= k + |home|
    ensures Splits(word, home, l - k)
  {
    var t := l - k;
    assert home[t - 1] == text[k..][t - 1] == text[l - 1];
    if t < |home| {
      assert text[l] == text[l..][0] == r.literal[0] && text[l] == text[k..][t] == home[t];
      if r == Escaped(other) { EscapedTail(home, other, text, k, t); }
    }
  }

  lemma PlainKeepsOff(word: char -> bool, home: string, other: string, r: Pattern, text: string)
    requires Accepted(home) && Accepted(other) && |home| == |other| && Whole(word, home)
    requires r == Plain(other) || r == Escaped(other)
    ensures KeepsOff(word, Plain(home), r, text)
  {
    hide MatchAt, Splits;
    forall k: nat, l: nat | MatchAt(word, Plain(home), text, k) && MatchAt(word, r, text, l) && k < l ensures k + |home| < l {
      if l <= k + |home| { PlainOverlapSplits(word, home, other, r, text, k, l); }
    }
  }

  lemma EscapedTail(home: string, other: string, text: string, k: nat, t: nat)
    requires Accepted(other) && |home| == |other| && 0 < t < |home| && HasAt(text, k, home) && HasAt(text, k + t, EscapeSlashes(other))
    ensures IsEscaped(home[t..])
  {
    var tail, escaped := home[t..], EscapeSlashes(other);
    assert forall i :: 0 <= i < |tail| ==> tail[i] == text[k..][t + i] == text[k + t..][i] == escaped[i];
    assert escaped[0] == '\\' && escaped[1] == '/';
    forall i | 0 < i < |tail| && tail[i] == '/' ensures tail[i - 1] == '\\' {
      var at := EscapedSlash(other, i);
    }
  }

  lemma EscapedOverlapSplits(word: char -> bool, home: string, other: string, r: Pattern, text: string, k: nat, l: nat) returns (t: nat)
    requires Accepted(home) && Accepted(other) && (r == Plain(other) || r == Escaped(other))
    requires MatchAt(word, Escaped(home), text, k) && MatchAt(word, r, text, l) && k < l <= k + |EscapeSlashes(home)|
    ensures Splits(word, home, t)
  {
    hide Splits, IsEscaped, MatchAt, HasAt, EscapeSlashes;
    var i := l - k;
    MatchFacts(word, Escaped(home), text, k);
    MatchFacts(word, r, text, l);
    CharAt(text, k, EscapeSlashes(home), i - 1);
    OtherBegins(other, r, text, l);
    if i == |EscapeSlashes(home)| {
      t := |home|;
      EscapedEnd(home);
      SlashSplits(word, home, t);
    } else {
      CharAt(text, k, EscapeSlashes(home), i);
      if r == Plain(other) {
        t := EscapedSlash(home, i);
        assert false;
      }
      if i + 1 < |EscapeSlashes(home)| {
        CharAt(text, k, EscapeSlashes(home), i + 1);
        t := EscapedSlash(home, i + 1);
        SlashSplits(word, home, t);
      } else {
        NoSlashFollows(word, home, text, k);
        assert false;
      }
    }
  }

  lemma MatchFacts(word: char -> bool, p: Pattern, text: string, at: nat)
    requires MatchAt(word, p, text, at)
    ensures HasAt(text, at, p.literal) && at <= |text| && (at > 0 ==> !Continues(word, text[at - 1]))
  {
  }

  lemma CharAt(text: string, at: nat, literal: string, j: nat)
    requires HasAt(text, at, literal) && j < |literal|
    ensures at + j < |text| && text[at + j] == literal[j]
  {
    assert text[at..][j] == literal[j];
  }

  lemma SlashSplits(word: char -> bool, home: string, t: nat)
    requires 0 < t <= |home| && !Continues(word, home[t - 1]) && (t == |home| || home[t] == '/')
    ensures Splits(word, home, t)
  {
  }

  lemma OtherBegins(other: string, r: Pattern, text: string, l: nat)
    requires Accepted(other) && (r == Plain(other) || r == Escaped(other)) && HasAt(text, l, r.literal)
    ensures l + 1 < |text| && (r == Plain(other) ==> text[l] == '/') && (r == Escaped(other) ==> text[l] == '\\' && text[l + 1] == '/')
  {
    assert text[l..][0] == r.literal[0] && text[l..][1] == r.literal[1];
  }

  lemma NoSlashFollows(word: char -> bool, home: string, text: string, k: nat)
    requires MatchAt(word, Escaped(home), text, k)
    ensures var e := k + |EscapeSlashes(home)|; e < |text| ==> text[e] != '/'
  {
    var e := k + |EscapeSlashes(home)|;
    assert HasAt(text, e, "\\/") ==> text[e..][0] == '\\';
  }

  lemma EscapedKeepsOff(word: char -> bool, home: string, other: string, r: Pattern, text: string)
    requires Accepted(home) && Accepted(other) && Whole(word, home)
    requires r == Plain(other) || r == Escaped(other)
    ensures KeepsOff(word, Escaped(home), r, text)
  {
    hide MatchAt, Splits;
    var n := |EscapeSlashes(home)|;
    forall k: nat, l: nat | MatchAt(word, Escaped(home), text, k) && MatchAt(word, r, text, l) && k < l ensures k + n < l {
      if l <= k + n { var t := EscapedOverlapSplits(word, home, other, r, text, k, l); }
    }
  }

  // ---- Passes of equal length commute ----------------------------------------------------------

  /** The homes whose order a set decides: two of equal length. */
  ghost predicate Tie(word: char -> bool, a: string, b: string) {
    && a != b && |a| == |b| && Accepted(a) && Accepted(b) && StableHomes(word, [a, b])
    && Whole(word, a) && Whole(word, b)
  }

  /** At one position at most one of the patterns matches. */
  ghost predicate OneAt(word: char -> bool, ps: seq<Pattern>, text: string) {
    forall p <- ps, r <- ps, at: nat :: MatchAt(word, p, text, at) && MatchAt(word, r, text, at) ==> p == r
  }

  lemma HomeOf(homes: seq<string>, p: Pattern) returns (home: string)
    requires p in Patterns(homes)
    ensures home in homes && (p == Plain(home) || p == Escaped(home))
  {
    PatternOfHome(homes, p);
    home :| home in homes && (p == Plain(home) || p == Escaped(home));
  }

  lemma TieKeepsOff(word: char -> bool, a: string, b: string, text: string, p: Pattern, r: Pattern)
    requires Tie(word, a, b) && p in Patterns([a, b]) && r in Patterns([a, b])
    ensures KeepsOff(word, p, r, text)
  {
    hide Whole, KeepsOff, Patterns, StableHomes;
    var x := HomeOf([a, b], p);
    var y := HomeOf([a, b], r);
    if p == Plain(x) { PlainKeepsOff(word, x, y, r, text); } else { EscapedKeepsOff(word, x, y, r, text); }
  }

  lemma TieIsApart(word: char -> bool, a: string, b: string, text: string)
    requires Tie(word, a, b)
    ensures Apart(word, Patterns([a, b]), text)
  {
    hide KeepsOff, Patterns, Tie;
    forall p <- Patterns([a, b]), r <- Patterns([a, b]) | p != r ensures KeepsOff(word, p, r, text) {
      TieKeepsOff(word, a, b, text, p, r);
    }
  }

  lemma TieMatchesOne(word: char -> bool, a: string, b: string, text: string)
    requires Tie(word, a, b)
    ensures OneAt(word, Patterns([a, b]), text)
  {
    hide Whole, MatchAt, Patterns, StableHomes;
    var ps := Patterns([a, b]);
    forall p <- ps, r <- ps, at: nat | MatchAt(word, p, text, at) && MatchAt(word, r, text, at) ensures p == r {
      var x := HomeOf([a, b], p);
      var y := HomeOf([a, b], r);
      OneSpelling(word, x, y, p, r, text, at);
    }
  }

  lemma OneSpelling(word: char -> bool, a: string, b: string, p: Pattern, r: Pattern, text: string, at: nat)
    requires Accepted(a) && Accepted(b) && |a| == |b|
    requires (p == Plain(a) || p == Escaped(a)) && (r == Plain(b) || r == Escaped(b))
    requires MatchAt(word, p, text, at) && MatchAt(word, r, text, at)
    ensures p == r
  {
    assert EscapeSlashes(a)[0] == '\\' == EscapeSlashes(b)[0];
    assert p.literal[0] == text[at..][0] == r.literal[0];
    if p == Plain(a) {
      assert a == text[at..][..|a|] && r == Plain(b);
    } else {
      assert r == Escaped(b);
      EscapedPrefixes(a, b, text[at..]);
    }
  }

  /** Where one pattern at most matches, the order of the patterns is of no consequence. */
  lemma {:induction false} SameAtOnce(word: char -> bool, ps: seq<Pattern>, rs: seq<Pattern>, text: string, at: nat)
    requires AllUsable(ps) && AllUsable(rs) && OneAt(word, ps, text) && at <= |text|
    requires forall p :: p in ps <==> p in rs
    ensures AtOnceFrom(word, ps, text, at) == AtOnceFrom(word, rs, text, at)
    decreases |text| - at
  {
    hide MatchAt, AtOnceFrom;
    if at == |text| {
      AtOnceEnds(word, ps, text);
      AtOnceEnds(word, rs, text);
    } else {
      AtOnceStep(word, ps, text, at);
      AtOnceStep(word, rs, text, at);
      var i, j := First(word, ps, text, at), First(word, rs, text, at);
      if i >= 0 { assert ps[i] in ps && ps[i] in rs; }
      if j >= 0 { assert rs[j] in rs && rs[j] in ps; }
      SameAtOnce(word, ps, rs, text, at + if i >= 0 then |ps[i].literal| else 1);
    }
  }

  lemma TwoPasses(word: char -> bool, text: string, a: string, b: string)
    requires a != "" && b != ""
    ensures Generalized(word, text, [a, b]) == Pass(word, Pass(word, text, a), b)
  {
    hide Pass;
    assert [a, b][..1] == [a] && [a][..0] == [];
    assert Generalized(word, text, [a]) == Pass(word, text, a);
  }

  lemma TiedPasses(word: char -> bool, text: string, a: string, b: string)
    requires Tie(word, a, b)
    ensures a != "" && b != "" && Pass(word, Pass(word, text, a), b) == AtOnceFrom(word, Patterns([a, b]), text, 0)
  {
    hide Whole, Pass, Patterns, Exposed, Apart;
    TwoPasses(word, text, a, b);
    GeneralizedIsSubs(word, text, [a, b]);
    AllPatternsAreStable(word, [a, b]);
    TieIsApart(word, a, b, text);
    SubsAreAtOnce(word, Patterns([a, b]), text);
  }

  /** The passes of two whole homes of equal length commute. */
  lemma TiesCommute(word: char -> bool, text: string, a: string, b: string)
    requires Tie(word, a, b)
    ensures a != "" && b != "" && Pass(word, Pass(word, text, a), b) == Pass(word, Pass(word, text, b), a)
  {
    hide Whole, Pass, Patterns, Exposed, AtOnceFrom;
    assert Tie(word, b, a) by { assert forall home <- [b, a] :: home in [a, b]; }
    TiedPasses(word, text, a, b);
    TiedPasses(word, text, b, a);
    TieMatchesOne(word, a, b, text);
    forall p ensures p in Patterns([a, b]) <==> p in Patterns([b, a]) {
      PatternOfHome([a, b], p);
      PatternOfHome([b, a], p);
    }
    SameAtOnce(word, Patterns([a, b]), Patterns([b, a]), text, 0);
  }

  // ---- Order is of no consequence --------------------------------------------------------------

  /** A home can be moved behind others of its length. */
  lemma {:induction false} MovedToEnd(word: char -> bool, text: string, front: seq<string>, home: string, ties: seq<string>)
    requires Homes(front) && home != "" && forall tie <- ties :: tie != "" && Tie(word, home, tie)
    ensures Generalized(word, text, front + [home] + ties) == Generalized(word, text, front + ties + [home])
    decreases |ties|
  {
    hide Generalized, Pass, Tie;
    if ties == [] {
      assert front + [home] + ties == front + ties + [home];
    } else {
      var some, last := ties[..|ties| - 1], ties[|ties| - 1];
      assert ties == some + [last] && last in ties;
      assert front + [home] + ties == front + [home] + some + [last] && front + ties + [home] == front + some + [last] + [home];
      assert Homes(some) by { assert forall tie <- some :: tie in ties; }
      JoinHomes(front, some);
      JoinHomes(front + some, [last]);
      JoinHomes(front, [home]);
      JoinHomes(front + [home], some);
      MovedToEnd(word, text, front, home, some);
      GeneralizedStep(word, text, front + [home] + some, last);
      GeneralizedStep(word, text, front + some, home);
      GeneralizedStep(word, text, front + some, last);
      GeneralizedStep(word, text, front + some + [last], home);
      TiesCommute(word, Generalized(word, text, front + some), home, last);
    }
  }

  /** Accepted homes of which any two of equal length are whole. */
  ghost predicate NoTieDecides(word: char -> bool, homes: seq<string>) {
    && StableHomes(word, homes)
    && forall a <- homes, b <- homes :: a != b && |a| == |b| ==> Tie(word, a, b)
  }

  lemma JoinHomes(front: seq<string>, back: seq<string>)
    requires Homes(front) && Homes(back)
    ensures Homes(front + back)
  {
  }

  /** All homes but one still come longest first. */
  lemma PassesWithout(homes: seq<string>, given: seq<string>, j: nat, front: seq<string>)
    requires Passes(homes, given) && j < |homes|
    requires forall home :: home in front <==> home in given && home != homes[j]
    ensures Passes(homes[..j] + homes[j + 1..], front)
  {
    var rest := homes[..j] + homes[j + 1..];
    assert forall i :: 0 <= i < |rest| ==> rest[i] == if i < j then homes[i] else homes[i + 1];
    forall home ensures home in rest <==> home in front {
      assert homes == homes[..j] + [homes[j]] + homes[j + 1..];
      if home in rest { var i :| 0 <= i < |rest| && rest[i] == home; }
    }
  }

  lemma FrontOf(homes: seq<string>, given: seq<string>)
    requires Passes(homes, given) && homes != []
    ensures var last, front := homes[|homes| - 1], homes[..|homes| - 1];
            && (forall home :: home in front <==> home in given && home != last)
            && (forall home <- front :: |home| >= |last|)
            && Passes(front, front)
  {
    var last, front := homes[|homes| - 1], homes[..|homes| - 1];
    assert homes == front + [last];
    forall home ensures home in front <==> home in given && home != last {
      if home in front { var i :| 0 <= i < |front| && front[i] == home; }
    }
  }

  lemma SplitAtLast(homes: seq<string>, other: seq<string>, given: seq<string>) returns (j: nat)
    requires Passes(homes, given) && Passes(other, given) && homes != []
    ensures j < |other| && other[j] == homes[|homes| - 1]
    ensures forall i :: j < i < |other| ==> other[i] in homes && other[i] != other[j] && |other[i]| == |other[j]|
    ensures Passes(homes[..|homes| - 1], homes[..|homes| - 1]) && Passes(other[..j] + other[j + 1..], homes[..|homes| - 1])
  {
    var last := homes[|homes| - 1];
    FrontOf(homes, given);
    assert last in homes && last in other;
    j :| 0 <= j < |other| && other[j] == last;
    forall i | j < i < |other| ensures other[i] in homes && other[i] != last && |other[i]| == |last| {
      assert other[i] in other && other[i] in given;
    }
    PassesWithout(other, given, j, homes[..|homes| - 1]);
  }

  /**
   Homes that the command line accepts and that are whole where others have their length: in whatever order a set
   yields them, every text comes out the same.
   */
  lemma {:induction false} TiesDoNotDecide(word: char -> bool, text: string, homes: seq<string>, other: seq<string>, given: seq<string>)
    requires Passes(homes, given) && Passes(other, given) && NoTieDecides(word, homes)
    ensures Generalized(word, text, homes) == Generalized(word, text, other)
    decreases |homes|
  {
    hide Generalized, Exposed, Tie, Pass, NoTieDecides;
    NoHomes(homes, other, given);
    if homes != [] {
      var j := SplitAtLast(homes, other, given);
      var front, last, before, ties := homes[..|homes| - 1], homes[|homes| - 1], other[..j], other[j + 1..];
      FewerTies(word, front, homes);
      TiesDoNotDecide(word, text, front, before + ties, front);
      TiesBehind(word, homes, other, j);
      hide Passes;
      assert homes == front + [last] && other == before + [last] + ties;
      MovedToEnd(word, text, before, last, ties);
      GeneralizedStep(word, text, front, last);
      GeneralizedStep(word, text, before + ties, last);
    }
  }

  lemma FewerTies(word: char -> bool, front: seq<string>, homes: seq<string>)
    requires NoTieDecides(word, homes) && front <= homes
    ensures NoTieDecides(word, front)
  {
    hide Tie, Exposed;
    assert forall home <- front :: home in homes;
  }

  lemma NoHomes(homes: seq<string>, other: seq<string>, given: seq<string>)
    requires Passes(homes, given) && Passes(other, given)
    ensures homes == [] <==> other == []
  {
    if homes != [] { assert homes[0] in homes && homes[0] in given; }
    if other != [] { assert other[0] in other && other[0] in given; }
  }

  lemma TiesBehind(word: char -> bool, homes: seq<string>, other: seq<string>, j: nat)
    requires NoTieDecides(word, homes) && j < |other| && Homes(other) && other[j] in homes
    requires forall i :: j < i < |other| ==> other[i] in homes && other[i] != other[j] && |other[i]| == |other[j]|
    ensures Homes(other[..j]) && other[j] != "" && forall tie <- other[j + 1..] :: tie != "" && Tie(word, other[j], tie)
  {
    hide Tie, Exposed;
    forall tie <- other[j + 1..] ensures tie != "" && Tie(word, other[j], tie) {
      var i :| 0 <= i < |other[j + 1..]| && other[j + 1..][i] == tie;
      assert other[j + 1 + i] == tie;
    }
  }

  // ---- Order decides ---------------------------------------------------------------------------

  lemma FirstStays(word: char -> bool, p: Pattern, text: string)
    requires p.literal != "" && text != "" && p.literal[0] != text[0]
    ensures var after := Sub(word, p, text); after != "" && after[0] == text[0]
  {
    assert text[0..][0] == text[0];
    assert !MatchAt(word, p, text, 0);
  }

  lemma FirstStaysUnmatched(word: char -> bool, p: Pattern, text: string)
    requires p.literal != "" && text != "" && !MatchAt(word, p, text, 0)
    ensures var after := Sub(word, p, text); after != "" && after[0] == text[0]
  {
    hide MatchAt;
  }

  lemma FirstReplaced(word: char -> bool, p: Pattern, text: string)
    requires p.literal != "" && MatchAt(word, p, text, 0)
    ensures var after := Sub(word, p, text); after != "" && after[0] == '~'
  {
    MatchFits(word, p, text, 0);
    hide MatchAt;
  }

  /** Another home of the same length that begins inside this one, or right behind it, and reaches beyond it. */
  ghost predicate Overlap(word: char -> bool, home: string, t: nat, other: string, p: Pattern, text: string) {
    && Accepted(home) && Accepted(other) && home != other && |home| == |other| && !Exposed(word, false, home)
    && (p == Plain(other) || p == Escaped(other))
    && MatchAt(word, Plain(home), text, 0) && 0 < t <= |home| && MatchAt(word, p, text, t)
    && (p == Escaped(other) ==> t < |home| && forall i: nat :: i >= |home| ==> !MatchAt(word, Plain(other), text, i))
  }

  lemma StartIsReplaced(word: char -> bool, text: string, home: string, other: string)
    requires Accepted(home) && Accepted(other) && MatchAt(word, Plain(home), text, 0)
    ensures var result := Pass(word, Pass(word, text, home), other); result != "" && result[0] == '~'
  {
    hide MatchAt, Sub, EscapeSlashes;
    EscapedStart(home);
    EscapedStart(other);
    var once := Sub(word, Plain(home), text);
    FirstReplaced(word, Plain(home), text);
    FirstStays(word, Escaped(home), once);
    FirstStays(word, Plain(other), Pass(word, text, home));
    FirstStays(word, Escaped(other), Sub(word, Plain(other), Pass(word, text, home)));
  }

  lemma HomeFirst(word: char -> bool, home: string, t: nat, other: string, p: Pattern, text: string)
    requires Overlap(word, home, t, other, p, text)
    ensures var result := Generalized(word, text, [home, other]); result != "" && result[0] == '~'
  {
    hide MatchAt, Exposed, Generalized;
    TwoPasses(word, text, home, other);
    StartIsReplaced(word, text, home, other);
  }

  lemma EscapedStart(home: string)
    requires Accepted(home)
    ensures EscapeSlashes(home) != "" && EscapeSlashes(home)[0] == '\\'
  {
  }

  /** If a home at the front is still there after a pass, the pass matched nothing in it or right behind it. */
  lemma FrontWasThere(word: char -> bool, p: Pattern, text: string, home: string)
    requires Usable(p) && home != "" && !Exposed(word, false, home) && MatchAt(word, Plain(home), Sub(word, p, text), 0)
    ensures MatchAt(word, Plain(home), text, 0) && forall i :: 0 <= i <= |home| ==> !MatchAt(word, p, text, i)
  {
    hide MatchAt, Exposed, Continues;
    var after := Sub(word, p, text);
    assert after[0..] == after;
    MatchWasThere(word, p, text, Plain(home), 0, 0);
    assert after[|home|..] == SubFrom(word, p, text, |home|);
    if MatchAt(word, p, text, |home|) {
      MatchFits(word, p, text, |home|);
      assert after[|home|..][0] == '~';
      NoTildeFollows(word, after, home);
    }
  }

  lemma NoTildeFollows(word: char -> bool, after: string, home: string)
    requires MatchAt(word, Plain(home), after, 0) && |home| < |after|
    ensures after[|home|] != '~'
  {
    assert HasAt(after, |home|, "/") ==> after[|home|..][0] == '/';
  }

  lemma OtherFirst(word: char -> bool, home: string, t: nat, other: string, p: Pattern, text: string)
    requires Overlap(word, home, t, other, p, text)
    ensures var result := Generalized(word, text, [other, home]); result != "" && result[0] == '/'
  {
    hide MatchAt, Sub, Exposed, Generalized;
    TwoPasses(word, text, other, home);
    EscapedStart(home);
    EscapedStart(other);
    NotBoth(word, home, other, text);
    FirstStaysUnmatched(word, Plain(other), text);
    var once := Sub(word, Plain(other), text);
    var twice := Sub(word, Escaped(other), once);
    FirstStays(word, Escaped(other), once);
    if MatchAt(word, Plain(home), twice, 0) {
      FrontWasThere(word, Escaped(other), once, home);
      FrontWasThere(word, Plain(other), text, home);
      if p == Escaped(other) {
        assert NoMatch(word, Plain(other), text);
        NothingToDo(word, Plain(other), text);
      }
      assert false;
    }
    FirstStaysUnmatched(word, Plain(home), twice);
    FirstStays(word, Escaped(home), Sub(word, Plain(home), twice));
  }

  lemma NotBoth(word: char -> bool, home: string, other: string, text: string)
    requires home != other && |home| == |other| && home != "" && MatchAt(word, Plain(home), text, 0)
    ensures text != "" && text[0] == home[0] && !MatchAt(word, Plain(other), text, 0)
  {
    assert text[0..] == text;
    assert home == text[..|home|];
  }

  function Fill(home: string, n: nat): (r: string)
    requires home != ""
    ensures |r| == n && forall c <- r :: c != '/' && c != home[|home| - 1]
  {
    seq(n, _ => if home[|home| - 1] == '-' then '.' else '-')
  }

  lemma {:induction false} EscapedAppend(a: string, b: string)
    ensures EscapeSlashes(a + b) == EscapeSlashes(a) + EscapeSlashes(b)
  {
    hide EscapeSlashes;
    EscapedStep(a);
    EscapedStep(a + b);
    if a == "" {
      assert a + b == b;
    } else {
      EscapedAppend(a[1..], b);
      assert (a + b)[1..] == a[1..] + b && (a + b)[0] == a[0];
      Regrouped(if a[0] == '/' then "\\/" else [a[0]], EscapeSlashes(a[1..]), EscapeSlashes(b));
    }
  }

  lemma EscapedStep(s: string)
    ensures EscapeSlashes(s) == if s == "" then "" else (if s[0] == '/' then "\\/" else [s[0]]) + EscapeSlashes(s[1..])
  {
  }

  lemma {:induction false} NothingToEscape(s: string)
    requires '/' !in s
    ensures EscapeSlashes(s) == s
  {
    if s != "" {
      NothingToEscape(s[1..]);
      assert s[0] in s && s == [s[0]] + s[1..];
    }
  }

  lemma {:induction false} Unescaped(s: string) returns (u: string)
    requires s != "" ==> s[0] != '/'
    requires forall i :: 0 < i < |s| && s[i] == '/' ==> s[i - 1] == '\\'
    ensures EscapeSlashes(u) == s
    ensures |s| > 1 && s[1] == '/' ==> u != "" && u[0] == '/' && |u| < |s|
  {
    if s == "" {
      u := "";
    } else if |s| > 1 && s[1] == '/' {
      var rest := Unescaped(s[2..]);
      u := "/" + rest;
      assert s == "\\/" + s[2..];
    } else {
      var rest := Unescaped(s[1..]);
      u := [s[0]] + rest;
      assert s == [s[0]] + s[1..];
    }
  }

  lemma MatchAtFront(word: char -> bool, home: string, c: char, rest: string)
    requires c == '/' || IsBoundary(c)
    ensures MatchAt(word, Plain(home), home + [c] + rest, 0)
  {
    var text := home + [c] + rest;
    assert text[0..] == text && text[|home|] == c && text[|home|..] == [c] + rest;
  }

  lemma MatchAtEnd(word: char -> bool, p: Pattern, front: string)
    requires front != "" && !Continues(word, front[|front| - 1])
    ensures MatchAt(word, p, front + p.literal, |front|)
  {
    assert (front + p.literal)[|front|..] == p.literal;
  }

  /** A slash at `t`, or the end of the home: the other home begins there in its plain spelling. */
  lemma PlainOverlap(word: char -> bool, home: string, t: nat) returns (other: string, text: string)
    requires Accepted(home) && !Exposed(word, false, home) && Splits(word, home, t) && (t == |home| || home[t] == '/')
    ensures other == home[t..] + "/" + Fill(home, t - 1) && Overlap(word, home, t, other, Plain(other), text)
  {
    hide MatchAt, Exposed;
    assert t > 1;
    other := home[t..] + "/" + Fill(home, t - 1);
    text := home[..t] + other;
    assert other[|other| - 1] in Fill(home, t - 1);
    assert text == home + ['/'] + Fill(home, t - 1);
    MatchAtFront(word, home, '/', Fill(home, t - 1));
    MatchAtEnd(word, Plain(other), home[..t]);
  }

  /** A backslash at the end of the home: the other home begins there in its escaped spelling. */
  lemma LastOverlap(word: char -> bool, home: string, t: nat) returns (other: string, text: string)
    requires Accepted(home) && !Exposed(word, false, home) && Splits(word, home, t) && home[t..] == "\\"
    ensures Overlap(word, home, t, other, Escaped(other), text)
  {
    hide MatchAt, Exposed, Fill, EscapeSlashes, IsEscaped;
    var fill := Fill(home, t);
    other := "/" + fill;
    SlashFirst(fill);
    text := home[..t] + EscapeSlashes(other);
    assert other[|other| - 1] in fill;
    assert text == home + ['/'] + fill;
    MatchAtFront(word, home, '/', fill);
    MatchAtEnd(word, Escaped(other), home[..t]);
    forall i: nat | i >= |home| ensures !MatchAt(word, Plain(other), text, i) {
      if i == |home| { NoMatchAfter(word, Plain(other), text, i); }
      if MatchAt(word, Plain(other), text, i) { MatchFits(word, Plain(other), text, i); }
    }
  }

  lemma SlashFirst(fill: string)
    requires '/' !in fill
    ensures EscapeSlashes("/" + fill) == "\\/" + fill
  {
    NothingToEscape(fill);
    assert ("/" + fill)[1..] == fill;
  }

  /** Escaped slashes from `t` on: the other home goes on with a blank. */
  lemma EscapedOverlap(word: char -> bool, home: string, t: nat) returns (other: string, text: string)
    requires Accepted(home) && !Exposed(word, false, home) && Splits(word, home, t) && t + 1 < |home| && IsEscaped(home[t..])
    ensures Overlap(word, home, t, other, Escaped(other), text)
  {
    hide MatchAt, Exposed, Fill, EscapeSlashes, IsEscaped, Splits;
    SplitsBehind(word, home, t);
    var u := TailUnescaped(home, t);
    var fill := Fill(home, |home| - |u| - 1);
    other := u + (" " + fill);
    BlankRival(home, u, fill);
    EscapedAppend(u, " " + fill);
    NothingToEscape(" " + fill);
    text := home[..t] + EscapeSlashes(other);
    Continued(home, t, " " + fill);
    MatchAtFront(word, home, ' ', fill);
    MatchAtEnd(word, Escaped(other), home[..t]);
    forall i: nat | i >= |home| ensures !MatchAt(word, Plain(other), text, i) {
      NoSlashBehind(word, home, " " + fill, other, i);
    }
  }

  lemma SplitsBehind(word: char -> bool, home: string, t: nat)
    requires Splits(word, home, t)
    ensures 0 < t <= |home| && !Continues(word, home[t - 1])
  {
  }

  lemma TailUnescaped(home: string, t: nat) returns (u: string)
    requires t + 1 < |home| && IsEscaped(home[t..])
    ensures EscapeSlashes(u) == home[t..] && u != "" && u[0] == '/' && |u| < |home| - t
  {
    u := Unescaped(home[t..]);
  }

  lemma BlankRival(home: string, u: string, fill: string)
    requires Accepted(home) && u != "" && u[0] == '/' && |u| + 1 + |fill| == |home| && fill != ""
    requires forall c <- fill :: c != '/' && c != home[|home| - 1]
    ensures var other := u + (" " + fill); Accepted(other) && |other| == |home| && other != home && '/' !in " " + fill
    ensures home + (" " + fill) == home + [' '] + fill
  {
    var other := u + (" " + fill);
    assert other[|other| - 1] == fill[|fill| - 1] && fill[|fill| - 1] in fill;
  }

  lemma Continued(home: string, t: nat, more: string)
    requires t <= |home|
    ensures home[..t] + (home[t..] + more) == home + more
  {
  }

  lemma NoSlashBehind(word: char -> bool, home: string, more: string, other: string, i: nat)
    requires '/' !in more && other != "" && other[0] == '/' && |home| <= i
    ensures !MatchAt(word, Plain(other), home + more, i)
  {
    if MatchAt(word, Plain(other), home + more, i) { MatchedStart(word, Plain(other), home + more, i); }
  }

  lemma MatchedStart(word: char -> bool, p: Pattern, text: string, at: nat)
    requires p.literal != "" && MatchAt(word, p, text, at)
    ensures at < |text| && text[at] == p.literal[0]
  {
    assert text[at..][0] == text[at];
  }

  /**
   A home that is not whole: some other home of its length and some text come out differently in the two orders that
   the set may yield, as "/a /b" and "/b/--" do in "/a /b/--".
   */
  lemma TiesMayDecide(word: char -> bool, home: string) returns (other: string, text: string)
    requires Accepted(home) && !Exposed(word, false, home) && !Whole(word, home)
    ensures Accepted(other) && |other| == |home| && other != home
    ensures Passes([home, other], [home, other]) && Passes([other, home], [home, other])
    ensures Generalized(word, text, [home, other]) != Generalized(word, text, [other, home])
  {
    hide Exposed, MatchAt, Generalized, IsEscaped;
    var t: nat :| Splits(word, home, t);
    var p: Pattern;
    if t == |home| || home[t] == '/' {
      other, text := PlainOverlap(word, home, t);
      p := Plain(other);
    } else {
      if t + 1 == |home| {
        LastIsBackslash(home, t);
        other, text := LastOverlap(word, home, t);
      } else {
        other, text := EscapedOverlap(word, home, t);
      }
      p := Escaped(other);
    }
    HomeFirst(word, home, t, other, p, text);
    OtherFirst(word, home, t, other, p, text);
  }

  lemma LastIsBackslash(home: string, t: nat)
    requires t + 1 == |home| && IsEscaped(home[t..])
    ensures home[t..] == "\\"
  {
  }

  // ---- Exactly the whole homes -----------------------------------------------------------------

  /** Another accepted home, itself whole and without exposed `~`, of this one's length. */
  ghost predicate Rival(word: char -> bool, home: string, other: string) {
    other != home && |other| == |home| && Accepted(other) && !Exposed(word, false, other) && Whole(word, other)
  }

  ghost predicate OrderDecides(word: char -> bool, home: string, other: string, text: string)
    requires home != "" && other != ""
  {
    Generalized(word, text, [home, other]) != Generalized(word, text, [other, home])
  }

  lemma {:induction false} OpenPrefix(a: string, b: string)
    requires OpenAfter(a + b)
    ensures OpenAfter(a)
    decreases a
  {
    if a != "" && a[0] == '~' {
      assert (a + b)[1..] == a[1..] + b;
      OpenPrefix(a[1..], b);
    }
  }

  /** What a string without `~` follows or precedes gains no exposed `~`. */
  lemma {:induction false} ExposedPrefix(word: char -> bool, blocked: bool, a: string, b: string)
    requires '~' !in b && Exposed(word, blocked, a + b)
    ensures Exposed(word, blocked, a)
    decreases a
  {
    if a == "" {
      assert a + b == b;
      InnerTildesAreStable(word, blocked, b);
    } else {
      assert (a + b)[1..] == a[1..] + b;
      if a[0] == '~' && !blocked && OpenAfter(a[1..] + b) {
        OpenPrefix(a[1..], b);
      } else {
        ExposedPrefix(word, Continues(word, a[0]), a[1..], b);
      }
    }
  }

  lemma {:induction false} ExposedSuffix(word: char -> bool, blocked: bool, s: string, t: nat)
    requires 0 < t <= |s| && Exposed(word, Continues(word, s[t - 1]), s[t..])
    ensures Exposed(word, blocked, s)
    decreases s
  {
    if t > 1 {
      assert s[1..][t - 1..] == s[t..];
      ExposedSuffix(word, Continues(word, s[0]), s[1..], t - 1);
    }
  }

  lemma {:induction false} LastSplit(word: char -> bool, home: string, from: nat) returns (t: nat)
    requires Splits(word, home, from)
    ensures from <= t && Splits(word, home, t) && forall i: nat :: i > t ==> !Splits(word, home, i)
    decreases |home| - from
  {
    if i: nat :| i > from && Splits(word, home, i) {
      t := LastSplit(word, home, i);
    } else {
      t := from;
    }
  }

  /** At the last split of a home without backslashes, a rival begins. */
  lemma RivalBegins(word: char -> bool, home: string, t: nat)
    requires Accepted(home) && !Exposed(word, false, home) && '\\' !in home && Splits(word, home, t)
    requires forall i: nat :: i > t ==> !Splits(word, home, i)
    ensures var other := home[t..] + "/" + Fill(home, t - 1); !Exposed(word, false, other) && Whole(word, other)
  {
    var tail, fill := home[t..], Fill(home, t - 1);
    var other := tail + "/" + fill;
    assert other == tail + ("/" + fill);
    if Exposed(word, false, other) {
      ExposedPrefix(word, false, tail, "/" + fill);
      ExposedSuffix(word, false, home, t);
    }
    forall s: nat ensures !Splits(word, other, s) {
      if 0 < s <= |tail| {
        assert other[s - 1] == home[t + s - 1];
        assert !Splits(word, home, t + s);
        assert other[s] == if s < |tail| then home[t + s] else '/';
      } else if |tail| < s <= |other| {
        assert Continues(word, other[s - 1]);
      }
    }
  }

  /**
   For a home without backslashes: it is whole exactly when beside every rival, and in every text, the order in which a
   set yields the two is of no consequence.
   */
  lemma WholeHomesDecide(word: char -> bool, home: string)
    requires Accepted(home) && !Exposed(word, false, home) && '\\' !in home
    ensures Whole(word, home) <==> forall other, text :: Rival(word, home, other) ==> !OrderDecides(word, home, other, text)
  {
    hide Exposed, Generalized;
    if Whole(word, home) {
      forall other, text | Rival(word, home, other) ensures !OrderDecides(word, home, other, text) {
        TiesCommute(word, text, home, other);
        TwoPasses(word, text, home, other);
        TwoPasses(word, text, other, home);
      }
    } else {
      var from: nat :| Splits(word, home, from);
      var t := LastSplit(word, home, from);
      RivalBegins(word, home, t);
      var other, text := PlainOverlap(word, home, t);
      HomeFirst(word, home, t, other, Plain(other), text);
      OtherFirst(word, home, t, other, Plain(other), text);
      assert Rival(word, home, other) && OrderDecides(word, home, other, text);
    }
  }
}
