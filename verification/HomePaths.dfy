/**
 Replacing home-directory prefixes by `~`, longest home first, each in its plain and its JSON-escaped spelling.
 */
module HomePaths {
  import opened Sorting

  // ---- Patterns --------------------------------------------------------------------------------

  /** White space in a Unicode regular expression. */
  predicate IsSpace(c: char) {
    var n := c as int;
    || 9 <= n <= 13 || 28 <= n <= 32 || n == 0x85 || n == 0xA0 || n == 0x1680 || 0x2000 <= n <= 0x200A
    || n == 0x2028 || n == 0x2029 || n == 0x202F || n == 0x205F || n == 0x3000
  }

  /** What may end a path besides the end of the text. */
  predicate IsBoundary(c: char) {
    IsSpace(c) || c in "\"'`<>])},;:"
  }

  /** What must not stand before a path; `word` tells letters, digits and underscores. */
  predicate Continues(word: char -> bool, c: char) {
    word(c) || c in "./\\~:-"
  }

  /** A literal and the separator that may follow it. */
  datatype Pattern = Pattern(literal: string, separator: string)

  function EscapeSlashes(s: string): (r: string)
    ensures |r| >= |s|
  {
    if s == "" then "" else (if s[0] == '/' then "\\/" else [s[0]]) + EscapeSlashes(s[1..])
  }

  function Plain(home: string): Pattern {
    Pattern(home, "/")
  }

  function Escaped(home: string): Pattern {
    Pattern(EscapeSlashes(home), "\\/")
  }

  predicate HasAt(text: string, at: nat, literal: string) {
    at <= |text| && literal <= text[at..]
  }

  predicate MayPrecede(word: char -> bool, text: string, at: nat)
    requires at <= |text|
  {
    at == 0 || !Continues(word, text[at - 1])
  }

  predicate MayFollow(p: Pattern, text: string, at: nat)
    requires at <= |text|
  {
    at == |text| || IsBoundary(text[at]) || HasAt(text, at, p.separator)
  }

  predicate MatchAt(word: char -> bool, p: Pattern, text: string, at: nat) {
    && HasAt(text, at, p.literal) && MayPrecede(word, text, at)
    && MayFollow(p, text, at + |p.literal|)
  }

  /** Substitution of the leftmost matches that do not overlap, from position `at` on. */
  function SubFrom(word: char -> bool, p: Pattern, text: string, at: nat): string
    requires p.literal != "" && at <= |text|
    decreases |text| - at
  {
    if at == |text| then ""
    else if MatchAt(word, p, text, at) then "~" + SubFrom(word, p, text, at + |p.literal|)
    else [text[at]] + SubFrom(word, p, text, at + 1)
  }

  function Sub(word: char -> bool, p: Pattern, text: string): string
    requires p.literal != ""
  {
    SubFrom(word, p, text, 0)
  }

  // ---- Generalizing ----------------------------------------------------------------------------

  function LongerFirst(): (string, string) -> bool {
    (a: string, b: string) => |a| >= |b|
  }

  /** The command line only accepts absolute homes without a trailing slash; what follows needs less. */
  predicate Homes(homes: seq<string>) {
    "" !in homes
  }

  /** The plain and the escaped pass of one home. */
  function Pass(word: char -> bool, text: string, home: string): string
    requires home != ""
  {
    Sub(word, Escaped(home), Sub(word, Plain(home), text))
  }

  function Generalized(word: char -> bool, text: string, homes: seq<string>): string
    requires Homes(homes)
  {
    if homes == [] then text
    else
      var home := homes[|homes| - 1];
      assert home in homes;
      Pass(word, Generalized(word, text, homes[..|homes| - 1]), home)
  }

  /** `listed` are the distinct homes in whatever order a set yields them. */
  method Generalize(word: char -> bool, text: string, listed: seq<string>) returns (result: string)
    requires NoRepeats(listed) && Homes(listed)
    ensures Passes(StableSort(LongerFirst(), listed), listed)
    ensures result == Generalized(word, text, StableSort(LongerFirst(), listed))
  {
    var homes := StableSort(LongerFirst(), listed);
    SortedPasses(listed);
    hide StableSort, Sub;
    result := text;
    for i := 0 to |homes|
      invariant result == Generalized(word, text, homes[..i])
    {
      assert homes[..i + 1][..i] == homes[..i] && homes[i] in homes;
      result := Sub(word, Plain(homes[i]), result);
      result := Sub(word, Escaped(homes[i]), result);
    }
    assert homes[..|homes|] == homes;
  }

  /** `homes` are the given homes, each once, none before a longer one. */
  ghost predicate Passes(homes: seq<string>, given: seq<string>) {
    && NoRepeats(homes) && (forall home :: home in homes <==> home in given)
    && (forall i, j :: 0 <= i < j < |homes| ==> |homes[i]| >= |homes[j]|)
    && Homes(homes)
  }

  lemma SortedPasses(listed: seq<string>)
    requires NoRepeats(listed) && Homes(listed)
    ensures Passes(StableSort(LongerFirst(), listed), listed)
  {
    StableSortSorts(LongerFirst(), listed);
    StableSortKeepsDistinct(LongerFirst(), listed);
    hide StableSort;
    var homes := StableSort(LongerFirst(), listed);
    forall i, j | 0 <= i < j < |homes| ensures |homes[i]| >= |homes[j]| {
      assert LongerFirst()(homes[i], homes[j]);
    }
  }

  // ---- Where matches come from -----------------------------------------------------------------

  ghost predicate NoMatch(word: char -> bool, p: Pattern, text: string) {
    forall at: nat :: at <= |text| ==> !MatchAt(word, p, text, at)
  }

  predicate Usable(p: Pattern) {
    p.literal != "" && (p.separator == "/" || p.separator == "\\/")
  }

  /** What may stand behind an inserted `~`: the end, a boundary, a separator, or another inserted `~`. */
  predicate OpenAfter(rest: string) {
    || rest == "" || IsBoundary(rest[0]) || rest[0] == '/' || (rest[0] == '\\' && (|rest| == 1 || rest[1] == '/'))
    || (rest[0] == '~' && OpenAfter(rest[1..]))
  }

  /**
   Some run of `~` in the string may be inserted ones: what precedes it may precede a path, and what follows it may
   follow one. `blocked` tells that the character before the string must not precede a path.
   */
  predicate Exposed(word: char -> bool, blocked: bool, s: string)
    decreases s
  {
    s != "" && ((s[0] == '~' && !blocked && OpenAfter(s[1..])) || Exposed(word, Continues(word, s[0]), s[1..]))
  }

  /** What a substitution puts behind an inserted `~`. */
  lemma {:induction false} InsertedIsOpen(word: char -> bool, p: Pattern, text: string, at: nat, rest: string)
    requires Usable(p) && MatchAt(word, p, text, at) && at + |p.literal| <= |text|
    requires rest <= SubFrom(word, p, text, at + |p.literal|)
    ensures OpenAfter(rest)
    decreases |text| - at
  {
    hide MatchAt, IsBoundary;
    var e := at + |p.literal|;
    FollowsMatch(word, p, text, at);
    if rest != "" && MatchAt(word, p, text, e) {
      MatchFits(word, p, text, e);
      assert rest[0] == '~' && rest[1..] <= SubFrom(word, p, text, e + |p.literal|);
      InsertedIsOpen(word, p, text, e, rest[1..]);
    } else if rest != "" {
      assert rest[0] == text[e];
      if !IsBoundary(text[e]) && p.separator != "/" {
        NoMatchAfter(word, p, text, e + 1);
        assert |rest| > 1 ==> rest[1] == text[e + 1];
      }
    }
  }

  lemma FollowsMatch(word: char -> bool, p: Pattern, text: string, at: nat)
    requires Usable(p) && MatchAt(word, p, text, at)
    ensures var e := at + |p.literal|;
            && e <= |text|
            && (e == |text| || IsBoundary(text[e]) || (p.separator == "/" && text[e] == '/')
                || (p.separator == "\\/" && e + 1 < |text| && text[e] == '\\' && text[e + 1] == '/'))
  {
  }

  lemma NoMatchAfter(word: char -> bool, p: Pattern, text: string, at: nat)
    requires 0 < at <= |text| && Continues(word, text[at - 1])
    ensures !MatchAt(word, p, text, at)
  {
  }

  lemma SubSkips(word: char -> bool, p: Pattern, text: string, at: nat)
    requires p.literal != "" && at < |text| && !MatchAt(word, p, text, at)
    ensures SubFrom(word, p, text, at) == [text[at]] + SubFrom(word, p, text, at + 1)
  {
  }

  /** An exposed `~` is all that a match can put at the front of a literal. */
  lemma MatchExposes(word: char -> bool, p: Pattern, text: string, at: nat, blocked: bool, literal: string)
    requires Usable(p) && at <= |text| && literal != "" && literal <= SubFrom(word, p, text, at) && MatchAt(word, p, text, at)
    requires blocked ==> at > 0 && Continues(word, text[at - 1])
    ensures Exposed(word, blocked, literal)
  {
    MatchFits(word, p, text, at);
    hide MatchAt, Continues, OpenAfter;
    if blocked { NoMatchAfter(word, p, text, at); }
    assert literal[0] == '~' && literal[1..] <= SubFrom(word, p, text, at)[1..];
    InsertedIsOpen(word, p, text, at, literal[1..]);
  }

  /** A literal without exposed `~` at the front of a substituted text was there before, untouched. */
  lemma {:induction false} LiteralWasThere(word: char -> bool, p: Pattern, text: string, at: nat, blocked: bool, literal: string)
    requires Usable(p) && at <= |text| && literal <= SubFrom(word, p, text, at) && !Exposed(word, blocked, literal)
    requires blocked ==> at > 0 && Continues(word, text[at - 1])
    ensures HasAt(text, at, literal)
    ensures SubFrom(word, p, text, at)[|literal|..] == SubFrom(word, p, text, at + |literal|)
    ensures forall i :: at <= i < at + |literal| ==> !MatchAt(word, p, text, i)
    decreases |literal|
  {
    hide MatchAt, Continues, OpenAfter, SubFrom;
    if literal != "" {
      var after := SubFrom(word, p, text, at);
      AtEnd(word, p, text);
      if MatchAt(word, p, text, at) {
        MatchExposes(word, p, text, at, blocked, literal);
        assert false;
      }
      SubSkips(word, p, text, at);
      assert after[0] == literal[0] && after[1..] == SubFrom(word, p, text, at + 1);
      assert literal[1..] <= after[1..];
      LiteralWasThere(word, p, text, at + 1, Continues(word, literal[0]), literal[1..]);
      assert after[|literal|..] == after[1..][|literal| - 1..];
      assert literal == [literal[0]] + literal[1..] && text[at..] == [text[at]] + text[at + 1..];
    }
  }

  lemma AtEnd(word: char -> bool, p: Pattern, text: string)
    requires p.literal != ""
    ensures SubFrom(word, p, text, |text|) == ""
  {
  }

  /** Every position of a substituted text comes from a position of the text, and the character before it with it. */
  lemma {:induction false} PositionWasThere(word: char -> bool, p: Pattern, text: string, at: nat, q: nat) returns (k: nat)
    requires p.literal != "" && at <= |text| && q <= |SubFrom(word, p, text, at)|
    ensures at <= k <= |text| && SubFrom(word, p, text, at)[q..] == SubFrom(word, p, text, k)
    ensures q == 0 ==> k == at
    ensures q > 0 ==> SubFrom(word, p, text, at)[q - 1] == '~' || (k > at && SubFrom(word, p, text, at)[q - 1] == text[k - 1])
    decreases q
  {
    hide MatchAt;
    var after := SubFrom(word, p, text, at);
    if q == 0 {
      k := at;
    } else {
      if MatchAt(word, p, text, at) { MatchFits(word, p, text, at); }
      var next := if MatchAt(word, p, text, at) then at + |p.literal| else at + 1;
      assert after[1..] == SubFrom(word, p, text, next);
      k := PositionWasThere(word, p, text, next, q - 1);
      assert after[q..] == after[1..][q - 1..];
      assert q > 1 ==> after[q - 1] == after[1..][q - 2];
    }
  }

  lemma MatchFits(word: char -> bool, p: Pattern, text: string, at: nat)
    requires MatchAt(word, p, text, at)
    ensures at + |p.literal| <= |text|
  {
  }

  /** A pattern whose literal no substitution can complete. */
  ghost predicate Stable(word: char -> bool, p: Pattern) {
    Usable(p) && !Exposed(word, false, p.literal)
  }

  /** Position `q` of the substituted text comes from position `k` of the text. */
  ghost predicate ComesFrom(word: char -> bool, p: Pattern, text: string, q: nat, k: nat)
    requires Usable(p)
  {
    var after := Sub(word, p, text);
    && q <= |after| && k <= |text| && after[q..] == SubFrom(word, p, text, k) && (q == 0 ==> k == 0)
    && (q > 0 ==> after[q - 1] == '~' || (k > 0 && after[q - 1] == text[k - 1]))
  }

  lemma EveryPositionComesFrom(word: char -> bool, p: Pattern, text: string, q: nat) returns (k: nat)
    requires Usable(p) && q <= |Sub(word, p, text)|
    ensures ComesFrom(word, p, text, q, k)
  {
    k := PositionWasThere(word, p, text, 0, q);
  }

  /** A match after a substitution was a match before it that the substitution left alone. */
  lemma MatchWasThere(word: char -> bool, p: Pattern, text: string, r: Pattern, q: nat, k: nat)
    requires Usable(p) && Stable(word, r) && MatchAt(word, r, Sub(word, p, text), q) && ComesFrom(word, p, text, q, k)
    ensures MatchAt(word, r, text, k) && forall i :: k <= i < k + |r.literal| ==> !MatchAt(word, p, text, i)
    ensures q + |r.literal| <= |Sub(word, p, text)|
    ensures k + |r.literal| <= |text| && Sub(word, p, text)[q + |r.literal|..] == SubFrom(word, p, text, k + |r.literal|)
  {
    hide SubFrom, Continues, IsBoundary, Exposed;
    var after := Sub(word, p, text);
    TildeContinues(word);
    assert r.literal <= SubFrom(word, p, text, k);
    LiteralWasThere(word, p, text, k, false, r.literal);
    assert after[q + |r.literal|..] == after[q..][|r.literal|..];
    FollowWasThere(word, p, text, r, k + |r.literal|);
  }

  lemma FollowWasThere(word: char -> bool, p: Pattern, text: string, r: Pattern, at: nat)
    requires Usable(p) && Usable(r) && at <= |text| && MayFollow(r, SubFrom(word, p, text, at), 0)
    ensures MayFollow(r, text, at)
  {
    var after := SubFrom(word, p, text, at);
    if HasAt(after, 0, r.separator) {
      assert after[0..] == after;
      SeparatorIsStable(word, r);
      LiteralWasThere(word, p, text, at, false, r.separator);
    }
  }

  lemma SeparatorIsStable(word: char -> bool, p: Pattern)
    requires Usable(p)
    ensures !Exposed(word, false, p.separator)
  {
    InnerTildesAreStable(word, false, p.separator);
  }

  lemma TildeContinues(word: char -> bool)
    ensures Continues(word, '~')
  {
  }

  // ---- Substitution settles --------------------------------------------------------------------

  lemma SubSettles(word: char -> bool, p: Pattern, text: string, r: Pattern)
    requires Usable(p) && Stable(word, r)
    ensures Stable(word, p) ==> NoMatch(word, p, Sub(word, p, text))
    ensures NoMatch(word, r, text) ==> NoMatch(word, r, Sub(word, p, text))
  {
    hide MatchAt, Sub, Stable;
    var after := Sub(word, p, text);
    if Stable(word, p) {
      forall at: nat | at <= |after| ensures !MatchAt(word, p, after, at) {
        if MatchAt(word, p, after, at) {
          var k := EveryPositionComesFrom(word, p, text, at);
          MatchWasThere(word, p, text, p, at, k);
        }
      }
    }
    if NoMatch(word, r, text) {
      forall at: nat | at <= |after| ensures !MatchAt(word, r, after, at) {
        if MatchAt(word, r, after, at) {
          var k := EveryPositionComesFrom(word, p, text, at);
          MatchWasThere(word, p, text, r, at, k);
        }
      }
    }
  }

  lemma {:induction false} UnmatchedStays(word: char -> bool, p: Pattern, text: string, at: nat)
    requires p.literal != "" && at <= |text| && forall i :: at <= i < |text| ==> !MatchAt(word, p, text, i)
    ensures SubFrom(word, p, text, at) == text[at..]
    decreases |text| - at
  {
    hide MatchAt;
    if at < |text| {
      UnmatchedStays(word, p, text, at + 1);
      assert text[at..] == [text[at]] + text[at + 1..];
    }
  }

  lemma NothingToDo(word: char -> bool, p: Pattern, text: string)
    requires p.literal != "" && NoMatch(word, p, text)
    ensures Sub(word, p, text) == text
  {
    UnmatchedStays(word, p, text, 0);
    assert text[0..] == text;
  }

  ghost predicate Settled(word: char -> bool, text: string, homes: seq<string>) {
    forall home <- homes :: NoMatch(word, Plain(home), text) && NoMatch(word, Escaped(home), text)
  }

  lemma {:induction false} OpenWhenEscaped(rest: string)
    requires OpenAfter(EscapeSlashes(rest))
    ensures OpenAfter(rest)
  {
    if rest != "" && rest[0] == '~' {
      assert EscapeSlashes(rest)[1..] == EscapeSlashes(rest[1..]);
      OpenWhenEscaped(rest[1..]);
    }
  }

  lemma {:induction false} EscapingExposesNothing(word: char -> bool, blocked: bool, s: string)
    requires Exposed(word, blocked, EscapeSlashes(s))
    ensures Exposed(word, blocked, s)
    decreases s
  {
    if s[0] == '/' {
      assert EscapeSlashes(s)[1..][1..] == EscapeSlashes(s[1..]);
      EscapingExposesNothing(word, true, s[1..]);
    } else {
      assert EscapeSlashes(s)[1..] == EscapeSlashes(s[1..]);
      if s[0] == '~' && !blocked && OpenAfter(EscapeSlashes(s[1..])) {
        OpenWhenEscaped(s[1..]);
      } else {
        EscapingExposesNothing(word, Continues(word, s[0]), s[1..]);
      }
    }
  }

  lemma PatternsAreStable(word: char -> bool, home: string)
    requires home != "" && !Exposed(word, false, home)
    ensures Stable(word, Plain(home)) && Stable(word, Escaped(home))
  {
    if Exposed(word, false, EscapeSlashes(home)) { EscapingExposesNothing(word, false, home); }
  }

  /** No home has a `~` that a pass could have inserted; a home without `~` has none. */
  ghost predicate StableHomes(word: char -> bool, homes: seq<string>) {
    Homes(homes) && forall home <- homes :: !Exposed(word, false, home)
  }

  /** A `~` inside a name is not exposed. */
  lemma {:induction false} InnerTildesAreStable(word: char -> bool, blocked: bool, home: string)
    requires home != "" && home[0] == '~' ==> blocked
    requires forall i {:trigger home[i]} :: 0 < i < |home| && home[i] == '~' ==> Continues(word, home[i - 1])
    ensures !Exposed(word, blocked, home)
    decreases home
  {
    if home != "" {
      InnerTildesAreStable(word, Continues(word, home[0]), home[1..]);
    }
  }

  /** A pass leaves no match of its own home and makes none of another. */
  lemma PassSettles(word: char -> bool, text: string, pass: string, home: string)
    requires pass != "" && home != "" && !Exposed(word, false, home)
    ensures var after := Pass(word, text, pass);
            pass == home || (NoMatch(word, Plain(home), text) && NoMatch(word, Escaped(home), text))
            ==> NoMatch(word, Plain(home), after) && NoMatch(word, Escaped(home), after)
  {
    hide NoMatch, Sub, EscapeSlashes, Stable, Exposed;
    var plain := Sub(word, Plain(pass), text);
    PatternsAreStable(word, home);
    SubSettles(word, Plain(pass), text, Plain(home));
    SubSettles(word, Plain(pass), text, Escaped(home));
    SubSettles(word, Escaped(pass), plain, Plain(home));
    SubSettles(word, Escaped(pass), plain, Escaped(home));
  }

  lemma PassOfUnmatched(word: char -> bool, text: string, home: string)
    requires home != "" && NoMatch(word, Plain(home), text) && NoMatch(word, Escaped(home), text)
    ensures Pass(word, text, home) == text
  {
    hide NoMatch, Sub, EscapeSlashes;
    NothingToDo(word, Plain(home), text);
    NothingToDo(word, Escaped(home), text);
  }

  /** After all passes no pattern of any home matches anywhere. */
  lemma {:induction false} GeneralizedIsSettled(word: char -> bool, text: string, homes: seq<string>)
    requires StableHomes(word, homes)
    ensures Settled(word, Generalized(word, text, homes), homes)
    decreases |homes|
  {
    hide NoMatch, Pass, EscapeSlashes, Exposed;
    if homes != [] {
      var front, last := homes[..|homes| - 1], homes[|homes| - 1];
      assert homes == front + [last] && last in homes;
      GeneralizedIsSettled(word, text, front);
      var before := Generalized(word, text, front);
      PassSettles(word, before, last, last);
      forall home <- front
        ensures NoMatch(word, Plain(home), Generalized(word, text, homes)) && NoMatch(word, Escaped(home), Generalized(word, text, homes))
      {
        PassSettles(word, before, last, home);
      }
    }
  }

  /** A text that no pattern matches, for instance because its names only begin like a home, stays as it is. */
  lemma {:induction false} SettledStays(word: char -> bool, text: string, homes: seq<string>)
    requires Homes(homes) && Settled(word, text, homes)
    ensures Generalized(word, text, homes) == text
    decreases |homes|
  {
    hide NoMatch, EscapeSlashes, Pass;
    if homes != [] {
      var front, last := homes[..|homes| - 1], homes[|homes| - 1];
      assert homes == front + [last] && last in homes;
      SettledStays(word, text, front);
      PassOfUnmatched(word, text, last);
    }
  }

  /**
   Generalizing twice is generalizing once, for every text and all homes without exposed `~`, even when the second
   run meets the homes in another order.
   */
  lemma GeneralizeIsIdempotent(word: char -> bool, text: string, homes: seq<string>, again: seq<string>)
    requires StableHomes(word, homes) && forall home <- again :: home in homes
    ensures Generalized(word, Generalized(word, text, homes), again) == Generalized(word, text, homes)
  {
    hide NoMatch, Generalized;
    GeneralizedIsSettled(word, text, homes);
    SettledStays(word, Generalized(word, text, homes), again);
  }

  // ---- A home that matches nowhere -------------------------------------------------------------

  function Without(homes: seq<string>, home: string): (r: seq<string>)
    ensures Homes(homes) ==> Homes(r)
    decreases |homes|
  {
    if homes == [] then []
    else
      var front, last := homes[..|homes| - 1], homes[|homes| - 1];
      assert homes == front + [last];
      Without(front, home) + if last == home then [] else [last]
  }

  /**
   A home that matches nowhere is never rewritten, whatever the other homes do to the text: no pass makes it match,
   and the result is that of the other homes alone.
   */
  lemma {:induction false} UnmatchedHomeIsInert(word: char -> bool, text: string, homes: seq<string>, home: string)
    requires Homes(homes) && home != "" && !Exposed(word, false, home)
    requires NoMatch(word, Plain(home), text) && NoMatch(word, Escaped(home), text)
    ensures var result := Generalized(word, text, homes);
            && NoMatch(word, Plain(home), result) && NoMatch(word, Escaped(home), result)
            && result == Generalized(word, text, Without(homes, home))
    decreases |homes|
  {
    hide NoMatch, Pass, EscapeSlashes, Exposed;
    if homes != [] {
      var front, last := homes[..|homes| - 1], homes[|homes| - 1];
      assert homes == front + [last] && last in homes;
      UnmatchedHomeIsInert(word, text, front, home);
      var before := Generalized(word, text, front);
      PassSettles(word, before, last, home);
      GeneralizedStep(word, text, front, last);
      if last == home {
        PassOfUnmatched(word, before, home);
        assert Without(homes, home) == Without(front, home);
      } else {
        GeneralizedStep(word, text, Without(front, home), last);
        assert Without(homes, home) == Without(front, home) + [last];
      }
    }
  }

  lemma GeneralizedStep(word: char -> bool, text: string, front: seq<string>, last: string)
    requires Homes(front) && last != ""
    ensures Generalized(word, text, front + [last]) == Pass(word, Generalized(word, text, front), last)
  {
    hide Pass;
    assert (front + [last])[..|front|] == front;
  }

  /** Wherever the literal stands, it is only the beginning of a longer name. */
  ghost predicate OnlyBeginsNames(p: Pattern, text: string) {
    forall at: nat :: HasAt(text, at, p.literal) ==> !MayFollow(p, text, at + |p.literal|)
  }

  /** A home that is a strict prefix of every name it begins is never rewritten, while other homes may be. */
  lemma LongerNamesStay(word: char -> bool, text: string, homes: seq<string>, home: string)
    requires Homes(homes) && home != "" && !Exposed(word, false, home)
    requires OnlyBeginsNames(Plain(home), text) && OnlyBeginsNames(Escaped(home), text)
    ensures var result := Generalized(word, text, homes);
            && NoMatch(word, Plain(home), result) && NoMatch(word, Escaped(home), result)
            && result == Generalized(word, text, Without(homes, home))
  {
    hide Generalized, EscapeSlashes, MayFollow, MayPrecede, Exposed;
    UnmatchedHomeIsInert(word, text, homes, home);
  }

}
