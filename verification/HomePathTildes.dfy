/**
 Homes with a `~` that a pass could have inserted: the second run may rewrite what the first one made.
 */
module HomePathTildes {
  import opened HomePaths
  import HomePathOrder
  import opened HomePathTies

  // ---- Exposed runs ----------------------------------------------------------------------------

  /** What may stand behind the last `~` of an exposed run. */
  predicate Closes(rest: string) {
    rest == "" || IsBoundary(rest[0]) || rest[0] == '/' || (rest[0] == '\\' && (|rest| == 1 || rest[1] == '/'))
  }

  function Tildes(n: nat): (r: string)
    ensures |r| == n
  {
    if n == 0 then "" else "~" + Tildes(n - 1)
  }

  lemma {:induction false} OpenRun(rest: string) returns (n: nat)
    requires OpenAfter(rest)
    ensures n <= |rest| && rest == Tildes(n) + rest[n..] && Closes(rest[n..])
  {
    hide IsBoundary, Tildes, Closes;
    ClosesOrRuns(rest);
    if Closes(rest) {
      n := 0;
      NoTildes(rest);
    } else {
      var m := OpenRun(rest[1..]);
      OneMoreTilde(rest, m);
      n := m + 1;
    }
  }

  lemma ClosesOrRuns(rest: string)
    requires OpenAfter(rest)
    ensures Closes(rest) || (rest != "" && rest[0] == '~' && OpenAfter(rest[1..]))
  {
  }

  lemma OneMoreTilde(rest: string, m: nat)
    requires rest != "" && rest[0] == '~' && m < |rest| && rest[1..] == Tildes(m) + rest[1..][m..]
    ensures rest[m + 1..] == rest[1..][m..] && rest == Tildes(m + 1) + rest[m + 1..]
  {
    assert Tildes(m + 1) == "~" + Tildes(m);
    hide Tildes;
    assert rest[1..][m..] == rest[m + 1..];
    assert rest == ['~'] + rest[1..];
    assert "~" + (Tildes(m) + rest[m + 1..]) == ("~" + Tildes(m)) + rest[m + 1..];
  }

  lemma NoTildes(rest: string)
    ensures rest == Tildes(0) + rest[0..]
  {
  }

  /** An exposed string falls into what precedes the run, the run, and what follows it. */
  lemma {:induction false} ExposedRun(word: char -> bool, blocked: bool, s: string) returns (a: string, n: nat, b: string)
    requires Exposed(word, blocked, s)
    ensures s == a + Tildes(n) + b && n > 0 && Closes(b)
    ensures if a == "" then !blocked else !Continues(word, a[|a| - 1])
    decreases s
  {
    hide Continues, Closes, OpenAfter, Tildes;
    if s[0] == '~' && !blocked && OpenAfter(s[1..]) {
      n := OpenRun(s[1..]);
      RunGrows(s, n, s[1..][n..]);
      a, n, b := "", n + 1, s[1..][n..];
    } else {
      a, n, b := ExposedRun(word, Continues(word, s[0]), s[1..]);
      Regroup(s, a, Tildes(n), b);
      a := [s[0]] + a;
    }
  }

  lemma RunGrows(s: string, n: nat, b: string)
    requires s != "" && s[0] == '~' && s[1..] == Tildes(n) + b
    ensures s == "" + Tildes(n + 1) + b
  {
    assert s == ['~'] + s[1..];
  }

  lemma Regroup(s: string, a: string, run: string, b: string)
    requires s != "" && s[1..] == a + run + b
    ensures s == ([s[0]] + a) + run + b
  {
  }

  // ---- Copies of a home ------------------------------------------------------------------------

  function Copies(s: string, n: nat): (r: string)
    ensures |r| == n * |s|
  {
    if n == 0 then "" else s + Copies(s, n - 1)
  }

  lemma {:induction false} CopiesHold(s: string, n: nat, i: nat)
    requires i < |Copies(s, n)|
    ensures Copies(s, n)[i] in s
    ensures i > 0 && s != "" && Copies(s, n)[i] != s[0] ==> exists j :: 0 < j < |s| && s[j] == Copies(s, n)[i] && s[j - 1] == Copies(s, n)[i - 1]
  {
    if i >= |s| {
      CopiesHold(s, n - 1, i - |s|);
    } else {
      assert Copies(s, n)[i] == s[i] && (i > 0 ==> Copies(s, n)[i - 1] == s[i - 1]);
    }
  }

  // ---- A home, another one, and a text ---------------------------------------------------------

  /** An accepted home with an exposed run of `~`, taken apart. */
  ghost predicate Parts(word: char -> bool, home: string, a: string, n: nat, b: string) {
    Accepted(home) && home == a + Tildes(n) + b && n > 0 && Closes(b) && a != "" && !Continues(word, a[|a| - 1])
  }

  /** A home one shorter, which ends like the first part where copies of it are to stand next to each other. */
  function Partner(a: string, n: nat, b: string): (other: string)
    requires |a| > 1 && n > 0
    ensures |other| == |a| + n + |b| - 1
  {
    "/" + seq(|a| + n + |b| - 3, _ => '-') + [if n > 1 then a[|a| - 1] else '-']
  }

  function Spelling(other: string, b: string): Pattern {
    if b != "" && b[0] == '\\' then Escaped(other) else Plain(other)
  }

  /** A home that ends in a backslash needs a slash behind it. */
  function Tail(b: string): string {
    if b == "\\" then "/" else ""
  }

  lemma PartnerFacts(word: char -> bool, home: string, a: string, n: nat, b: string)
    requires Parts(word, home, a, n, b)
    ensures |a| > 1
    ensures var other := Partner(a, n, b);
            && Accepted(other) && |other| == |home| - 1 && other != a && EscapeSlashes(other) == "\\" + other
            && (forall c <- other :: c != '~' && c != '\\') && '/' !in other[1..]
            && (n > 1 ==> !Continues(word, other[|other| - 1]))
  {
    var other := Partner(a, n, b);
    assert a[0] == home[0];
    assert |a| > 1;
    NothingToEscape(other[1..]);
    assert forall i :: 0 < i < |other| ==> other[1..][i - 1] == other[i];
  }

  lemma PartnerIsStable(word: char -> bool, other: string)
    requires Accepted(other) && '~' !in other
    ensures !Exposed(word, false, other)
  {
    InnerTildesAreStable(word, false, other);
  }

  // ---- The first run makes the home ------------------------------------------------------------

  /** A literal whose first character occurs once begins in no shorter front before copies of it. */
  lemma NoneInFront(literal: string, a: string, n: nat, rest: string, i: nat)
    requires literal != "" && literal[0] !in literal[1..] && n > 0 && i < |a| <= |literal| && literal != a
    ensures !HasAt(a + Copies(literal, n) + rest, i, literal)
  {
    var text := a + Copies(literal, n) + rest;
    var d := |a| - i;
    assert text[|a|] == literal[0] && text[i..][d] == text[|a|];
    if d < |literal| { assert literal[d] == literal[1..][d - 1]; }
    assert text[0..][..|a|] == a;
  }

  lemma {:induction false} CopiesReplaced(word: char -> bool, p: Pattern, front: string, n: nat, rest: string)
    requires Usable(p) && front != "" && !Continues(word, front[|front| - 1]) && p.separator <= p.literal && MayFollow(p, rest, 0)
    requires n > 1 ==> !Continues(word, p.literal[|p.literal| - 1])
    ensures var text := front + Copies(p.literal, n) + rest;
            var end := |front| + n * |p.literal|;
            end <= |text| && SubFrom(word, p, text, |front|) == Tildes(n) + SubFrom(word, p, text, end)
    decreases n
  {
    hide Continues, MayFollow, SubFrom;
    var text := front + Copies(p.literal, n) + rest;
    if n > 0 {
      var more := Copies(p.literal, n - 1) + rest;
      assert text == front + p.literal + more;
      assert MayFollow(p, more, 0) by { FollowedByCopies(p, n - 1, rest); }
      MatchBetween(word, p, front, more);
      assert text == (front + p.literal) + Copies(p.literal, n - 1) + rest;
      if n > 1 {
        CopiesReplaced(word, p, front + p.literal, n - 1, rest);
      }
      SubStep(word, p, text, |front|);
    }
  }

  lemma FollowedByCopies(p: Pattern, n: nat, rest: string)
    requires Usable(p) && p.separator <= p.literal && MayFollow(p, rest, 0)
    ensures MayFollow(p, Copies(p.literal, n) + rest, 0)
  {
    var more := Copies(p.literal, n) + rest;
    assert more[0..] == more;
    if n > 0 { assert more == p.literal + (Copies(p.literal, n - 1) + rest); }
  }

  lemma MatchBetween(word: char -> bool, p: Pattern, front: string, more: string)
    requires front != "" && !Continues(word, front[|front| - 1]) && MayFollow(p, more, 0)
    ensures MatchAt(word, p, front + p.literal + more, |front|)
  {
    var text := front + p.literal + more;
    assert text[|front|..] == p.literal + more && text[|front| + |p.literal|..] == more == more[0..];
  }

  lemma MatchHas(word: char -> bool, p: Pattern, text: string, at: nat)
    ensures MatchAt(word, p, text, at) ==> HasAt(text, at, p.literal)
  {
  }

  lemma SubStep(word: char -> bool, p: Pattern, text: string, at: nat)
    requires Usable(p) && at < |text| && MatchAt(word, p, text, at)
    ensures at + |p.literal| <= |text| && SubFrom(word, p, text, at) == "~" + SubFrom(word, p, text, at + |p.literal|)
  {
  }

  /** Where the literal fits nowhere else, the pass replaces the copies and nothing more. */
  lemma CopiesBecomeTildes(word: char -> bool, p: Pattern, a: string, n: nat, rest: string)
    requires Usable(p) && p.literal[0] !in p.literal[1..] && n > 0 && 0 < |a| <= |p.literal| && p.literal != a
    requires !Continues(word, a[|a| - 1]) && p.separator <= p.literal && MayFollow(p, rest, 0) && |rest| < |p.literal|
    requires n > 1 ==> !Continues(word, p.literal[|p.literal| - 1])
    ensures Sub(word, p, a + Copies(p.literal, n) + rest) == a + Tildes(n) + rest
  {
    hide MatchAt, SubFrom, Continues, MayFollow;
    var text := a + Copies(p.literal, n) + rest;
    var end := |a| + n * |p.literal|;
    forall i | 0 <= i < |a| ensures !MatchAt(word, p, text, i) {
      NoneInFront(p.literal, a, n, rest, i);
      MatchHas(word, p, text, i);
    }
    HomePathOrder.UntouchedStretch(word, p, text, 0, |a|);
    CopiesReplaced(word, p, a, n, rest);
    forall i | end <= i < |text| ensures !MatchAt(word, p, text, i) {
      if MatchAt(word, p, text, i) { MatchFits(word, p, text, i); }
    }
    UnmatchedStays(word, p, text, end);
    assert text[end..] == rest && text[0..|a|] == a;
  }

  // ---- Nothing else matches --------------------------------------------------------------------

  /** The escaped spelling of a partner whose plain copies stand in the text. */
  lemma EscapedIsAbsent(word: char -> bool, home: string, a: string, n: nat, b: string)
    requires Parts(word, home, a, n, b) && Spelling(home, b) == Plain(home)
    ensures |a| > 1 && NoMatch(word, Escaped(Partner(a, n, b)), a + Copies(Partner(a, n, b), n) + b)
  {
    PartnerFacts(word, home, a, n, b);
    var other := Partner(a, n, b);
    var text := a + Copies(other, n) + b;
    var end := |a| + |Copies(other, n)|;
    forall i: nat | i <= |text| ensures !MatchAt(word, Escaped(other), text, i) {
      if HasAt(text, i, "\\" + other) {
        assert text[i] == '\\' && text[i + 1..] == text[i..][1..];
        assert other <= text[i + 1..];
        if i + 1 < |a| {
          NoneInFront(other, a, n, b, i + 1);
        } else if |a| <= i < end {
          CopiesHold(other, n, i - |a|);
        }
      }
    }
  }

  /** The plain spelling of a partner whose escaped copies stand in the text. */
  lemma PlainIsAbsent(word: char -> bool, home: string, a: string, n: nat, b: string)
    requires Parts(word, home, a, n, b) && Spelling(home, b) == Escaped(home)
    ensures |a| > 1
    ensures var other := Partner(a, n, b);
            NoMatch(word, Plain(other), a + Copies(EscapeSlashes(other), n) + (b + Tail(b)))
  {
    PartnerFacts(word, home, a, n, b);
    var other, rest := Partner(a, n, b), b + Tail(b);
    hide MatchAt, Partner, EscapeSlashes, Copies, Tildes;
    assert |a| < |other| && |rest| < |other|;
    forall i: nat ensures !MatchAt(word, Plain(other), a + Copies("\\" + other, n) + rest, i) {
      PlainElsewhere(word, other, a, n, rest, i);
    }
  }

  /** Before the copies a backslash is in the way, inside them a backslash comes before, and behind them there is no room. */
  lemma PlainElsewhere(word: char -> bool, other: string, a: string, n: nat, rest: string, i: nat)
    requires other != "" && other[0] == '/' && '/' !in other[1..] && '\\' !in other && n > 0
    requires |a| < |other| && |rest| < |other|
    ensures !MatchAt(word, Plain(other), a + Copies("\\" + other, n) + rest, i)
  {
    var copies := Copies("\\" + other, n);
    var text := a + copies + rest;
    if i <= |a| {
      assert copies[0] == '\\' == text[|a|];
      NotAcross(text, i, other, |a|);
    } else if i < |a| + |copies| {
      hide Copies;
      assert text[i] == copies[i - |a|] && text[i - 1] == copies[i - |a| - 1];
      if text[i] == '/' {
        SlashInCopies(other, n, i - |a|);
        NoMatchAfter(word, Plain(other), text, i);
      } else if MatchAt(word, Plain(other), text, i) {
        MatchedStart(word, Plain(other), text, i);
      }
    } else if MatchAt(word, Plain(other), text, i) {
      MatchFits(word, Plain(other), text, i);
    }
  }

  lemma NotAcross(text: string, i: nat, literal: string, k: nat)
    requires i <= k < i + |literal| && k < |text| && text[k] !in literal
    ensures !HasAt(text, i, literal)
  {
    assert text[k] == text[i..][k - i];
  }

  lemma SlashInCopies(other: string, n: nat, i: nat)
    requires other != "" && other[0] == '/' && '/' !in other[1..]
    requires 0 < i < |Copies("\\" + other, n)| && Copies("\\" + other, n)[i] == '/'
    ensures Copies("\\" + other, n)[i - 1] == '\\'
  {
    hide Copies;
    var escaped := "\\" + other;
    CopiesHold(escaped, n, i);
    var j :| 0 < j < |escaped| && escaped[j] == '/' && escaped[j - 1] == Copies(escaped, n)[i - 1];
    assert escaped[j] == other[j - 1];
  }

  function Count(s: string): nat {
    multiset(s)['~']
  }

  lemma HasAtCounts(text: string, at: nat, literal: string)
    requires HasAt(text, at, literal)
    ensures Count(literal) <= Count(text)
  {
    assert text == text[..at] + literal + text[at..][|literal|..];
  }

  lemma {:induction false} EscapedCounts(s: string)
    ensures Count(EscapeSlashes(s)) == Count(s)
  {
    if s != "" {
      EscapedCounts(s[1..]);
      assert s == [s[0]] + s[1..];
    }
  }

  lemma {:induction false} CopiesCount(s: string, n: nat)
    requires '~' !in s
    ensures Count(Copies(s, n)) == 0 && Count(Tildes(n)) == n
  {
    if n > 0 {
      CopiesCount(s, n - 1);
      assert Copies(s, n) == s + Copies(s, n - 1) && Tildes(n) == "~" + Tildes(n - 1);
    }
  }

  /** The text has fewer `~` than the home. */
  lemma HomeIsAbsent(word: char -> bool, home: string, a: string, n: nat, b: string, copy: string, tail: string)
    requires Parts(word, home, a, n, b) && '~' !in copy && '~' !in tail
    ensures var text := a + Copies(copy, n) + (b + tail); NoMatch(word, Plain(home), text) && NoMatch(word, Escaped(home), text)
  {
    var text := a + Copies(copy, n) + (b + tail);
    CopiesCount(copy, n);
    EscapedCounts(home);
    assert Count(home) == Count(a) + n + Count(b) && Count(text) == Count(a) + Count(b) + Count(tail);
    forall i: nat | i <= |text| ensures !HasAt(text, i, home) && !HasAt(text, i, EscapeSlashes(home)) {
      if HasAt(text, i, home) { HasAtCounts(text, i, home); }
      if HasAt(text, i, EscapeSlashes(home)) { HasAtCounts(text, i, EscapeSlashes(home)); }
    }
  }

  // ---- The second run rewrites it --------------------------------------------------------------

  lemma RestFollows(other: string, b: string)
    requires Closes(b)
    ensures MayFollow(Spelling(other, b), b + Tail(b), 0)
  {
    assert (b + Tail(b))[0..] == b + Tail(b);
  }

  /** The pass of the partner turns its copies into the run of `~`. */
  lemma PartnerMakesHome(word: char -> bool, home: string, a: string, n: nat, b: string)
    requires Parts(word, home, a, n, b)
    ensures |a| > 1
    ensures var other := Partner(a, n, b);
            Pass(word, a + Copies(Spelling(other, b).literal, n) + (b + Tail(b)), other) == home + Tail(b)
  {
    hide Sub, NoMatch, Exposed, Continues, Closes, MayFollow, Copies, Partner, EscapeSlashes;
    PartnerFacts(word, home, a, n, b);
    var other := Partner(a, n, b);
    var p := Spelling(other, b);
    var text := a + Copies(p.literal, n) + (b + Tail(b));
    RestFollows(other, b);
    PartnerIsStable(word, other);
    PatternsAreStable(word, other);
    SpelledOut(other, p);
    CopiesBecomeTildes(word, p, a, n, b + Tail(b));
    assert a + Tildes(n) + (b + Tail(b)) == home + Tail(b);
    if p == Plain(other) {
      EscapedIsAbsent(word, home, a, n, b);
      assert b + Tail(b) == b;
      SubSettles(word, p, text, Escaped(other));
      NothingToDo(word, Escaped(other), home + Tail(b));
    } else {
      PlainIsAbsent(word, home, a, n, b);
      NothingToDo(word, Plain(other), text);
    }
  }

  lemma SpelledOut(other: string, p: Pattern)
    requires Accepted(other) && '/' !in other[1..] && '\\' !in other && EscapeSlashes(other) == "\\" + other
    requires p == Plain(other) || p == Escaped(other)
    ensures Usable(p) && p.literal[0] !in p.literal[1..] && p.separator <= p.literal
    ensures p.literal[|p.literal| - 1] == other[|other| - 1] && |p.literal| == |other| + if p == Plain(other) then 0 else 1
  {
    hide EscapeSlashes;
    if p == Escaped(other) {
      assert p.literal == "\\" + other;
      assert p.literal[1..] == other && p.literal[1] == other[0];
    }
  }

  lemma HomeIsFound(word: char -> bool, home: string, a: string, n: nat, b: string)
    requires Parts(word, home, a, n, b)
    ensures MatchAt(word, Plain(home), home + Tail(b), 0)
  {
    var text := home + Tail(b);
    assert text[0..] == text && text[|home|..] == Tail(b);
  }

  /**
   For every home with an exposed `~` there are a shorter home without `~` and a text that a second run changes
   again: it rewrites the home that the first one made, as with "/a ~" and "/--" in "/a /--".
   */
  lemma TildeInAHomeBreaksIdempotence(word: char -> bool, home: string) returns (other: string, text: string)
    requires Accepted(home) && Exposed(word, false, home)
    ensures Accepted(other) && |other| < |home| && '~' !in other && Passes([home, other], [home, other])
    ensures Generalized(word, Generalized(word, text, [home, other]), [home, other]) != Generalized(word, text, [home, other])
  {
    hide MatchAt, Pass, Exposed, Generalized, NoMatch, EscapeSlashes;
    var a, n, b := ExposedRun(word, false, home);
    assert (Tildes(n) + b)[0] == '~' && ("" + Tildes(n)) + b == Tildes(n) + b;
    PartnerFacts(word, home, a, n, b);
    other := Partner(a, n, b);
    var copy := Spelling(other, b).literal;
    text := a + Copies(copy, n) + (b + Tail(b));
    EscapedStart(home);
    EscapedStart(other);
    HomeIsAbsent(word, home, a, n, b, copy, Tail(b));
    PassOfUnmatched(word, text, home);
    PartnerMakesHome(word, home, a, n, b);
    TwoPasses(word, text, home, other);
    var once := home + Tail(b);
    assert Generalized(word, text, [home, other]) == once;
    HomeIsFound(word, home, a, n, b);
    TwoPasses(word, once, home, other);
    StartIsReplaced(word, once, home, other);
  }

  ghost predicate SettlesAtOnce(word: char -> bool, text: string, homes: seq<string>)
    requires Homes(homes)
  {
    Generalized(word, Generalized(word, text, homes), homes) == Generalized(word, text, homes)
  }

  /** An accepted home keeps every text idempotent beside every home without exposed `~` exactly when it has none itself. */
  lemma ExposedTildesDecide(word: char -> bool, home: string)
    requires Accepted(home)
    ensures !Exposed(word, false, home)
       <==> forall other, text :: Accepted(other) && !Exposed(word, false, other) ==> SettlesAtOnce(word, text, [home, other])
  {
    hide Exposed, Generalized;
    if Exposed(word, false, home) {
      var other, text := TildeInAHomeBreaksIdempotence(word, home);
      PartnerIsStable(word, other);
      assert !SettlesAtOnce(word, text, [home, other]);
    } else {
      forall other, text | Accepted(other) && !Exposed(word, false, other) ensures SettlesAtOnce(word, text, [home, other]) {
        GeneralizeIsIdempotent(word, text, [home, other], [home, other]);
      }
    }
  }
}
