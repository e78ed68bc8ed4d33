/** The wildcard matcher that selects test cases by name: `*` stands for any run of characters,
    `?` for any one character, and every other pattern character for the characters it is
    equivalent to (itself, or itself up to ASCII case). */
module Glob {

  /** A NUL-terminated C string without its terminator. */
  predicate CString(s: string) {
    '\0' !in s
  }

  /** What a C pointer `i` positions into the string reads: the terminator at the end. */
  function At(s: string, i: nat): char
    requires i <= |s|
  {
    if i < |s| then s[i] else '\0'
  }

  lemma {:induction false} Terminator(s: string, i: nat)
    requires CString(s) && i <= |s|
    ensures At(s, i) == '\0' <==> i == |s|
  {
    if i < |s| {
      assert s[i] in s;
    }
  }

  function ToLower(c: char): char {
    if 'A' <= c <= 'Z' then c + 32 as char else c
  }

  function SameChar(caseSensitive: bool): (char, char) -> bool {
    if caseSensitive then (a: char, b: char) => a == b else (a: char, b: char) => ToLower(a) == ToLower(b)
  }

  /** An equivalence never identifies the terminator with a character of a string. */
  ghost predicate SeparatesTerminator(eq: (char, char) -> bool) {
    forall c :: c != '\0' ==> !eq('\0', c)
  }

  /** The meaning of a pattern: a star matches some prefix, of any length, of what is left. */
  ghost predicate Matches(eq: (char, char) -> bool, s: string, p: string)
    decreases p
  {
    if p == [] then s == []
    else if p[0] == '*' then exists k :: 0 <= k <= |s| && Matches(eq, s[k..], p[1..])
    else s != [] && (eq(p[0], s[0]) || p[0] == '?') && Matches(eq, s[1..], p[1..])
  }

  /** A suffix of a matched star suffix: a star also absorbs everything before it. */
  lemma {:induction false} StarAbsorbs(eq: (char, char) -> bool, s: string, p: string, i: nat, k: nat)
    requires i <= k <= |s| && p != [] && p[0] == '*'
    requires Matches(eq, s[k..], p)
    ensures Matches(eq, s[i..], p)
  {
    var m :| 0 <= m <= |s[k..]| && Matches(eq, s[k..][m..], p[1..]);
    assert s[i..][k - i + m..] == s[k..][m..];
  }

  /** A star-free stretch of `d` pattern characters consumes exactly `d` characters. */
  lemma {:induction false} LiteralRun(eq: (char, char) -> bool, s: string, p: string, d: nat)
    requires d <= |p| && '*' !in p[..d]
    requires Matches(eq, s, p)
    ensures d <= |s| && Matches(eq, s[d..], p[d..])
  {
    if d > 0 {
      assert p[..d][0] == p[0];
      assert p[1..][..d - 1] == p[..d][1..];
      LiteralRun(eq, s[1..], p[1..], d - 1);
      assert s[1..][d - 1..] == s[d..] && p[1..][d - 1..] == p[d..];
    } else {
      assert s[0..] == s && p[0..] == p;
    }
  }

  /** A trailing star accepts whatever is left. */
  lemma {:induction false} TrailingStar(eq: (char, char) -> bool, s: string, p: string)
    requires p == "*"
    ensures Matches(eq, s, p)
  {
    assert Matches(eq, s[|s|..], p[1..]);
  }

  /** The empty string is matched exactly by patterns made of stars alone. */
  lemma {:induction false} EmptyMatch(eq: (char, char) -> bool, p: string)
    ensures Matches(eq, [], p) <==> forall i :: 0 <= i < |p| ==> p[i] == '*'
  {
    if p != [] {
      EmptyMatch(eq, p[1..]);
      var e: string := [];
      assert e[0..] == e;
      assert forall i :: 0 <= i < |p[1..]| ==> p[1..][i] == p[i + 1];
      if forall i :: 0 <= i < |p[1..]| ==> p[1..][i] == '*' {
        forall i | 0 <= i < |p| ensures i > 0 ==> p[i] == '*' {
          if i > 0 { assert p[i] == p[1..][i - 1]; }
        }
      }
    }
  }

  /** The alternatives still open while the matcher works behind a star at `mp - 1`: restart the
      pattern behind the star at some position not before `cp`. */
  ghost predicate Restarts(eq: (char, char) -> bool, s: string, p: string, cp: nat, mp: nat)
    requires mp <= |p|
  {
    exists k :: cp <= k <= |s| && Matches(eq, s[k..], p[mp..])
  }

  /** Reaching a later star makes every earlier alternative redundant: this is why one backtrack
      point is enough. */
  lemma {:induction false} LastStarSuffices(eq: (char, char) -> bool, s: string, p: string, i: nat, j: nat, cp: nat, mp: nat)
    requires mp <= j < |p| && p[j] == '*' && '*' !in p[mp..j] && i <= |s|
    requires cp - 1 <= i && i - (cp - 1) == j - mp
    requires Restarts(eq, s, p, cp, mp)
    ensures Matches(eq, s[i..], p[j..])
  {
    var k :| cp <= k <= |s| && Matches(eq, s[k..], p[mp..]);
    var d := j - mp;
    assert p[mp..][..d] == p[mp..j];
    LiteralRun(eq, s[k..], p[mp..], d);
    assert s[k..][d..] == s[k + d..] && p[mp..][d..] == p[j..];
    StarAbsorbs(eq, s, p[j..], i, k + d);
  }

  /** With the string used up there is no room left to restart. */
  lemma {:induction false} NoRestartAtEnd(eq: (char, char) -> bool, s: string, p: string, j: nat, cp: nat, mp: nat)
    requires mp <= j <= |p| && '*' !in p[mp..j]
    requires |s| - (cp - 1) == j - mp
    ensures !Restarts(eq, s, p, cp, mp)
  {
    forall k | cp <= k <= |s| && Matches(eq, s[k..], p[mp..]) ensures false {
      assert p[mp..][..j - mp] == p[mp..j];
      LiteralRun(eq, s[k..], p[mp..], j - mp);
    }
  }

  /** Unfolding a star at `j`: what it opens is the set of restarts from `i` on. */
  lemma {:induction false} StarOpens(eq: (char, char) -> bool, s: string, p: string, i: nat, j: nat)
    requires i <= |s| && j < |p| && p[j] == '*'
    ensures Matches(eq, s[i..], p[j..]) <==> Matches(eq, s[i..], p[j + 1..]) || Restarts(eq, s, p, i + 1, j + 1)
  {
    assert p[j..][1..] == p[j + 1..];
    if Matches(eq, s[i..], p[j..]) {
      var m :| 0 <= m <= |s[i..]| && Matches(eq, s[i..][m..], p[j..][1..]);
      assert s[i..][m..] == s[i + m..];
    }
    if Restarts(eq, s, p, i + 1, j + 1) {
      var k :| i + 1 <= k <= |s| && Matches(eq, s[k..], p[j + 1..]);
      assert s[i..][k - i..] == s[k..];
    }
    if Matches(eq, s[i..], p[j + 1..]) {
      assert s[i..][0..] == s[i..];
    }
  }

  /** One literal step. */
  lemma {:induction false} LiteralStep(eq: (char, char) -> bool, s: string, p: string, i: nat, j: nat)
    requires SeparatesTerminator(eq) && CString(s) && i < |s| && j <= |p| && At(p, j) != '*'
    ensures Matches(eq, s[i..], p[j..]) <==>
            (eq(At(p, j), s[i]) || At(p, j) == '?') && j < |p| && Matches(eq, s[i + 1..], p[j + 1..])
    ensures j == |p| ==> !(eq(At(p, j), s[i]) || At(p, j) == '?')
  {
    assert s[i] in s;
    if j < |p| {
      assert s[i..][1..] == s[i + 1..] && p[j..][1..] == p[j + 1..];
    }
  }

  /** Moving the restart point by one splits off the restart at `cp` itself. */
  lemma {:induction false} RestartStep(eq: (char, char) -> bool, s: string, p: string, cp: nat, mp: nat)
    requires cp <= |s| && mp <= |p|
    ensures Restarts(eq, s, p, cp, mp) <==> Matches(eq, s[cp..], p[mp..]) || Restarts(eq, s, p, cp + 1, mp)
  {
    if Restarts(eq, s, p, cp, mp) {
      var k :| cp <= k <= |s| && Matches(eq, s[k..], p[mp..]);
      assert k == cp || k >= cp + 1;
    }
  }

  /** The first loop: compare up to the first star. Either it refutes the match, or it stops with
      an equivalent problem at the end of the string or in front of a star. */
  method SkipLiteralPrefix(eq: (char, char) -> bool, s: string, p: string) returns (refuted: bool, i: nat, j: nat)
    requires CString(s) && CString(p) && SeparatesTerminator(eq)
    ensures refuted ==> !Matches(eq, s, p)
    ensures !refuted ==> i <= |s| && j <= |p| && (i == |s| || At(p, j) == '*')
    ensures !refuted ==> (Matches(eq, s, p) <==> Matches(eq, s[i..], p[j..]))
  {
    refuted, i, j := false, 0, 0;
    assert s[0..] == s && p[0..] == p;
    while i < |s| && At(p, j) != '*'
      invariant i <= |s| && j <= |p|
      invariant Matches(eq, s, p) <==> Matches(eq, s[i..], p[j..])
    {
      LiteralStep(eq, s, p, i, j);
      if !eq(At(p, j), s[i]) && At(p, j) != '?' {
        refuted := true;
        return;
      }
      j := j + 1;
      i := i + 1;
    }
  }

  /** The last loop: with the string used up, the rest of the pattern must be stars. */
  method OnlyStars(eq: (char, char) -> bool, p: string, start: nat) returns (matched: bool)
    requires CString(p) && start <= |p|
    ensures matched <==> Matches(eq, [], p[start..])
  {
    EmptyMatch(eq, p[start..]);
    var j := start;
    while At(p, j) == '*'
      invariant start <= j <= |p|
      invariant forall k :: start <= k < j ==> p[k] == '*'
      decreases |p| - j
    {
      j := j + 1;
    }
    Terminator(p, j);
    assert j < |p| ==> p[start..][j - start] == p[j];
    return At(p, j) == '\0';
  }

  /** The loop invariant of the second loop: what is left to decide, behind the last star met. */
  ghost predicate Behind(eq: (char, char) -> bool, s: string, p: string, i: nat, j: nat, cp: nat, mp: nat) {
    && i <= |s| && mp <= j <= |p| && 1 <= cp && i - (cp - 1) == j - mp
    && '*' !in p[mp..j]
    && (Matches(eq, s, p) <==> Matches(eq, s[i..], p[j..]) || Restarts(eq, s, p, cp, mp))
  }

  /** Before any star has been met, the matcher stands in front of the first one. */
  ghost predicate AtFirstStar(eq: (char, char) -> bool, s: string, p: string, i: nat, j: nat) {
    && i <= |s| && j <= |p| && (i == |s| || At(p, j) == '*')
    && (Matches(eq, s, p) <==> Matches(eq, s[i..], p[j..]))
  }

  lemma {:induction false} MeetStar(eq: (char, char) -> bool, s: string, p: string, i: nat, j: nat, cp: nat, mp: nat)
    requires Behind(eq, s, p, i, j, cp, mp) || AtFirstStar(eq, s, p, i, j)
    requires i < |s| && j <= |p| && At(p, j) == '*' && CString(p)
    ensures j < |p| && Behind(eq, s, p, i, j + 1, i + 1, j + 1)
    ensures j + 1 == |p| ==> Matches(eq, s, p)
  {
    assert Matches(eq, s, p) <==> Matches(eq, s[i..], p[j..]) by {
      if !AtFirstStar(eq, s, p, i, j) && Restarts(eq, s, p, cp, mp) {
        LastStarSuffices(eq, s, p, i, j, cp, mp);
      }
    }
    StarOpens(eq, s, p, i, j);
    if j + 1 == |p| {
      assert p[j..] == "*";
      TrailingStar(eq, s[i..], p[j..]);
    }
  }

  lemma {:induction false} MeetOther(eq: (char, char) -> bool, s: string, p: string, i: nat, j: nat, cp: nat, mp: nat)
    requires Behind(eq, s, p, i, j, cp, mp) && SeparatesTerminator(eq) && CString(s)
    requires i < |s| && At(p, j) != '*'
    ensures if eq(At(p, j), s[i]) || At(p, j) == '?'
            then j < |p| && Behind(eq, s, p, i + 1, j + 1, cp, mp)
            else cp <= |s| && Behind(eq, s, p, cp, mp, cp + 1, mp)
  {
    LiteralStep(eq, s, p, i, j);
    if eq(At(p, j), s[i]) || At(p, j) == '?' {
      assert p[mp..j + 1] == p[mp..j] + [p[j]];
    } else {
      RestartStep(eq, s, p, cp, mp);
    }
  }

  lemma {:induction false} UsedUp(eq: (char, char) -> bool, s: string, p: string, j: nat, cp: nat, mp: nat)
    requires Behind(eq, s, p, |s|, j, cp, mp) || AtFirstStar(eq, s, p, |s|, j)
    ensures j <= |p| && (Matches(eq, s, p) <==> Matches(eq, [], p[j..]))
  {
    assert s[|s|..] == [];
    if Behind(eq, s, p, |s|, j, cp, mp) {
      NoRestartAtEnd(eq, s, p, j, cp, mp);
    }
  }

  /** `wildcmp` for an arbitrary character equivalence decides the declarative meaning. */
  method WildcmpBy(eq: (char, char) -> bool, s: string, p: string) returns (matched: bool)
    requires CString(s) && CString(p) && SeparatesTerminator(eq)
    ensures matched <==> Matches(eq, s, p)
  {
    var refuted, i, j := SkipLiteralPrefix(eq, s, p);
    if refuted {
      return false;
    }
    var cp, mp := 0, 0;
    while i < |s|
      invariant 0 <= i <= |s| && 0 <= j <= |p| && 0 <= mp <= |p| && 0 <= cp <= |s| + 1
      invariant (mp == 0 && AtFirstStar(eq, s, p, i, j)) || Behind(eq, s, p, i, j, cp, mp)
      decreases |p| - mp, |s| + 1 - cp, |s| - i
    {
      if At(p, j) == '*' {
        MeetStar(eq, s, p, i, j, cp, mp);
        j := j + 1;
        if At(p, j) == '\0' {
          Terminator(p, j);
          return true;
        }
        mp := j;
        cp := i + 1;
      } else {
        MeetOther(eq, s, p, i, j, cp, mp);
        if eq(At(p, j), s[i]) || At(p, j) == '?' {
          j := j + 1;
          i := i + 1;
        } else {
          j := mp;
          i := cp;
          cp := cp + 1;
        }
      }
    }
    UsedUp(eq, s, p, j, cp, mp);
    matched := OnlyStars(eq, p, j);
  }

  // ----- letter case -----

  const UPPER: string := "ABCDEFGHIJKLMNOPQRSTUVWXYZ"
  const LOWER: string := "abcdefghijklmnopqrstuvwxyz"

  /** `d` is the lower-case form of `c`: its partner among the 26 letters, or itself. */
  ghost predicate LowersTo(c: char, d: char) {
    if c in UPPER then exists k :: 0 <= k < 26 && UPPER[k] == c && LOWER[k] == d else d == c
  }

  ghost predicate Lowers(s: string, l: string) {
    |l| == |s| && forall i :: 0 <= i < |s| ==> LowersTo(s[i], l[i])
  }

  /** Character by character. */
  function Exactly(): (char, char) -> bool {
    (a: char, b: char) => a == b
  }

  /** What a filter means: a match of the characters as they are, or of both in lower case. */
  ghost predicate Accepts(caseSensitive: bool, s: string, p: string) {
    if caseSensitive then Matches(Exactly(), s, p)
    else exists ls, lp :: Lowers(s, ls) && Lowers(p, lp) && Matches(Exactly(), ls, lp)
  }

  lemma {:induction false} UpperAt(k: nat)
    requires k < 26
    ensures UPPER[k] == 'A' + k as char && LOWER[k] == 'a' + k as char
  {
  }

  lemma {:induction false} UpperIs(c: char)
    ensures c in UPPER <==> 'A' <= c <= 'Z'
  {
    forall k | 0 <= k < 26 ensures 'A' <= UPPER[k] <= 'Z' {
      UpperAt(k);
    }
    if 'A' <= c <= 'Z' {
      var k := c as int - 'A' as int;
      UpperAt(k);
      assert UPPER[k] == c;
    }
  }

  lemma {:induction false} ToLowerIs(c: char, d: char)
    ensures LowersTo(c, d) <==> d == ToLower(c)
  {
    UpperIs(c);
    if c in UPPER {
      var k := c as int - 'A' as int;
      UpperAt(k);
      forall j | 0 <= j < 26 && UPPER[j] == c ensures LOWER[j] == ToLower(c) {
        UpperAt(j);
      }
      assert UPPER[k] == c && LOWER[k] == ToLower(c);
    }
  }

  function LowerAll(s: string): string {
    seq(|s|, i requires 0 <= i < |s| => ToLower(s[i]))
  }

  lemma {:induction false} LowerAllIs(s: string, l: string)
    ensures Lowers(s, l) <==> l == LowerAll(s)
  {
    forall i | 0 <= i < |s| && i < |l| ensures LowersTo(s[i], l[i]) <==> l[i] == ToLower(s[i]) {
      ToLowerIs(s[i], l[i]);
    }
  }

  /** Translating both strings and comparing the translations is comparing by what the translation
      identifies, if it leaves the two special characters alone. */
  lemma {:induction false} TranslatedMatch(eq: (char, char) -> bool, eq': (char, char) -> bool, s: string, p: string, s': string, p': string)
    requires |s'| == |s| && |p'| == |p|
    requires forall i, j :: 0 <= i < |p| && 0 <= j < |s| ==> eq(p[i], s[j]) == eq'(p'[i], s'[j])
    requires forall i :: 0 <= i < |p| ==> (p[i] == '*' <==> p'[i] == '*') && (p[i] == '?' <==> p'[i] == '?')
    ensures Matches(eq, s, p) <==> Matches(eq', s', p')
    decreases p
  {
    if p != [] {
      if p[0] == '*' {
        forall k | 0 <= k <= |s| ensures Matches(eq, s[k..], p[1..]) <==> Matches(eq', s'[k..], p'[1..]) {
          TranslatedMatch(eq, eq', s[k..], p[1..], s'[k..], p'[1..]);
        }
      } else if s != [] {
        TranslatedMatch(eq, eq', s[1..], p[1..], s'[1..], p'[1..]);
      }
    }
  }

  lemma {:induction false} SameCharIs(a: char, b: char)
    ensures SameChar(true)(a, b) == Exactly()(a, b) && SameChar(false)(a, b) == Exactly()(ToLower(a), ToLower(b))
    ensures (a == '*' <==> ToLower(a) == '*') && (a == '?' <==> ToLower(a) == '?')
  {
  }

  lemma {:induction false} InLowerCase(s: string, p: string)
    ensures Matches(SameChar(false), s, p) <==> Matches(Exactly(), LowerAll(s), LowerAll(p))
  {
    forall i, j | 0 <= i < |p| && 0 <= j < |s|
      ensures SameChar(false)(p[i], s[j]) == Exactly()(LowerAll(p)[i], LowerAll(s)[j])
    {
      SameCharIs(p[i], s[j]);
    }
    forall i | 0 <= i < |p| ensures (p[i] == '*' <==> LowerAll(p)[i] == '*') && (p[i] == '?' <==> LowerAll(p)[i] == '?') {
      SameCharIs(p[i], p[i]);
    }
    TranslatedMatch(SameChar(false), Exactly(), s, p, LowerAll(s), LowerAll(p));
  }

  lemma {:induction false} AsTheyAre(s: string, p: string)
    ensures Matches(SameChar(true), s, p) <==> Matches(Exactly(), s, p)
  {
    forall i, j | 0 <= i < |p| && 0 <= j < |s| ensures SameChar(true)(p[i], s[j]) == Exactly()(p[i], s[j]) {
      SameCharIs(p[i], s[j]);
    }
    TranslatedMatch(SameChar(true), Exactly(), s, p, s, p);
  }

  /** The comparisons `wildcmp` makes are what a filter means. */
  lemma {:induction false} ComparesAsMeant(caseSensitive: bool, s: string, p: string)
    ensures Matches(SameChar(caseSensitive), s, p) <==> Accepts(caseSensitive, s, p)
  {
    if caseSensitive {
      AsTheyAre(s, p);
    } else {
      InLowerCase(s, p);
      LowerCaseAccepts(s, p);
    }
  }

  lemma {:induction false} LowerCaseAccepts(s: string, p: string)
    ensures Accepts(false, s, p) <==> Matches(Exactly(), LowerAll(s), LowerAll(p))
  {
    LowerAllIs(s, LowerAll(s));
    LowerAllIs(p, LowerAll(p));
    if Accepts(false, s, p) {
      var ls, lp :| Lowers(s, ls) && Lowers(p, lp) && Matches(Exactly(), ls, lp);
      LowerAllIs(s, ls);
      LowerAllIs(p, lp);
    }
  }

  /** The case of letters in the name does not matter to a case-insensitive filter. */
  lemma {:induction false} CaseDoesNotMatter(s: string, t: string, l: string, p: string)
    requires Lowers(s, l) && Lowers(t, l)
    ensures Accepts(false, s, p) <==> Accepts(false, t, p)
  {
    LowerAllIs(s, l);
    LowerAllIs(t, l);
    LowerCaseAccepts(s, p);
    LowerCaseAccepts(t, p);
  }

  /** `wildcmp`: case-sensitive or ASCII case-insensitive glob matching. */
  method Wildcmp(s: string, p: string, caseSensitive: bool) returns (matched: bool)
    requires CString(s) && CString(p)
    ensures matched <==> Accepts(caseSensitive, s, p)
  {
    ComparesAsMeant(caseSensitive, s, p);
    matched := WildcmpBy(SameChar(caseSensitive), s, p);
  }

  /** `matchesAny`: a name passes a filter list when some filter matches it, or when an empty list
      is declared to match. */
  method MatchesAny(name: string, filters: seq<string>, matchEmpty: bool, caseSensitive: bool) returns (matched: bool)
    requires CString(name) && forall f :: f in filters ==> CString(f)
    ensures matched <==> (filters == [] && matchEmpty) || exists f :: f in filters && Accepts(caseSensitive, name, f)
  {
    if filters == [] && matchEmpty {
      return true;
    }
    for i := 0 to |filters|
      invariant forall k :: 0 <= k < i ==> !Accepts(caseSensitive, name, filters[k])
    {
      var m := Wildcmp(name, filters[i], caseSensitive);
      if m {
        return true;
      }
    }
    return false;
  }
}
