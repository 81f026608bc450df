/** Case-insensitive globs, where `*` stands for any sequence of characters.

    Lower-casing of strings is a parameter of the model. */
module Search {
  import opened Wrappers

  const STAR := '*'

  /** The meaning of a glob. */
  predicate Matches(p: string, v: string)
    decreases |p| + |v|
  {
    if p == "" then v == ""
    else if p[0] == STAR then Matches(p[1..], v) || (v != "" && Matches(p, v[1..]))
    else v != "" && p[0] == v[0] && Matches(p[1..], v[1..])
  }

  predicate AllStars(p: string) {
    forall i :: 0 <= i < |p| ==> p[i] == STAR
  }

  predicate StarFree(p: string) {
    STAR !in p
  }

  ghost predicate OccursAt(v: string, word: string, k: nat) {
    k + |word| <= |v| && v[k..k + |word|] == word
  }

  ghost predicate Contains(v: string, word: string) {
    exists k: nat :: OccursAt(v, word, k)
  }

  // Facts about the meaning

  /** A star takes any number of characters, then the rest has to match. */
  lemma {:induction false} StarTakesAny(p: string, v: string)
    requires p != "" && p[0] == STAR
    ensures Matches(p, v) <==> exists k :: 0 <= k <= |v| && Matches(p[1..], v[k..])
    decreases |v|
  {
    assert v[0..] == v;
    if v != "" {
      StarTakesAny(p, v[1..]);
      if Matches(p, v) && !Matches(p[1..], v) {
        var k :| 0 <= k <= |v[1..]| && Matches(p[1..], v[1..][k..]);
        assert v[1..][k..] == v[k + 1..];
      }
      if k :| 0 <= k <= |v| && Matches(p[1..], v[k..]) {
        if k > 0 {
          assert v[1..][k - 1..] == v[k..];
        }
      }
    }
  }

  /** A literal front has to be there letter by letter. */
  lemma {:induction false} LiteralFront(l: string, r: string, v: string)
    requires StarFree(l)
    ensures Matches(l + r, v) <==> |l| <= |v| && v[..|l|] == l && Matches(r, v[|l|..])
  {
    if l == "" {
      assert l + r == r && v[0..] == v;
    } else {
      assert (l + r)[1..] == l[1..] + r;
      assert l[0] in l && forall c :: c in l[1..] ==> c in l;
      if v != "" {
        LiteralFront(l[1..], r, v[1..]);
        if |l| <= |v| {
          assert v[1..][|l| - 1..] == v[|l|..];
          assert v[..|l|] == [v[0]] + v[1..][..|l| - 1];
          assert l == [l[0]] + l[1..];
        }
      }
    }
  }

  /** A star that matches the rest of the value matches any longer rest. */
  lemma StarMatchesEarlier(p: string, v: string, a: nat, b: nat)
    requires p != "" && p[0] == STAR && a <= b <= |v| && Matches(p, v[b..])
    ensures Matches(p, v[a..])
  {
    StarTakesAny(p, v[b..]);
    var k :| 0 <= k <= |v[b..]| && Matches(p[1..], v[b..][k..]);
    assert v[b..][k..] == v[a..][k + b - a..];
    StarTakesAny(p, v[a..]);
  }

  lemma {:induction false} StarsMatchNothing(p: string)
    ensures Matches(p, "") <==> AllStars(p)
  {
    if p == "" {
    } else {
      StarsMatchNothing(p[1..]);
      assert AllStars(p) <==> p[0] == STAR && AllStars(p[1..]);
    }
  }

  // The three moves of the matcher that involve a remembered star

  lemma AfterLiteral(l: string, r: string, v: string, k: nat)
    requires StarFree(l) && k <= |v| && Matches(l + r, v[k..])
    ensures k + |l| <= |v| && Matches(r, v[k + |l|..])
  {
    LiteralFront(l, r, v[k..]);
    assert v[k..][|l|..] == v[k + |l|..];
  }

  lemma StarTakesNone(p: string, v: string)
    requires Matches(p, v)
    ensures Matches([STAR] + p, v)
  {
    assert ([STAR] + p)[1..] == p;
  }

  lemma StarTakesSome(l: string, r: string, v: string)
    requires StarFree(l) && |l| <= |v| && r != "" && r[0] == STAR && Matches([STAR] + l + r, v)
    ensures Matches(r, v[|l|..])
  {
    hide Matches;
    var p := [STAR] + l + r;
    assert p[1..] == l + r;
    StarTakesAny(p, v);
    var k :| 0 <= k <= |v| && Matches(p[1..], v[k..]);
    AfterLiteral(l, r, v, k);
    StarMatchesEarlier(r, v, |l|, k + |l|);
  }

  /** Forgetting an earlier star loses nothing: once the literal after it has matched, the next star can
      absorb whatever the earlier one might have taken. */
  lemma LastStarSuffices(l: string, r: string, v: string)
    requires StarFree(l) && |l| <= |v| && v[..|l|] == l && r != "" && r[0] == STAR
    ensures Matches([STAR] + l + r, v) <==> Matches(r, v[|l|..])
  {
    if Matches(r, v[|l|..]) {
      LiteralFront(l, r, v);
      StarTakesNone(l + r, v);
      assert [STAR] + (l + r) == [STAR] + l + r;
    }
    if Matches([STAR] + l + r, v) {
      StarTakesSome(l, r, v);
    }
  }

  /** When the literal after the star has matched and the next letter does not, the star has to take one
      character more. */
  lemma StarTakesOneMore(l: string, r: string, v: string)
    requires StarFree(l) && |l| < |v| && v[..|l|] == l
    requires r == "" || (r[0] != STAR && r[0] != v[|l|])
    ensures Matches([STAR] + l + r, v) <==> Matches([STAR] + l + r, v[1..])
  {
    assert ([STAR] + l + r)[1..] == l + r;
    LiteralFront(l, r, v);
    assert !Matches(r, v[|l|..]);
  }

  /** At the end of the value the star cannot take anything any more. */
  lemma StarAtEnd(l: string, r: string, v: string)
    requires StarFree(l) && v == l
    ensures Matches([STAR] + l + r, v) <==> AllStars(r)
  {
    hide Matches;
    var p := [STAR] + l + r;
    assert p[1..] == l + r && v[0..] == v && v[|l|..] == "";
    StarsMatchNothing(r);
    LiteralFront(l, r, v);
    StarTakesAny(p, v);
    if k :| 0 <= k <= |v| && Matches(l + r, v[k..]) {
      LiteralFront(l, r, v[k..]);
    }
  }

  /** Where the matcher stands: without a star the two sides agree so far; with one, the letters since
      the star agree with the value since its place, and nothing is lost by looking only from there. */
  ghost predicate Standing(p: string, v: string, i: nat, j: nat, star: Option<(nat, nat)>) {
    && i <= |p| && j <= |v|
    && match star
       case None => StarFree(p[..i]) && i == j && p[..i] == v[..j]
       case Some((si, sj)) =>
         && si < i && sj <= j && p[si] == STAR && StarFree(p[si + 1..i]) && p[si + 1..i] == v[sj..j]
         && (Matches(p, v) <==> Matches(p[si..], v[sj..]))
  }

  lemma SplitAtStar(p: string, si: nat, i: nat)
    requires si < i <= |p| && p[si] == STAR
    ensures p[si..] == [STAR] + p[si + 1..i] + p[i..]
  {
  }

  lemma NewStar(p: string, v: string, i: nat, j: nat, star: Option<(nat, nat)>)
    requires Standing(p, v, i, j, star) && i < |p| && p[i] == STAR
    ensures Standing(p, v, i + 1, j, Some((i, j)))
  {
    match star
    case Some((si, sj)) =>
      SplitAtStar(p, si, i);
      assert v[sj..][..j - sj] == v[sj..j] && v[sj..][j - sj..] == v[j..];
      LastStarSuffices(p[si + 1..i], p[i..], v[sj..]);
    case None =>
      assert p == p[..i] + p[i..];
      LiteralFront(p[..i], p[i..], v);
  }

  lemma OneLonger(s: string, a: nat, b: nat)
    requires a <= b < |s|
    ensures s[a..b + 1] == s[a..b] + [s[b]]
  {
  }

  lemma SameLetter(p: string, v: string, i: nat, j: nat, star: Option<(nat, nat)>)
    requires Standing(p, v, i, j, star) && i < |p| && j < |v| && p[i] != STAR && p[i] == v[j]
    ensures Standing(p, v, i + 1, j + 1, star)
  {
    match star
    case Some((si, sj)) =>
      OneLonger(p, si + 1, i);
      OneLonger(v, sj, j);
    case None =>
      OneLonger(p, 0, i);
      OneLonger(v, 0, j);
  }

  lemma TakeOneMore(p: string, v: string, i: nat, j: nat, si: nat, sj: nat)
    requires Standing(p, v, i, j, Some((si, sj))) && j < |v| && (i < |p| ==> p[i] != STAR && p[i] != v[j])
    ensures Standing(p, v, si + 1, sj + 1, Some((si, sj + 1)))
  {
    SplitAtStar(p, si, i);
    assert v[sj..][..j - sj] == v[sj..j] && v[sj..][1..] == v[sj + 1..];
    StarTakesOneMore(p[si + 1..i], p[i..], v[sj..]);
  }

  lemma NoStarNoMatch(p: string, v: string, i: nat, j: nat)
    requires Standing(p, v, i, j, None) && j < |v| && (i < |p| ==> p[i] != STAR && p[i] != v[j])
    ensures !Matches(p, v)
  {
    assert p == p[..i] + p[i..];
    LiteralFront(p[..i], p[i..], v);
  }

  lemma OnlyStarsLeft(p: string, v: string, i: nat, star: Option<(nat, nat)>)
    requires Standing(p, v, i, |v|, star)
    ensures Matches(p, v) <==> AllStars(p[i..])
  {
    match star
    case Some((si, sj)) =>
      SplitAtStar(p, si, i);
      StarAtEnd(p[si + 1..i], p[i..], v[sj..]);
    case None =>
      assert p == p[..i] + p[i..] && v[|v|..] == "";
      LiteralFront(p[..i], p[i..], v);
      StarsMatchNothing(p[i..]);
  }

  /** The matcher: one pass that remembers only the last star and, on a mismatch, lets it take one
      character more. */
  method GlobMatch(p: string, v: string) returns (ok: bool)
    ensures ok <==> Matches(p, v)
  {
    hide Matches;
    var i: nat, j: nat := 0, 0;
    var star: Option<(nat, nat)> := None;
    while j < |v|
      invariant Standing(p, v, i, j, star)
      decreases if star.Some? then |v| - star.value.1 else |v| + 1, |p| - i
    {
      if i < |p| && p[i] == STAR {
        NewStar(p, v, i, j, star);
        star := Some((i, j));
        i := i + 1;
      } else if i < |p| && p[i] == v[j] {
        SameLetter(p, v, i, j, star);
        i, j := i + 1, j + 1;
      } else if star.Some? {
        var (si, sj) := star.value;
        TakeOneMore(p, v, i, j, si, sj);
        i, j := si + 1, sj + 1;
        star := Some((si, sj + 1));
      } else {
        NoStarNoMatch(p, v, i, j);
        return false;
      }
    }
    OnlyStarsLeft(p, v, i, star);
    ok := AllStars(p[i..]);
  }

  /** The matcher as it is called: both sides lower-cased. */
  method GlobMatchCi(lower: string -> string, pattern: string, value: string) returns (ok: bool)
    ensures ok <==> Matches(lower(pattern), lower(value))
  {
    ok := GlobMatch(lower(pattern), lower(value));
  }

  // What a typed word becomes

  function TrimStart(space: char -> bool, s: string): string {
    if s != "" && space(s[0]) then TrimStart(space, s[1..]) else s
  }

  function TrimEnd(space: char -> bool, s: string): string {
    if s != "" && space(s[|s| - 1]) then TrimEnd(space, s[..|s| - 1]) else s
  }

  function Trim(space: char -> bool, s: string): string {
    TrimEnd(space, TrimStart(space, s))
  }

  /** A word without a star is wrapped in stars; a pattern with a star is taken as typed. */
  function ToGlob(space: char -> bool, raw: string): string {
    var t := Trim(space, raw);
    if t == "" || STAR in t then t else "*" + t + "*"
  }

  /** Lower-casing leaves stars alone: none appears in a word, and stars around a word stay around it. */
  ghost predicate KeepsStars(lower: string -> string) {
    forall w :: StarFree(w) ==> StarFree(lower(w)) && lower("*" + w + "*") == "*" + lower(w) + "*"
  }

  /** A non-empty word without a star means "contains that word, in any case"; nothing else about the
      word matters. */
  lemma WordMeansContains(space: char -> bool, lower: string -> string, raw: string, value: string)
    requires Trim(space, raw) != "" && StarFree(Trim(space, raw)) && KeepsStars(lower)
    ensures Matches(lower(ToGlob(space, raw)), lower(value)) <==> Contains(lower(value), lower(Trim(space, raw)))
  {
    StarredWord(lower(Trim(space, raw)), lower(value));
  }

  lemma StarredWord(w: string, v: string)
    requires StarFree(w)
    ensures Matches("*" + w + "*", v) <==> Contains(v, w)
  {
    var p := "*" + w + "*";
    assert p[1..] == w + "*";
    StarTakesAny(p, v);
    forall k: nat | k <= |v|
      ensures Matches(w + "*", v[k..]) <==> OccursAt(v, w, k)
    {
      LiteralFront(w, "*", v[k..]);
      if |w| <= |v[k..]| {
        assert v[k..][..|w|] == v[k..k + |w|];
        StarAloneMatches(v[k..][|w|..]);
      }
    }
  }

  lemma StarAloneMatches(v: string)
    ensures Matches("*", v)
  {
    StarTakesAny("*", v);
    assert v[|v|..] == "" && Matches("*"[1..], "");
  }
}
