/**
 URI pattern matching: `mg_match`, with which the web server recognises its
 built-in endpoints and custom routes.

 The code keeps a single backtracking point, the last wildcard passed. `Glob` is
 the documented meaning of a pattern, with no backtracking discipline at all.
 Patterns without `*` mean exactly what is documented; patterns with `*` can accept or
 refuse a text against the documentation.
 */
module Glob {

  predicate Wild(c: char) {
    c == '*' || c == '#'
  }

  // ---------------------------------------------------------------- the code

  /** One position of the matcher: `i` in the pattern, `j` in the text, and the
      restart point (`nj == 0` while no wildcard has been passed). */
  datatype Cursor = Cursor(i: nat, j: nat, ni: nat, nj: nat)

  predicate InRange(s: string, p: string, c: Cursor) {
    && c.i <= |p| && c.j <= |s| && c.nj <= |s| + 1
    && (c.nj > 0 ==> c.ni < |p| && Wild(p[c.ni]) && c.ni <= c.i && c.nj <= c.j + 1)
    && (c.nj > 0 && c.ni == c.i ==> c.j == c.nj)
  }

  predicate Restarted(c: Cursor) {
    c.nj > 0 && c.i == c.ni
  }

  predicate SameChar(s: string, p: string, c: Cursor) {
    c.i < |p| && c.j < |s| && (p[c.i] == '?' || (!Wild(p[c.i]) && s[c.j] == p[c.i]))
  }

  predicate CanRestart(s: string, p: string, c: Cursor)
    requires InRange(s, p, c)
  {
    0 < c.nj <= |s| && (p[c.ni] == '#' || (c.j < |s| && s[c.j] != '/'))
  }

  /** The loop of `mg_match` from a cursor on. */
  predicate MatchFrom(s: string, p: string, c: Cursor)
    requires InRange(s, p, c)
    decreases |s| + 2 - (if Restarted(c) then c.nj + 1 else c.nj), |p| - c.i
  {
    if c.i == |p| && c.j == |s| then true
    else if SameChar(s, p, c) then MatchFrom(s, p, c.(i := c.i + 1, j := c.j + 1))
    else if c.i < |p| && Wild(p[c.i]) then MatchFrom(s, p, Cursor(c.i + 1, c.j, c.i, c.j + 1))
    else if CanRestart(s, p, c) then MatchFrom(s, p, c.(i := c.ni, j := c.nj))
    else false
  }

  predicate MgMatch(s: string, p: string) {
    MatchFrom(s, p, Cursor(0, 0, 0, 0))
  }

  /** `mg_match` as it is written, without the captures. */
  method Match(s: string, p: string) returns (r: bool)
    ensures r == MgMatch(s, p)
    ensures (forall k :: 0 <= k < |p| ==> p[k] != '*') ==> r == Glob(p, s)
  {
    var i, j, ni, nj := 0, 0, 0, 0;
    if forall k :: 0 <= k < |p| ==> p[k] != '*' {
      StarFreeIsExact(s, p);
    }
    while i < |p| || j < |s|
      invariant InRange(s, p, Cursor(i, j, ni, nj))
      invariant MgMatch(s, p) == MatchFrom(s, p, Cursor(i, j, ni, nj))
      decreases |s| + 2 - (if nj > 0 && i == ni then nj + 1 else nj), |p| - i
    {
      if i < |p| && j < |s| && (p[i] == '?' || (p[i] != '*' && p[i] != '#' && s[j] == p[i])) {
        i, j := i + 1, j + 1;
      } else if i < |p| && (p[i] == '*' || p[i] == '#') {
        ni, nj := i, j + 1;
        i := i + 1;
      } else if 0 < nj <= |s| && ((ni < |p| && p[ni] == '#') || (j < |s| && s[j] != '/')) {
        i, j := ni, nj;
      } else {
        return false;
      }
    }
    return true;
  }

  // ------------------------------------------------------ the documented meaning

  ghost predicate Glob(p: string, s: string)
    decreases |p|
  {
    if p == "" then s == ""
    else if p[0] == '#' then exists k :: 0 <= k <= |s| && Glob(p[1..], s[k..])
    else if p[0] == '*' then exists k :: 0 <= k <= |s| && '/' !in s[..k] && Glob(p[1..], s[k..])
    else s != "" && (p[0] == '?' || p[0] == s[0]) && Glob(p[1..], s[1..])
  }

  predicate StarFree(p: string) {
    forall k :: 0 <= k < |p| ==> p[k] != '*'
  }

  /** What a `#` may swallow, it may swallow from any earlier place. */
  lemma HashAbsorbs(p: string, s: string, a: nat, b: nat)
    requires p != "" && p[0] == '#' && a <= b <= |s|
    requires Glob(p, s[b..])
    ensures Glob(p, s[a..])
  {
    var k :| 0 <= k <= |s[b..]| && Glob(p[1..], s[b..][k..]);
    assert s[b..][k..] == s[a..][b - a + k..];
  }

  /** A text matches `#q` if `q` matches here or `#q` matches one further on. */
  lemma HashSplits(p: string, s: string, a: nat)
    requires p != "" && p[0] == '#' && a <= |s|
    ensures Glob(p, s[a..]) <==> Glob(p[1..], s[a..]) || (a < |s| && Glob(p, s[a + 1..]))
  {
    if Glob(p[1..], s[a..]) {
      assert s[a..][0..] == s[a..];
    }
    if a < |s| && Glob(p, s[a + 1..]) {
      HashAbsorbs(p, s, a, a + 1);
    }
    if Glob(p, s[a..]) {
      var k :| 0 <= k <= |s[a..]| && Glob(p[1..], s[a..][k..]);
      if k == 0 {
        assert s[a..][0..] == s[a..];
      } else {
        assert s[a..][k..] == s[a + 1..][k - 1..];
      }
    }
  }

  /** `p[from..to]`, free of wildcards, fits the text at `at`. */
  predicate Fits(p: string, from: nat, to: nat, s: string, at: nat)
    requires from <= to <= |p|
  {
    && at + (to - from) <= |s|
    && forall k :: from <= k < to ==> !Wild(p[k]) && (p[k] == '?' || p[k] == s[at + (k - from)])
  }

  /** A wildcard-free stretch that fits can be taken off both sides. */
  lemma {:induction false} FitPeels(p: string, from: nat, to: nat, s: string, at: nat)
    requires from <= to <= |p| && Fits(p, from, to, s, at)
    ensures Glob(p[from..], s[at..]) <==> Glob(p[to..], s[at + (to - from)..])
    decreases |p| - from
  {
    if from < to {
      FitPeels(p, from + 1, to, s, at + 1);
      assert p[from..][1..] == p[from + 1..] && s[at..][1..] == s[at + 1..];
    }
  }

  /** A wildcard-free stretch must fit where it matches. */
  lemma {:induction false} MatchFits(p: string, from: nat, to: nat, s: string, at: nat)
    requires from <= to <= |p| && at <= |s|
    requires forall k :: from <= k < to ==> !Wild(p[k])
    requires Glob(p[from..], s[at..])
    ensures Fits(p, from, to, s, at)
    decreases |p| - from
  {
    if from < to {
      assert p[from..][1..] == p[from + 1..] && s[at..][1..] == s[at + 1..];
      MatchFits(p, from + 1, to, s, at + 1);
    }
  }

  /** The heart of the greedy strategy: once a second `#` is reached, the first
      one need never be moved again. */
  lemma NextHashCommits(p: string, s: string, first: nat, i: nat, at: nat)
    requires first < i < |p| && p[first] == '#' && p[i] == '#'
    requires Fits(p, first + 1, i, s, at)
    ensures Glob(p[first..], s[at..]) <==> Glob(p[i..], s[at + (i - first - 1)..])
  {
    assert p[first..][1..] == p[first + 1..];
    if Glob(p[i..], s[at + (i - first - 1)..]) {
      FitPeels(p, first + 1, i, s, at);
      HashSplits(p[first..], s, at);
    }
    if Glob(p[first..], s[at..]) {
      LaterHashSuffices(p, s, first, i, at);
    }
  }

  lemma LaterHashSuffices(p: string, s: string, first: nat, i: nat, at: nat)
    requires first < i < |p| && p[first] == '#' && p[i] == '#'
    requires Fits(p, first + 1, i, s, at) && Glob(p[first..], s[at..])
    ensures Glob(p[i..], s[at + (i - first - 1)..])
  {
    var j := at + (i - first - 1);
    assert p[first..][1..] == p[first + 1..];
    var k :| 0 <= k <= |s[at..]| && Glob(p[first + 1..], s[at..][k..]);
    assert s[at..][k..] == s[at + k..];
    MatchFits(p, first + 1, i, s, at + k);
    FitPeels(p, first + 1, i, s, at + k);
    HashAbsorbs(p[i..], s, j, j + k);
  }

  /** What the rest of the search is to decide at a cursor. */
  ghost predicate Pending(s: string, p: string, c: Cursor)
    requires InRange(s, p, c)
  {
    if c.nj == 0 then Glob(p[c.i..], s[c.j..])
    else if Restarted(c) then Glob(p[c.ni..], s[c.nj..])
    else Glob(p[c.ni..], s[c.nj - 1..])
  }

  /** The cursor is in an attempt to match the literal behind its wildcard, from `c.nj - 1` on. */
  predicate Attempt(s: string, p: string, c: Cursor) {
    && InRange(s, p, c)
    && (c.nj > 0 && !Restarted(c) ==>
          Fits(p, c.ni + 1, c.i, s, c.nj - 1) && c.j == c.nj - 1 + (c.i - c.ni - 1))
  }

  /** On patterns without `*`, the loop decides exactly what is pending. */
  lemma {:induction false} LoopDecides(s: string, p: string, c: Cursor)
    requires Attempt(s, p, c) && StarFree(p)
    ensures MatchFrom(s, p, c) == Pending(s, p, c)
    decreases |s| + 2 - (if Restarted(c) then c.nj + 1 else c.nj), |p| - c.i
  {
    hide Glob, Pending, Fits, StarFree;
    if c.i == |p| && c.j == |s| {
      EndReached(s, p, c);
    } else if SameChar(s, p, c) {
      OneCharacter(s, p, c);
      LoopDecides(s, p, c.(i := c.i + 1, j := c.j + 1));
    } else if c.i < |p| && Wild(p[c.i]) {
      OneWildcard(s, p, c);
      LoopDecides(s, p, Cursor(c.i + 1, c.j, c.i, c.j + 1));
    } else {
      AttemptFailed(s, p, c);
      if CanRestart(s, p, c) {
        LoopDecides(s, p, c.(i := c.ni, j := c.nj));
      }
    }
  }

  lemma OneCharacter(s: string, p: string, c: Cursor)
    requires Attempt(s, p, c) && SameChar(s, p, c)
    ensures var d := c.(i := c.i + 1, j := c.j + 1);
            Attempt(s, p, d) && Pending(s, p, d) == Pending(s, p, c)
  {
    assert p[c.i..][1..] == p[c.i + 1..] && s[c.j..][1..] == s[c.j + 1..];
  }

  lemma OneWildcard(s: string, p: string, c: Cursor)
    requires Attempt(s, p, c) && StarFree(p) && c.i < |p| && Wild(p[c.i])
    ensures var d := Cursor(c.i + 1, c.j, c.i, c.j + 1);
            Attempt(s, p, d) && Pending(s, p, d) == Pending(s, p, c)
  {
    if c.nj > 0 && !Restarted(c) {
      NextHashCommits(p, s, c.ni, c.i, c.nj - 1);
    }
  }

  lemma StarIntro(p: string, s: string, at: nat, k: nat)
    requires p != "" && p[0] == '*' && at + k <= |s|
    requires (forall x :: at <= x < at + k ==> s[x] != '/') && Glob(p[1..], s[at + k..])
    ensures Glob(p, s[at..])
  {
    assert s[at..][k..] == s[at + k..];
    assert forall x :: 0 <= x < k ==> s[at..][..k][x] == s[at + x];
  }

  lemma HashIntro(p: string, s: string, at: nat, k: nat)
    requires p != "" && p[0] == '#' && at + k <= |s| && Glob(p[1..], s[at + k..])
    ensures Glob(p, s[at..])
  {
    assert s[at..][k..] == s[at + k..];
  }

  lemma EndReached(s: string, p: string, c: Cursor)
    requires Attempt(s, p, c) && c.i == |p| && c.j == |s|
    ensures Pending(s, p, c)
  {
    assert Glob(p[c.i..], s[c.j..]);
    hide Glob;
    if c.nj > 0 {
      FitPeels(p, c.ni + 1, c.i, s, c.nj - 1);
      assert p[c.ni..][1..] == p[c.ni + 1..];
      if p[c.ni] == '*' {
        StarIntro(p[c.ni..], s, c.nj - 1, 0);
      } else {
        HashIntro(p[c.ni..], s, c.nj - 1, 0);
      }
    }
  }

  /** The cursor stands at a mismatch. */
  predicate Stuck(s: string, p: string, c: Cursor) {
    !(c.i == |p| && c.j == |s|) && !SameChar(s, p, c) && (c.i < |p| ==> !Wild(p[c.i]))
  }

  lemma StuckHere(s: string, p: string, c: Cursor)
    requires InRange(s, p, c) && Stuck(s, p, c)
    ensures !Glob(p[c.i..], s[c.j..])
  {
  }

  /** A mismatch rules out the current attempt and nothing else. */
  lemma HashRestart(s: string, p: string, c: Cursor)
    requires Attempt(s, p, c) && Stuck(s, p, c) && c.nj > 0 && p[c.ni] == '#'
    ensures var d := c.(i := c.ni, j := c.nj);
            if c.nj <= |s| then Attempt(s, p, d) && Pending(s, p, d) == Pending(s, p, c) else !Pending(s, p, c)
  {
    hide Glob;
    StuckHere(s, p, c);
    FitPeels(p, c.ni + 1, c.i, s, c.nj - 1);
    assert p[c.ni..][1..] == p[c.ni + 1..];
    HashSplits(p[c.ni..], s, c.nj - 1);
  }

  lemma AttemptFailed(s: string, p: string, c: Cursor)
    requires Attempt(s, p, c) && StarFree(p) && Stuck(s, p, c)
    ensures var d := c.(i := c.ni, j := c.nj);
            if CanRestart(s, p, c) then Attempt(s, p, d) && Pending(s, p, d) == Pending(s, p, c) else !Pending(s, p, c)
  {
    if c.nj > 0 {
      HashRestart(s, p, c);
    } else {
      StuckHere(s, p, c);
    }
  }

  /** A pattern without `*` matches exactly the texts it is documented to match. */
  lemma StarFreeIsExact(s: string, p: string)
    requires StarFree(p)
    ensures MgMatch(s, p) == Glob(p, s)
  {
    LoopDecides(s, p, Cursor(0, 0, 0, 0));
    assert p[0..] == p && s[0..] == s;
  }

  // ------------------------------------------------- the patterns of the web API

  predicate Literal(p: string) {
    forall k :: 0 <= k < |p| ==> p[k] !in "*#?"
  }

  lemma {:induction false} LiteralGlob(p: string, s: string)
    requires Literal(p)
    ensures Glob(p, s) <==> p == s
  {
    if p != "" && s != "" {
      LiteralGlob(p[1..], s[1..]);
      assert p == [p[0]] + p[1..] && s == [s[0]] + s[1..];
    }
  }

  /** A literal pattern, such as `/api/login`, is matched by itself alone. */
  lemma LiteralMatch(s: string, p: string)
    requires Literal(p)
    ensures MgMatch(s, p) <==> s == p
  {
    StarFreeIsExact(s, p);
    LiteralGlob(p, s);
  }

  lemma {:induction false} PrefixGlob(p: string, s: string)
    requires Literal(p)
    ensures Glob(p + "#", s) <==> p <= s
  {
    if p == "" {
      assert s[|s|..] == "" && (p + "#")[1..] == "";
    } else if s != "" {
      PrefixGlob(p[1..], s[1..]);
      assert (p + "#")[1..] == p[1..] + "#";
      assert p <= s <==> p[0] == s[0] && p[1..] <= s[1..];
    }
  }

  /** A literal followed by `#`, such as `/api/#`, is matched by its extensions. */
  lemma PrefixMatch(s: string, p: string)
    requires Literal(p)
    ensures MgMatch(s, p + "#") <==> p <= s
  {
    StarFreeIsExact(s, p + "#");
    PrefixGlob(p, s);
  }

  /** A `*` takes the next character or stops in front of it; at a slash it must stop. */
  lemma StarSplits(p: string, s: string)
    requires p != "" && p[0] == '*'
    ensures Glob(p, s) <==> Glob(p[1..], s) || (s != "" && s[0] != '/' && Glob(p, s[1..]))
  {
    if Glob(p[1..], s) {
      assert s[0..] == s && s[..0] == "";
    }
    if s != "" && s[0] != '/' && Glob(p, s[1..]) {
      var k :| 0 <= k <= |s[1..]| && '/' !in s[1..][..k] && Glob(p[1..], s[1..][k..]);
      assert s[1..][k..] == s[k + 1..] && s[..k + 1] == [s[0]] + s[1..][..k];
    }
    if Glob(p, s) {
      var k :| 0 <= k <= |s| && '/' !in s[..k] && Glob(p[1..], s[k..]);
      if k == 0 {
        assert s[0..] == s;
      } else {
        assert s[..k][0] == s[0] && s[k..] == s[1..][k - 1..];
        assert s[1..][..k - 1] == s[..k][1..];
      }
    }
  }

  // -------------------------------------------------- where `*` goes wrong

  /** `*` is documented not to match `/`, but the guard of the restart looks at
      the character of the mismatch, not at the one swallowed: `x/ac/ab` matches. */
  lemma StarCanSwallowASlash()
    ensures MgMatch("x/ac/ab", "*/ab") && !Glob("*/ab", "x/ac/ab")
  {
    StarSlashAccepted();
    StarSlashForbidden();
  }

  lemma StarSlashAccepted()
    ensures MgMatch("x/ac/ab", "*/ab")
  {
    var s, p := "x/ac/ab", "*/ab";
    assert MatchFrom(s, p, Cursor(2, 5, 0, 5));
    assert MatchFrom(s, p, Cursor(1, 3, 0, 4));
    assert MatchFrom(s, p, Cursor(1, 2, 0, 3));
    assert MatchFrom(s, p, Cursor(3, 3, 0, 2));
    assert MatchFrom(s, p, Cursor(1, 1, 0, 2));
  }

  lemma StarSlashForbidden()
    ensures !Glob("*/ab", "x/ac/ab")
  {
    StarReachesNoSlash("*/ab", "/ab", "x/ac/ab");
  }

  lemma StarReachesNoSlash(p: string, rest: string, s: string)
    requires p == ['*'] + rest && Literal(rest)
    requires |s| > |rest| + 1 && s[1] == '/'
    ensures !Glob(p, s)
  {
    assert p[1..] == rest;
    assert forall k :: 2 <= k <= |s| ==> s[..k][1] == '/';
    if Glob(p, s) {
      var k :| 0 <= k <= |s| && '/' !in s[..k] && Glob(p[1..], s[k..]);
      LiteralGlob(rest, s[k..]);
    }
  }

  /** A `#` that has been passed is given up for good at the next `*`, which then
      cannot cross a slash: `a/ab` is refused although it matches. */
  lemma StarCanMissAMatch()
    ensures !MgMatch("a/ab", "#a*b") && Glob("#a*b", "a/ab")
  {
    hide Glob, MatchFrom;
    MatcherRefuses();
    MeaningAccepts();
  }

  lemma MatcherRefuses()
    ensures !MatchFrom("a/ab", "#a*b", Cursor(0, 0, 0, 0))
  {
    var s, p := "a/ab", "#a*b";
    assert !MatchFrom(s, p, Cursor(3, 1, 2, 2));
    assert !MatchFrom(s, p, Cursor(1, 0, 0, 1));
  }

  lemma MeaningAccepts()
    ensures Glob("#a*b", "a/ab")
  {
    assert Glob("b", "b");
    assert "b"[0..] == "b" && "*b"[1..] == "b" && "b"[..0] == "";
    assert Glob("*b", "b");
    assert "a*b"[1..] == "*b" && "ab"[1..] == "b";
    assert Glob("a*b", "ab");
    assert "a/ab"[2..] == "ab" && "#a*b"[1..] == "a*b";
  }
}
