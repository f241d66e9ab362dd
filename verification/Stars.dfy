/**
 Patterns of literals, `*` and `#`, as custom routes use them: where they mean what is
 documented.

 The matcher keeps the last wildcard only, and moves a `*` on past the character of the
 mismatch instead of the one it swallows. So a `*` behind a `#` is at best another `#`: the
 matcher decides the pattern with those stars loosened, as long as it cannot get stuck at
 one; and that is the pattern itself as long as they need not stop at a slash.
 */
module Stars {
  import opened Matching = Glob

  /** No `?`. */
  predicate Simple(p: string) {
    forall k :: 0 <= k < |p| ==> p[k] != '?'
  }

  predicate Behind(p: string, k: nat)
    requires k <= |p|
  {
    exists x :: 0 <= x < k && p[x] == '#'
  }

  function LastHash(p: string, k: nat): (g: nat)
    requires k <= |p| && Behind(p, k)
    ensures g < k && p[g] == '#' && forall x :: g < x < k ==> p[x] != '#'
  {
    if p[k - 1] == '#' then k - 1 else LastHash(p, k - 1)
  }

  function SlashRun(p: string, i: nat): (n: nat)
    requires i <= |p|
    ensures i + n <= |p| && (forall x :: i <= x < i + n ==> p[x] == '/') && (i + n < |p| ==> p[i + n] != '/')
    decreases |p| - i
  {
    if i < |p| && p[i] == '/' then 1 + SlashRun(p, i + 1) else 0
  }

  predicate WildAt(p: string, i: nat) {
    i < |p| && Wild(p[i])
  }

  /** A star, or a slash right behind a wildcard. */
  predicate StepAt(p: string, x: nat)
    requires x < |p|
  {
    p[x] == '*' || (p[x] == '/' && x > 0 && Wild(p[x - 1]))
  }

  predicate Steps(p: string, from: nat, to: nat)
    requires to <= |p|
  {
    forall x :: from <= x < to ==> StepAt(p, x)
  }

  /** A `*` with no `#` before it that cannot swallow a slash. */
  predicate Tame(p: string, k: nat) {
    k + 1 < |p| && p[k + 1] == '/' ==> WildAt(p, k + 2)
  }

  /** A `*` at which the matcher cannot get stuck: slashes only up to the next wildcard. */
  predicate Gliding(p: string, k: nat)
    requires k < |p|
  {
    WildAt(p, k + 1 + SlashRun(p, k + 1))
  }

  /** The `*` at `k` does what is documented. */
  predicate Sound(p: string, k: nat)
    requires k < |p|
  {
    if Behind(p, k) then Gliding(p, k) && (SlashRun(p, k + 1) >= 2 ==> Steps(p, LastHash(p, k) + 1, k))
    else Tame(p, k)
  }

  predicate Clear(p: string) {
    forall k :: 0 <= k < |p| && p[k] == '*' ==> Sound(p, k)
  }

  /** What the proof of the loop needs of it. */
  predicate Smooth(p: string) {
    Simple(p) && forall k :: 0 <= k < |p| && p[k] == '*' ==> if Behind(p, k) then Gliding(p, k) else Tame(p, k)
  }

  function LooseAt(p: string, k: nat): char
    requires k < |p|
  {
    if p[k] == '*' && Behind(p, k) then '#' else p[k]
  }

  /** `l` is `p` with each `*` behind a `#` loosened to a `#`. */
  predicate Loosens(l: string, p: string) {
    |l| == |p| && forall k :: 0 <= k < |p| ==> l[k] == LooseAt(p, k)
  }

  lemma NoStarBehind(l: string, p: string, x: nat, k: nat)
    requires Loosens(l, p) && x < k < |l| && l[x] == '#' && Wild(l[k])
    ensures l[k] == '#'
  {
    if p[x] == '*' {
      var y :| 0 <= y < x && p[y] == '#';
      assert Behind(p, k);
    } else {
      assert Behind(p, k);
    }
  }

  // ------------------------------------------------------------------ the loop

  /** Where the same literal fits twice and no slash lies between the two places, it has no slash. */
  lemma {:induction false} TwiceMeansNoSlash(p: string, from: nat, to: nat, s: string, q: nat, k: nat, i: nat)
    requires from <= to <= |p| && 0 < k && from <= i < to && Simple(p)
    requires Fits(p, from, to, s, q) && Fits(p, from, to, s, q + k)
    requires forall x :: q <= x < q + k ==> s[x] != '/'
    ensures p[i] != '/'
    decreases i
  {
    assert s[q + (i - from)] == p[i];
    if i - from >= k {
      assert s[q + k + (i - k - from)] == p[i - k];
      TwiceMeansNoSlash(p, from, to, s, q, k, i - k);
    }
  }

  /** What a `*` that fits at `q + k` swallows, the next `*` can swallow as well. */
  lemma NextStarSwallows(p: string, from: nat, to: nat, s: string, q: nat, k: nat, x: nat)
    requires from <= to <= |p| && Simple(p)
    requires Fits(p, from, to, s, q) && Fits(p, from, to, s, q + k)
    requires forall x :: q <= x < q + k ==> s[x] != '/'
    requires q + (to - from) <= x < q + k + (to - from)
    ensures s[x] != '/'
  {
    if x >= q + k {
      var i := from + (x - q - k);
      assert s[q + k + (i - from)] == p[i];
      TwiceMeansNoSlash(p, from, to, s, q, k, i);
    }
  }

  lemma StarElim(p: string, s: string, at: nat) returns (k: nat)
    requires p != "" && p[0] == '*' && at <= |s| && Glob(p, s[at..])
    ensures at + k <= |s| && (forall x :: at <= x < at + k ==> s[x] != '/') && Glob(p[1..], s[at + k..])
  {
    k :| 0 <= k <= |s[at..]| && '/' !in s[at..][..k] && Glob(p[1..], s[at..][k..]);
    assert s[at..][k..] == s[at + k..];
    assert forall x :: at <= x < at + k ==> s[at..][..k][x - at] == s[x];
  }

  lemma HashElim(p: string, s: string, at: nat) returns (k: nat)
    requires p != "" && p[0] == '#' && at <= |s| && Glob(p, s[at..])
    ensures at + k <= |s| && Glob(p[1..], s[at + k..])
  {
    k :| 0 <= k <= |s[at..]| && Glob(p[1..], s[at..][k..]);
    assert s[at..][k..] == s[at + k..];
  }

  /** Once the next `*` is reached, the one before need never be moved again. */
  lemma NextStarCommits(p: string, s: string, first: nat, i: nat, at: nat)
    requires first < i < |p| && p[first] == '*' && p[i] == '*' && Simple(p)
    requires Fits(p, first + 1, i, s, at)
    ensures Glob(p[first..], s[at..]) <==> Glob(p[i..], s[at + (i - first - 1)..])
  {
    hide Glob;
    assert p[first..][1..] == p[first + 1..] && p[i..][1..] == p[i + 1..];
    FitPeels(p, first + 1, i, s, at);
    if Glob(p[i..], s[at + (i - first - 1)..]) {
      StarIntro(p[first..], s, at, 0);
    }
    if Glob(p[first..], s[at..]) {
      var j := at + (i - first - 1);
      var k := StarElim(p[first..], s, at);
      MatchFits(p, first + 1, i, s, at + k);
      FitPeels(p, first + 1, i, s, at + k);
      var k' := StarElim(p[i..], s, j + k);
      forall x | j <= x < j + k + k'
        ensures s[x] != '/'
      {
        if x < j + k {
          NextStarSwallows(p, first + 1, i, s, at, k, x);
        }
      }
      StarIntro(p[i..], s, j, k + k');
    }
  }

  /** So too when the next wildcard is a `#`. */
  lemma HashAfterStarCommits(p: string, s: string, first: nat, i: nat, at: nat)
    requires first < i < |p| && p[first] == '*' && p[i] == '#'
    requires Fits(p, first + 1, i, s, at)
    ensures Glob(p[first..], s[at..]) <==> Glob(p[i..], s[at + (i - first - 1)..])
  {
    hide Glob;
    var j := at + (i - first - 1);
    assert p[first..][1..] == p[first + 1..];
    FitPeels(p, first + 1, i, s, at);
    if Glob(p[i..], s[j..]) {
      StarIntro(p[first..], s, at, 0);
    }
    if Glob(p[first..], s[at..]) {
      var k := StarElim(p[first..], s, at);
      MatchFits(p, first + 1, i, s, at + k);
      FitPeels(p, first + 1, i, s, at + k);
      HashAbsorbs(p[i..], s, j, j + k);
    }
  }

  /** An attempt of a `*` that has failed at `j`, at the end of the text or at a slash, is the last. */
  lemma NoLaterMatch(s: string, p: string, c: Cursor)
    requires Attempt(s, p, c) && Simple(p) && c.nj > 0 && !Restarted(c) && p[c.ni] == '*'
    requires Stuck(s, p, c) && (c.j == |s| || s[c.j] == '/')
    ensures !Glob(p[c.ni..], s[c.nj - 1..])
  {
    hide Glob;
    var q, from := c.nj - 1, c.ni + 1;
    assert p[c.ni..][1..] == p[from..];
    if Glob(p[c.ni..], s[q..]) {
      var k := StarElim(p[c.ni..], s, q);
      var to := if c.i < |p| then c.i + 1 else c.i;
      MatchFits(p, from, to, s, q + k);
      if k == 0 {
        FitPeels(p, from, c.i, s, q);
        StuckHere(s, p, c);
      } else if c.j < |s| {
        if c.j >= q + k {
          var i := from + (c.j - q - k);
          assert Fits(p, from, c.i, s, q + k);
          assert s[q + k + (i - from)] == p[i];
          TwiceMeansNoSlash(p, from, c.i, s, q, k, i);
        }
      }
    }
  }

  lemma NextWildcard(s: string, l: string, p: string, c: Cursor)
    requires Loosens(l, p) && Attempt(s, l, c) && Simple(l) && WildAt(l, c.i)
    ensures var d := Cursor(c.i + 1, c.j, c.i, c.j + 1); Attempt(s, l, d) && Pending(s, l, d) == Pending(s, l, c)
  {
    if c.nj > 0 && !Restarted(c) {
      if l[c.ni] == '#' {
        NoStarBehind(l, p, c.ni, c.i);
        NextHashCommits(l, s, c.ni, c.i, c.nj - 1);
      } else if l[c.i] == '*' {
        NextStarCommits(l, s, c.ni, c.i, c.nj - 1);
      } else {
        HashAfterStarCommits(l, s, c.ni, c.i, c.nj - 1);
      }
    }
    hide Glob, Loosens;
  }

  /** A tame star swallows no slash when it is moved on. */
  lemma SwallowsNoSlash(s: string, p: string, c: Cursor)
    requires Attempt(s, p, c) && Stuck(s, p, c) && Simple(p) && c.nj > 0 && p[c.ni] == '*' && Tame(p, c.ni) && CanRestart(s, p, c)
    ensures s[c.nj - 1] != '/'
  {
    if c.i > c.ni + 1 {
      assert s[c.nj - 1 + 0] == p[c.ni + 1];
    }
  }

  lemma TameRestart(s: string, p: string, c: Cursor)
    requires Attempt(s, p, c) && Stuck(s, p, c) && Simple(p) && c.nj > 0 && p[c.ni] == '*' && Tame(p, c.ni)
    ensures var d := c.(i := c.ni, j := c.nj);
            if CanRestart(s, p, c) then Attempt(s, p, d) && Pending(s, p, d) == Pending(s, p, c) else !Pending(s, p, c)
  {
    hide Glob;
    StuckHere(s, p, c);
    var q := c.nj - 1;
    FitPeels(p, c.ni + 1, c.i, s, q);
    assert p[c.ni..][1..] == p[c.ni + 1..];
    if CanRestart(s, p, c) {
      SwallowsNoSlash(s, p, c);
      StarSplits(p[c.ni..], s[q..]);
      assert s[q..][1..] == s[q + 1..];
    } else {
      NoLaterMatch(s, p, c);
    }
  }

  /** At the end of the text, with characters to come in the pattern, nothing is left to find. */
  lemma NothingLeft(s: string, p: string, c: Cursor)
    requires Attempt(s, p, c) && Stuck(s, p, c) && c.nj > 0 && p[c.ni] == '#' && c.j == |s| && c.i < |p|
    ensures !Pending(s, p, c)
  {
    hide Glob;
    var q := c.nj - 1;
    assert p[c.ni..][1..] == p[c.ni + 1..];
    if Glob(p[c.ni..], s[q..]) {
      var k := HashElim(p[c.ni..], s, q);
      MatchFits(p, c.ni + 1, c.i + 1, s, q + k);
    }
  }

  /** The mismatch of a star that glides is no slash, or the end of the text. */
  lemma GlidesOn(s: string, l: string, p: string, c: Cursor)
    requires Loosens(l, p) && Attempt(s, l, c) && Stuck(s, l, c) && Simple(p) && c.nj > 0 && p[c.ni] == '*' && Gliding(p, c.ni)
    ensures c.i < |p| && (c.j < |s| ==> s[c.j] != '/')
  {
    var m := c.ni + 1 + SlashRun(p, c.ni + 1);
    assert Wild(l[m]);
    assert p[c.i] == '/' == l[c.i];
  }

  lemma RestartDecides(s: string, l: string, p: string, c: Cursor)
    requires Loosens(l, p) && Smooth(p) && Simple(l) && Attempt(s, l, c) && Stuck(s, l, c) && InRange(s, p, c)
    ensures var d := c.(i := c.ni, j := c.nj);
            if CanRestart(s, p, c) then Attempt(s, l, d) && Pending(s, l, d) == Pending(s, l, c) else !Pending(s, l, c)
  {
    if c.nj == 0 {
      StuckHere(s, l, c);
    } else if p[c.ni] == '#' {
      HashRestart(s, l, c);
    } else if Behind(p, c.ni) {
      GlidesOn(s, l, p, c);
      if c.j < |s| {
        HashRestart(s, l, c);
      } else {
        NothingLeft(s, l, c);
      }
    } else {
      TameIsTame(l, p, c.ni);
      TameRestart(s, l, c);
    }
  }

  lemma TameIsTame(l: string, p: string, k: nat)
    requires Loosens(l, p) && Simple(p) && k < |p| && Tame(p, k)
    ensures Tame(l, k)
  {
  }

  /** On smooth patterns the loop decides the loosened pattern. */
  lemma {:induction false} LoopDecidesLoosened(s: string, l: string, p: string, c: Cursor)
    requires Loosens(l, p) && Smooth(p) && Simple(l) && Attempt(s, l, c) && InRange(s, p, c)
    ensures MatchFrom(s, p, c) == Pending(s, l, c)
    decreases |s| + 2 - (if Restarted(c) then c.nj + 1 else c.nj), |p| - c.i
  {
    hide Pending, Fits, Simple, Smooth;
    assert c.i < |p| ==> l[c.i] == LooseAt(p, c.i);
    if c.i == |p| && c.j == |s| {
      EndReached(s, l, c);
    } else if SameChar(s, p, c) {
      OneCharacter(s, l, c);
      LoopDecidesLoosened(s, l, p, c.(i := c.i + 1, j := c.j + 1));
    } else if c.i < |p| && Wild(p[c.i]) {
      NextWildcard(s, l, p, c);
      LoopDecidesLoosened(s, l, p, Cursor(c.i + 1, c.j, c.i, c.j + 1));
    } else {
      RestartDecides(s, l, p, c);
      if CanRestart(s, p, c) {
        LoopDecidesLoosened(s, l, p, c.(i := c.ni, j := c.nj));
      }
    }
  }

  // --------------------------------------------------------------- tightening again

  function Slashes(s: string): nat {
    if s == "" then 0 else (if s[0] == '/' then 1 else 0) + Slashes(s[1..])
  }

  lemma {:induction false} SlashesAppend(s: string, u: string)
    ensures Slashes(s + u) == Slashes(s) + Slashes(u)
    decreases |s|
  {
    if s == "" {
      assert s + u == u;
    } else {
      assert (s + u)[1..] == s[1..] + u;
      SlashesAppend(s[1..], u);
    }
  }

  lemma {:induction false} NoSlashes(s: string)
    requires '/' !in s
    ensures Slashes(s) == 0
    decreases |s|
  {
    if s != "" {
      NoSlashes(s[1..]);
    }
  }

  /** What a part accepts more, the whole accepts more. */
  lemma {:induction false} InContext(before: string, u: string, v: string, s: string)
    requires forall x :: Glob(u, x) ==> Glob(v, x)
    ensures Glob(before + u, s) ==> Glob(before + v, s)
    decreases |before|
  {
    if before == "" {
      assert before + u == u && before + v == v;
    } else if Glob(before + u, s) {
      assert (before + u)[1..] == before[1..] + u && (before + v)[1..] == before[1..] + v;
      if before[0] == '#' {
        var k :| 0 <= k <= |s| && Glob((before + u)[1..], s[k..]);
        InContext(before[1..], u, v, s[k..]);
      } else if before[0] == '*' {
        var k :| 0 <= k <= |s| && '/' !in s[..k] && Glob((before + u)[1..], s[k..]);
        InContext(before[1..], u, v, s[k..]);
      } else {
        InContext(before[1..], u, v, s[1..]);
      }
    }
  }

  /** Up to the next `#`, or to a slash in front of it, a `*` gets as far as a `#`. */
  lemma StarReaches(x: string, s: string)
    requires (x != "" && x[0] == '#') || (|x| > 1 && x[0] == '/' && x[1] == '#')
    requires Glob("#" + x, s)
    ensures Glob("*" + x, s)
  {
    hide Glob;
    assert ("#" + x)[1..] == x && ("*" + x)[1..] == x && s[0..] == s;
    var k := HashElim("#" + x, s, 0);
    if x[0] == '#' {
      HashAbsorbs(x, s, 0, k);
      StarIntro("*" + x, s, 0, 0);
    } else {
      SlashHead(x, s[k..]);
      var f := FirstSlash(s);
      assert s[k..][1..] == s[k + 1..];
      assert s[k] == '/';
      HashAbsorbs(x[1..], s, f + 1, k + 1);
      assert s[f..][1..] == s[f + 1..];
      SlashHeadIntro(x, s[f..]);
      StarIntro("*" + x, s, 0, f);
    }
  }

  lemma SlashHead(x: string, s: string)
    requires x != "" && x[0] == '/' && Glob(x, s)
    ensures s != "" && s[0] == '/' && Glob(x[1..], s[1..])
  {
  }

  lemma SlashHeadIntro(x: string, s: string)
    requires x != "" && x[0] == '/' && s != "" && s[0] == '/' && Glob(x[1..], s[1..])
    ensures Glob(x, s)
  {
  }

  lemma {:induction false} FirstSlash(s: string) returns (f: nat)
    requires '/' in s
    ensures f < |s| && s[f] == '/' && forall x :: 0 <= x < f ==> s[x] != '/'
    decreases |s|
  {
    if s[0] == '/' {
      f := 0;
    } else {
      f := FirstSlash(s[1..]);
      f := f + 1;
    }
  }

  lemma TakenTogether(s: string, k: nat, q: nat)
    requires k + q <= |s|
    ensures s[k..][q..] == s[k + q..] && Slashes(s[..k + q]) == Slashes(s[..k]) + Slashes(s[k..][..q])
  {
    assert s[..k + q] == s[..k] + s[k..][..q];
    SlashesAppend(s[..k], s[k..][..q]);
  }

  /** The first `n` characters of a text are what the element `c` of a pattern may take. */
  predicate Takes(c: char, s: string, n: nat)
    requires n <= |s|
  {
    if c == '#' then true
    else if c == '*' then '/' !in s[..n]
    else n == 1 && (c == '?' || c == s[0])
  }

  lemma FirstTakes(p: string, s: string) returns (k: nat)
    requires p != "" && Glob(p, s)
    ensures k <= |s| && Takes(p[0], s, k) && Glob(p[1..], s[k..])
  {
    if p[0] == '*' {
      k :| 0 <= k <= |s| && '/' !in s[..k] && Glob(p[1..], s[k..]);
    } else if p[0] == '#' {
      k :| 0 <= k <= |s| && Glob(p[1..], s[k..]);
    } else {
      k := 1;
    }
  }

  lemma FirstGives(p: string, s: string, k: nat)
    requires p != "" && k <= |s| && Takes(p[0], s, k) && Glob(p[1..], s[k..])
    ensures Glob(p, s)
  {
  }

  lemma SlashesTaken(c: char, s: string, k: nat)
    requires k <= |s| && Takes(c, s, k)
    ensures c == '/' ==> Slashes(s[..k]) == 1
    ensures c != '/' && c != '#' && c != '?' ==> Slashes(s[..k]) == 0
  {
    if c == '*' {
      NoSlashes(s[..k]);
    } else if c != '#' {
      assert s[..k] == [s[0]] && [s[0]][1..] == "";
    }
  }

  /** What stands in front of a `#` has found its slashes by then. */
  lemma {:induction false} SlashesFound(b: string, x: string, s: string) returns (q: nat)
    requires Glob(b + "#" + x, s)
    ensures q <= |s| && Glob(x, s[q..]) && Slashes(s[..q]) >= Slashes(b)
    decreases |b|
  {
    hide Glob;
    if b == "" {
      assert b + "#" + x == "#" + x && ("#" + x)[1..] == x && s[0..] == s;
      q := HashElim("#" + x, s, 0);
    } else {
      assert (b + "#" + x)[1..] == b[1..] + "#" + x;
      var k := FirstTakes(b + "#" + x, s);
      SlashesTaken(b[0], s, k);
      var q' := SlashesFound(b[1..], x, s[k..]);
      TakenTogether(s, k, q');
      q := k + q';
    }
  }

  lemma {:induction false} LastSlash(s: string) returns (b: nat)
    requires Slashes(s) > 0
    ensures b < |s| && s[b] == '/' && (forall x :: b < x < |s| ==> s[x] != '/') && Slashes(s[..b]) == Slashes(s) - 1
    decreases |s|
  {
    var s0, c := s[..|s| - 1], s[|s| - 1];
    assert s == s0 + [c] && [c][1..] == "";
    SlashesAppend(s0, [c]);
    if c == '/' {
      b := |s| - 1;
    } else {
      b := LastSlash(s0);
      assert s0[..b] == s[..b];
    }
  }

  /** Stars, and slashes with stars in between. */
  predicate Lone(b: string) {
    b != "" ==>
      var b0, c := b[..|b| - 1], b[|b| - 1];
      Lone(b0) && (c == '*' || (c == '/' && (b0 != "" ==> b0[|b0| - 1] == '*')))
  }

  /** Between `#` and `x`, stars and lone slashes find room as soon as there are slashes enough:
      they take the last ones. */
  lemma {:induction false} LastSlashesWillDo(b: string, x: string, s: string, q: nat)
    requires Lone(b)
    requires b != "" && b[|b| - 1] == '/' ==> x != "" && x[0] == '*'
    requires q <= |s| && Glob(x, s[q..]) && Slashes(s[..q]) >= Slashes(b)
    ensures Glob("#" + b + x, s)
    decreases |b|
  {
    hide Glob;
    if b == "" {
      assert "#" + b + x == "#" + x && ("#" + x)[1..] == x && s[0..] == s;
      HashIntro("#" + x, s, 0, q);
    } else {
      var b0, c := b[..|b| - 1], b[|b| - 1];
      assert b == b0 + [c] && [c][1..] == "";
      SlashesAppend(b0, [c]);
      assert "#" + b + x == "#" + b0 + ([c] + x) && ([c] + x)[1..] == x;
      if c == '*' {
        StarIntro([c] + x, s, q, 0);
        LastSlashesWillDo(b0, [c] + x, s, q);
      } else {
        var f := LastSlash(s[..q]);
        assert s[..q][..f] == s[..f];
        var k := StarElim(x, s, q);
        assert forall y :: f < y < q ==> s[..q][y] == s[y];
        StarIntro(x, s, f + 1, q + k - f - 1);
        assert s[f..][1..] == s[f + 1..];
        SlashHeadIntro([c] + x, s[f..]);
        LastSlashesWillDo(b0, [c] + x, s, f);
      }
    }
  }

  lemma LoneSlashes(b: string, x: string, s: string)
    requires Lone(b)
    requires Glob("#" + b + "#" + x, s)
    ensures Glob("#" + b + "*" + x, s)
  {
    hide Glob;
    assert ("#" + b)[1..] == b;
    var q := SlashesFound("#" + b, x, s);
    assert ("*" + x)[1..] == x;
    StarIntro("*" + x, s, q, 0);
    LastSlashesWillDo(b, "*" + x, s, q);
    assert "#" + b + ("*" + x) == "#" + b + "*" + x;
  }

  /** The star at `k` may be tightened, all stars behind it being loosened. */
  lemma TightenOne(p: string, l: string, k: nat, s: string)
    requires Loosens(l, p) && k < |p| && p[k] == '*' && Behind(p, k) && Sound(p, k)
    requires Glob(p[..k] + "#" + l[k + 1..], s)
    ensures Glob(p[..k] + "*" + l[k + 1..], s)
  {
    hide Glob, Steps;
    var x, n := l[k + 1..], SlashRun(p, k + 1);
    LooseBehind(p, l, k);
    if n <= 1 {
      TightenNear(p[..k], x, s);
    } else {
      var g := LastHash(p, k);
      StepsAreLone(p, g, k);
      assert p[..k] == p[..g] + "#" + p[g + 1..k];
      TightenFar(p[..g], p[g + 1..k], x, s);
    }
  }

  lemma TightenNear(a: string, x: string, s: string)
    requires (x != "" && x[0] == '#') || (|x| > 1 && x[0] == '/' && x[1] == '#')
    requires Glob(a + "#" + x, s)
    ensures Glob(a + "*" + x, s)
  {
    hide Glob;
    forall u | Glob("#" + x, u)
      ensures Glob("*" + x, u)
    {
      StarReaches(x, u);
    }
    InContext(a, "#" + x, "*" + x, s);
    assert a + "#" + x == a + ("#" + x) && a + "*" + x == a + ("*" + x);
  }

  lemma TightenFar(a: string, b: string, x: string, s: string)
    requires Lone(b) && Glob(a + "#" + b + "#" + x, s)
    ensures Glob(a + "#" + b + "*" + x, s)
  {
    hide Glob, Lone;
    var v, w := "#" + b + "#" + x, "#" + b + "*" + x;
    forall u | Glob(v, u)
      ensures Glob(w, u)
    {
      LoneSlashes(b, x, u);
    }
    InContext(a, v, w, s);
    assert a + "#" + b + "#" + x == a + v && a + "#" + b + "*" + x == a + w;
  }

  lemma {:induction false} StepsAreLone(p: string, g: nat, k: nat)
    requires g < k <= |p| && Steps(p, g + 1, k) && forall x :: g < x < k ==> p[x] != '#'
    ensures Lone(p[g + 1..k])
    decreases k
  {
    if g + 1 < k {
      StepsAreLone(p, g, k - 1);
      var b := p[g + 1..k];
      assert b[..|b| - 1] == p[g + 1..k - 1];
      assert StepAt(p, k - 1);
    }
  }

  lemma LooseKeeps(p: string, l: string, k: nat)
    requires Loosens(l, p) && k < |p|
    ensures p[k] != '*' ==> l[k] == p[k]
    ensures Wild(p[k]) && Behind(p, k) ==> l[k] == '#'
  {
  }

  lemma LooseBehind(p: string, l: string, k: nat)
    requires Loosens(l, p) && k < |p| && Behind(p, k) && Gliding(p, k)
    ensures var x, n := l[k + 1..], SlashRun(p, k + 1);
            n < |x| && x[n] == '#' && forall i :: 0 <= i < n ==> x[i] == '/'
  {
    var n, x, g := SlashRun(p, k + 1), l[k + 1..], LastHash(p, k);
    assert Behind(p, k + 1 + n);
    LooseKeeps(p, l, k + 1 + n);
    forall i | 0 <= i < n
      ensures x[i] == '/'
    {
      LooseKeeps(p, l, k + 1 + i);
    }
  }

  lemma {:induction false} Tighten(p: string, l: string, k: nat, s: string)
    requires Loosens(l, p) && Clear(p) && k <= |p| && Glob(p[..k] + l[k..], s)
    ensures Glob(p, s)
    decreases |p| - k
  {
    hide Glob;
    if k == |p| {
      assert p[..k] + l[k..] == p;
    } else {
      assert l[k..] == [l[k]] + l[k + 1..] && p[..k + 1] == p[..k] + [p[k]];
      assert l[k] == LooseAt(p, k);
      assert p[..k] + l[k..] == p[..k] + [l[k]] + l[k + 1..];
      if l[k] != p[k] {
        TightenOne(p, l, k, s);
      }
      Tighten(p, l, k + 1, s);
    }
  }

  lemma {:induction false} LooserAccepts(p: string, l: string, s: string)
    requires |l| == |p| && forall k :: 0 <= k < |p| ==> l[k] == p[k] || (p[k] == '*' && l[k] == '#')
    requires Glob(p, s)
    ensures Glob(l, s)
    decreases |p|
  {
    if p != "" {
      if p[0] == '*' {
        var k :| 0 <= k <= |s| && '/' !in s[..k] && Glob(p[1..], s[k..]);
        LooserAccepts(p[1..], l[1..], s[k..]);
      } else if p[0] == '#' {
        var k :| 0 <= k <= |s| && Glob(p[1..], s[k..]);
        LooserAccepts(p[1..], l[1..], s[k..]);
      } else {
        LooserAccepts(p[1..], l[1..], s[1..]);
      }
    }
  }

  // ------------------------------------------------------------ where it is exact

  function Loosened(p: string): (l: string)
    ensures Loosens(l, p)
  {
    seq(|p|, k requires 0 <= k < |p| => LooseAt(p, k))
  }

  /** A pattern all of whose stars are sound means what is documented, on every text. */
  lemma ClearIsExact(s: string, p: string)
    requires Simple(p) && Clear(p)
    ensures MgMatch(s, p) == Glob(p, s)
  {
    hide Glob;
    var l := Loosened(p);
    assert Simple(l) && Smooth(p);
    LoopDecidesLoosened(s, l, p, Cursor(0, 0, 0, 0));
    assert l[0..] == l && s[0..] == s && p[..0] + l[0..] == l;
    if Glob(l, s) {
      Tighten(p, l, 0, s);
    }
    if Glob(p, s) {
      LooserAccepts(p, l, s);
    }
  }

  /** So every pattern with a `*` that the web API uses means what is documented. */
  lemma OwnPatternsAreExact(s: string, p: string)
    requires p in {"/api/*/*/*", "/api/*/*", "/api/*/#", "*/*"}
    ensures MgMatch(s, p) == Glob(p, s)
  {
    hide MgMatch, Glob;
    forall k | 0 <= k < |p| && p[k] == '*'
      ensures Sound(p, k)
    {
      assert k + 1 < |p| ==> WildAt(p, k + 2);
    }
    ClearIsExact(s, p);
  }
}
