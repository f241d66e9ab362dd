/**
 Where patterns of literals, `*` and `#` go wrong: for each star that is not sound a text on
 which the matcher contradicts the documentation. So the sound stars are exactly what makes a
 pattern mean what is documented.
 */
module StarFaults {
  import opened Matching = Glob
  import opened Stars

  /** The pattern without its wildcards: the text in which they all match nothing. */
  function Flat(p: string): (f: string)
    ensures |f| <= |p|
  {
    if p == "" then "" else if Wild(p[0]) then Flat(p[1..]) else [p[0]] + Flat(p[1..])
  }

  lemma {:induction false} FlatAppend(a: string, b: string)
    ensures Flat(a + b) == Flat(a) + Flat(b)
    decreases |a|
  {
    if a == "" {
      assert a + b == b;
    } else {
      assert (a + b)[1..] == a[1..] + b;
      FlatAppend(a[1..], b);
    }
  }

  lemma {:induction false} FlatSlashes(n: nat)
    ensures Flat(SlashesOf(n)) == SlashesOf(n) && Slashes(SlashesOf(n)) == n
    decreases n
  {
    if n > 0 {
      FlatSlashes(n - 1);
      assert SlashesOf(n)[1..] == SlashesOf(n - 1);
    }
  }

  /** `n` slashes. */
  function SlashesOf(n: nat): (r: string)
    ensures |r| == n && forall i :: 0 <= i < n ==> r[i] == '/'
  {
    if n == 0 then "" else "/" + SlashesOf(n - 1)
  }

  // ------------------------------------------------------------- what matches what

  /** A match splits where the pattern does. */
  lemma {:induction false} GlobSplits(a: string, b: string, s: string) returns (k: nat)
    requires Glob(a + b, s)
    ensures k <= |s| && Glob(a, s[..k]) && Glob(b, s[k..])
    decreases |a|
  {
    hide Glob, Takes;
    if a == "" {
      EmptyTakesNone(b, s);
      k := 0;
    } else {
      HeadOf(a, b);
      var n := FirstTakes(a + b, s);
      var k' := GlobSplits(a[1..], b, s[n..]);
      HeadTakes(a, s, n, k');
      TakenTogether(s, n, k');
      k := n + k';
    }
  }

  lemma HeadOf(a: string, b: string)
    requires a != ""
    ensures (a + b)[0] == a[0] && (a + b)[1..] == a[1..] + b
  {
  }

  lemma HeadTakes(a: string, s: string, n: nat, k: nat)
    requires a != "" && n + k <= |s| && Takes(a[0], s, n) && Glob(a[1..], s[n..][..k])
    ensures Glob(a, s[..n + k])
  {
    hide Glob;
    assert s[..n + k][n..] == s[n..][..k];
    TakesFrom(a[0], s, n, n + k);
    FirstGives(a, s[..n + k], n);
  }

  lemma EmptyTakesNone(b: string, s: string)
    requires Glob("" + b, s)
    ensures Glob("", s[..0]) && Glob(b, s[0..])
  {
    assert "" + b == b && s[0..] == s;
  }

  lemma TakesFrom(c: char, s: string, n: nat, k: nat)
    requires n <= k <= |s| && Takes(c, s, n)
    ensures Takes(c, s[..k], n)
  {
    assert s[..k][..n] == s[..n];
  }

  /** A text is at least as long as the literals of a pattern that it matches. */
  lemma {:induction false} GlobIsLong(p: string, s: string)
    requires Glob(p, s)
    ensures |s| >= |Flat(p)|
    decreases |p|
  {
    hide Glob;
    if p != "" {
      var n := FirstTakes(p, s);
      GlobIsLong(p[1..], s[n..]);
    }
  }

  /** Stars match no slash, so without a `#` a text that matches has as many as the pattern. */
  lemma {:induction false} StarsKeepSlashes(p: string, s: string)
    requires '#' !in p && Simple(p) && Glob(p, s)
    ensures Slashes(s) == Slashes(Flat(p))
    decreases |p|
  {
    if p != "" {
      hide Glob, Takes;
      var n := FirstTakes(p, s);
      StarsKeepSlashes(p[1..], s[n..]);
      TakenTogether(s, n, |s| - n);
      assert s[..n + (|s| - n)] == s && s[n..][..|s| - n] == s[n..];
      SlashesTaken(p[0], s, n);
      assert !Wild(p[0]) ==> Flat(p)[1..] == Flat(p[1..]);
    } else {
      EmptyIsAlone(s);
    }
  }

  lemma EmptyIsAlone(s: string)
    requires Glob("", s)
    ensures s == ""
  {
  }

  /** A text that ends in front of, or behind, a literal of the pattern. */
  lemma {:induction false} LastLiteral(a: string, c: char, s: string)
    requires !Wild(c) && c != '?' && Glob(a + [c], s)
    ensures s != "" && s[|s| - 1] == c && Glob(a, s[..|s| - 1])
  {
    var k := GlobSplits(a, [c], s);
    assert [c][1..] == "";
    assert s[k..][1..] == "";
    assert k == |s| - 1;
  }

  /** A flat start of a text is taken by a pattern whose rest matches the rest. */
  lemma {:induction false} FlatGlob(a: string, b: string, s: string)
    requires Glob(b, s) && Simple(a)
    ensures Glob(a + b, Flat(a) + s)
    decreases |a|
  {
    hide Glob;
    var u := Flat(a) + s;
    if a == "" {
      assert a + b == b && u == s;
    } else {
      HeadOf(a, b);
      FlatGlob(a[1..], b, s);
      var n := if Wild(a[0]) then 0 else 1;
      assert u[n..] == Flat(a[1..]) + s;
      FirstGives(a + b, u, n);
    }
  }

  // ----------------------------------------------------------- what the matcher does

  lemma WildTurn(s: string, p: string, c: Cursor)
    requires InRange(s, p, c) && WildAt(p, c.i)
    ensures var d := Cursor(c.i + 1, c.j, c.i, c.j + 1); InRange(s, p, d) && MatchFrom(s, p, c) == MatchFrom(s, p, d)
  {
  }

  lemma CharTurn(s: string, p: string, c: Cursor)
    requires InRange(s, p, c) && SameChar(s, p, c)
    ensures var d := c.(i := c.i + 1, j := c.j + 1); InRange(s, p, d) && MatchFrom(s, p, c) == MatchFrom(s, p, d)
  {
  }

  /** A star is moved on past a mismatch that is no slash. */
  lemma StarRestarts(s: string, p: string, c: Cursor)
    requires InRange(s, p, c) && Stuck(s, p, c) && 0 < c.nj <= |s| && p[c.ni] == '*' && c.j < |s| && s[c.j] != '/'
    ensures var d := Cursor(c.ni + 1, c.nj, c.ni, c.nj + 1); InRange(s, p, d) && MatchFrom(s, p, c) == MatchFrom(s, p, d)
  {
    var e := c.(i := c.ni, j := c.nj);
    assert MatchFrom(s, p, c) == MatchFrom(s, p, e);
    WildTurn(s, p, e);
  }

  /** A text that goes on with the flat pattern is matched without any restart. */
  lemma {:induction false} FlatMatches(s: string, p: string, c: Cursor)
    requires InRange(s, p, c) && s[c.j..] == Flat(p[c.i..])
    ensures MatchFrom(s, p, c)
    decreases |p| - c.i
  {
    hide MatchFrom;
    if c.i < |p| {
      assert p[c.i..][1..] == p[c.i + 1..];
      if Wild(p[c.i]) {
        WildTurn(s, p, c);
        FlatMatches(s, p, Cursor(c.i + 1, c.j, c.i, c.j + 1));
      } else {
        assert s[c.j..][0] == s[c.j] && s[c.j..][1..] == s[c.j + 1..];
        CharTurn(s, p, c);
        FlatMatches(s, p, c.(i := c.i + 1, j := c.j + 1));
      }
    } else {
      Ends(s, p, c);
    }
  }

  lemma Ends(s: string, p: string, c: Cursor)
    requires InRange(s, p, c) && c.i == |p| && c.j == |s|
    ensures MatchFrom(s, p, c)
  {
  }

  /** Up to the star at `i`, too. */
  lemma {:induction false} FlatReaches(s: string, p: string, c: Cursor, i: nat)
    requires InRange(s, p, c) && c.i <= i < |p| && p[i] == '*'
    requires Flat(p[c.i..i]) <= s[c.j..]
    ensures var b := c.j + |Flat(p[c.i..i])|;
            b <= |s| && MatchFrom(s, p, c) == MatchFrom(s, p, Cursor(i + 1, b, i, b + 1))
    decreases i - c.i
  {
    hide MatchFrom;
    if c.i == i {
      WildTurn(s, p, c);
    } else {
      assert p[c.i..i][1..] == p[c.i + 1..i];
      if Wild(p[c.i]) {
        WildTurn(s, p, c);
        FlatReaches(s, p, Cursor(c.i + 1, c.j, c.i, c.j + 1), i);
      } else {
        assert s[c.j..][0] == s[c.j] && s[c.j..][1..] == s[c.j + 1..];
        CharTurn(s, p, c);
        FlatReaches(s, p, c.(i := c.i + 1, j := c.j + 1), i);
      }
    }
  }

  /** From the start to the star at `i`. */
  lemma ReachesStar(s: string, p: string, i: nat)
    requires i < |p| && p[i] == '*' && Flat(p[..i]) <= s
    ensures var b := |Flat(p[..i])|; MgMatch(s, p) == MatchFrom(s, p, Cursor(i + 1, b, i, b + 1))
  {
    assert p[0..i] == p[..i] && s[0..] == s;
    FlatReaches(s, p, Cursor(0, 0, 0, 0), i);
    hide MatchFrom;
  }

  /** A character that is neither a slash nor one of two others. */
  function Odd(x: char, y: char): (z: char)
    ensures z != '/' && z != x && z != y
  {
    if x != 'a' && y != 'a' then 'a' else if x != 'b' && y != 'b' then 'b' else 'c'
  }

  function CharOr(p: string, i: nat): char {
    if i < |p| then p[i] else '/'
  }

  /** At a slash, a star with `/` and something else but a wildcard behind it takes the slash
      for the start of the literal, gives it up with the odd character, and has passed both. */
  lemma TwoRestarts(s: string, p: string, i: nat, b: nat)
    requires i + 1 < |p| && p[i] == '*' && p[i + 1] == '/' && b + 2 <= |s| && Simple(p) && !WildAt(p, i + 2)
    requires s[b] == '/' && s[b + 1] != '/' && (i + 2 < |p| ==> s[b + 1] != p[i + 2])
    ensures MatchFrom(s, p, Cursor(i + 1, b, i, b + 1)) == MatchFrom(s, p, Cursor(i + 1, b + 2, i, b + 3))
  {
    hide MatchFrom;
    CharTurn(s, p, Cursor(i + 1, b, i, b + 1));
    StarRestarts(s, p, Cursor(i + 2, b + 1, i, b + 1));
    StarRestarts(s, p, Cursor(i + 1, b + 1, i, b + 2));
  }

  // ------------------------------------------------------- a star that is not tame

  /** The flat pattern with a slash and an odd character in front of the literal behind the star. */
  function Swallowing(p: string, i: nat): string
    requires i < |p|
  {
    Flat(p[..i]) + ("/" + [Odd(CharOr(p, i + 2), 'x')] + Flat(p[i + 1..]))
  }

  /** A `*` with no `#` before it, and a slash behind it that no wildcard follows. */
  predicate NotTame(p: string, i: nat) {
    i < |p| && p[i] == '*' && Simple(p) && !Behind(p, i) && !Tame(p, i)
  }

  lemma SwallowingIsAccepted(p: string, i: nat)
    requires NotTame(p, i)
    ensures MgMatch(Swallowing(p, i), p)
  {
    hide MatchFrom, Flat;
    var s, b := Swallowing(p, i), |Flat(p[..i])|;
    var rest := "/" + [Odd(CharOr(p, i + 2), 'x')] + Flat(p[i + 1..]);
    ReachesStar(s, p, i);
    assert s[b..] == rest && s[b] == rest[0] && s[b + 1] == rest[1];
    assert s[b + 2..] == rest[2..] == Flat(p[i + 1..]);
    TwoRestarts(s, p, i, b);
    FlatMatches(s, p, Cursor(i + 1, b + 2, i, b + 3));
  }

  /** Up to the star the text can only be matched flat, and then the odd character is in the way. */
  lemma SwallowingDoesNotMatch(p: string, i: nat)
    requires NotTame(p, i)
    ensures !Glob(p, Swallowing(p, i))
  {
    hide Glob;
    var s, f, z := Swallowing(p, i), Flat(p[..i]), Odd(CharOr(p, i + 2), 'x');
    var a, r := p[..i + 1], p[i + 1..];
    assert p == a + r && a == p[..i] + "*";
    FlatAppend(p[..i], "*");
    assert "*"[1..] == "" && Flat("*") == "" && f + "" == f && "/"[1..] == "";
    if Glob(p, s) {
      var k := GlobSplits(a, r, s);
      GlobIsLong(a, s[..k]);
      if k > |f| {
        NoHashBefore(p, i);
        StarsKeepSlashes(a, s[..k]);
        assert s[..k] == f + "/" + s[|f| + 1..k];
        SlashesAppend(f, "/");
        SlashesAppend(f + "/", s[|f| + 1..k]);
      } else {
        var t := s[k..];
        assert t == "/" + [z] + Flat(r);
        OddInTheWay(r, t);
      }
    }
  }

  lemma NoHashBefore(p: string, i: nat)
    requires NotTame(p, i)
    ensures '#' !in p[..i + 1] && Simple(p[..i + 1])
  {
  }

  lemma OddInTheWay(r: string, t: string)
    requires r != "" && r[0] == '/' && |t| > 1 && (|r| > 1 ==> !Wild(r[1]) && r[1] != '?' && r[1] != t[1])
    ensures !Glob(r, t)
  {
    assert |r| > 1 ==> r[1..][0] == r[1];
    assert t[1..][0] == t[1];
  }

  // --------------------------------------------------- a star behind a `#` that gets stuck

  predicate GetsStuck(p: string, k: nat) {
    k < |p| && p[k] == '*' && Simple(p) && Behind(p, k) && !Gliding(p, k)
  }

  /** The flat pattern up to the star, as many slashes as are behind it and one more, and the
      flat pattern again from the `#` on. */
  function Sticking(p: string, k: nat): string
    requires GetsStuck(p, k)
  {
    Flat(p[..k]) + SlashesOf(SlashRun(p, k + 1) + 1) + Flat(p[LastHash(p, k)..])
  }

  predicate AllSlashes(s: string, from: nat, to: nat)
    requires to <= |s|
  {
    forall x :: from <= x < to ==> s[x] == '/'
  }

  lemma {:induction false} SlashesPass(s: string, p: string, c: Cursor, n: nat)
    requires InRange(s, p, c) && c.i + n <= |p| && c.j + n <= |s| && !Restarted(c)
    requires AllSlashes(p, c.i, c.i + n) && AllSlashes(s, c.j, c.j + n)
    ensures var d := c.(i := c.i + n, j := c.j + n); InRange(s, p, d) && MatchFrom(s, p, c) == MatchFrom(s, p, d)
    decreases n
  {
    hide MatchFrom;
    if n > 0 {
      assert p[c.i] == '/' && s[c.j] == '/';
      CharTurn(s, p, c);
      SlashesPass(s, p, c.(i := c.i + 1, j := c.j + 1), n - 1);
    }
  }

  lemma StickingIsRefused(p: string, k: nat)
    requires GetsStuck(p, k)
    ensures !MgMatch(Sticking(p, k), p)
  {
    hide MatchFrom, Flat;
    var s, b, n := Sticking(p, k), |Flat(p[..k])|, SlashRun(p, k + 1);
    ReachesStar(s, p, k);
    forall x | b <= x < b + n + 1
      ensures s[x] == '/'
    {
      assert s[x] == SlashesOf(n + 1)[x - b];
    }
    SlashesPass(s, p, Cursor(k + 1, b, k, b + 1), n);
    StuckAtSlash(s, p, Cursor(k + 1 + n, b + n, k, b + 1));
  }

  lemma StuckAtSlash(s: string, p: string, c: Cursor)
    requires InRange(s, p, c) && Stuck(s, p, c) && c.nj > 0 && p[c.ni] == '*' && c.j < |s| && s[c.j] == '/'
    ensures !MatchFrom(s, p, c)
  {
  }

  /** The `#` takes all that comes before the pattern is repeated. */
  lemma StickingMatches(p: string, k: nat)
    requires GetsStuck(p, k)
    ensures Glob(p, Sticking(p, k))
  {
    hide Glob, Flat;
    var g, n := LastHash(p, k), SlashRun(p, k + 1);
    var a, h := p[..g], p[g..];
    assert p == a + h && p[..k] == a + p[g..k];
    FlatAppend(a, p[g..k]);
    var skipped := Flat(p[g..k]) + SlashesOf(n + 1);
    HashSkips(h, skipped);
    FlatGlob(a, h, skipped + Flat(h));
    assert Sticking(p, k) == Flat(a) + (skipped + Flat(h));
  }

  lemma HashSkips(h: string, skipped: string)
    requires h != "" && h[0] == '#' && Simple(h)
    ensures Glob(h, skipped + Flat(h))
  {
    var r, t := h[1..], skipped + Flat(h);
    GlobEmpty();
    FlatGlob(r, "", "");
    hide Glob;
    assert r + "" == r && Flat(r) + "" == Flat(r) && Flat(h) == Flat(r);
    assert t[|skipped|..] == Flat(h) && t[0..] == t;
    HashIntro(h, t, 0, |skipped|);
  }

  lemma GlobEmpty()
    ensures Glob("", "")
  {
  }

  // ------------------------------------------- a star behind a `#` that should stop at a slash

  /** A `*` behind a `#`, with two slashes behind it and a character before it that is neither
      a star nor a slash right behind a wildcard. */
  predicate Overruns(p: string, k: nat) {
    && k < |p| && p[k] == '*' && Simple(p) && Behind(p, k) && Gliding(p, k)
    && SlashRun(p, k + 1) >= 2 && !Steps(p, LastHash(p, k) + 1, k)
  }

  /** The last such character. */
  lemma {:induction false} LastOffence(p: string, from: nat, k: nat) returns (e: nat)
    requires k <= |p| && from <= k && !Steps(p, from, k)
    ensures from <= e < k && !StepAt(p, e) && Steps(p, e + 1, k)
    decreases k
  {
    if StepAt(p, k - 1) {
      e := LastOffence(p, from, k - 1);
    } else {
      e := k - 1;
    }
  }

  /** The last star of the run of stars that starts at `from`. */
  lemma {:induction false} LastStar(p: string, from: nat, k: nat) returns (a: nat)
    requires from <= k < |p| && p[k] == '*' && p[from] == '*' && p[k + 1..] != "" && p[k + 1] == '/'
    requires Steps(p, from, k)
    ensures from <= a <= k && p[a] == '*' && p[a + 1] == '/' && forall x :: from <= x <= a ==> p[x] == '*'
    decreases k - from
  {
    if from == k || p[from + 1] != '*' {
      a := from;
      if from < k {
        assert StepAt(p, from + 1);
      }
    } else {
      assert from + 1 < k ==> StepAt(p, from + 1);
      a := LastStar(p, from + 1, k);
    }
  }

  lemma {:induction false} FlatStars(p: string, from: nat, to: nat)
    requires from <= to <= |p|
    requires forall x :: from <= x < to ==> p[x] == '*'
    ensures Flat(p[from..to]) == ""
    decreases |p| - from
  {
    if from < to {
      assert p[from..to][1..] == p[from + 1..to];
      FlatStars(p, from + 1, to);
    }
  }

  /** Stars and lone slashes are flat slashes. */
  lemma {:induction false} FlatSteps(p: string, from: nat, to: nat)
    requires from <= to <= |p| && Steps(p, from, to)
    ensures Flat(p[from..to]) == SlashesOf(|Flat(p[from..to])|)
    decreases |p| - from
  {
    if from < to {
      assert StepAt(p, from);
      assert p[from..to][1..] == p[from + 1..to];
      FlatSteps(p, from + 1, to);
    }
  }

  /** An offence at `e`, the steps `p[e + 1..k + 1]` behind it with `r` slashes, and the rest,
      which begins with two. */
  predicate Parts(p: string, e: nat, k: nat, r: nat) {
    && e < k && k + 2 < |p| && Simple(p) && p[e + 1] == '*' == p[k] && p[k + 1] == '/' == p[k + 2]
    && !Wild(p[e]) && (p[e] == '/' ==> e > 0 && !Wild(p[e - 1]))
    && Steps(p, e + 1, k) && '#' !in p[e + 1..k + 1] && Flat(p[e + 1..k + 1]) == SlashesOf(r)
  }

  lemma PartsOf(p: string, k: nat) returns (e: nat, r: nat)
    requires Overruns(p, k)
    ensures Parts(p, e, k, r)
  {
    var g := LastHash(p, k);
    e := LastOffence(p, g + 1, k);
    assert e + 1 < k ==> StepAt(p, e + 1);
    assert p[k + 1] == '/' && p[k + 1 + 1] == '/';
    assert StepAt(p, k);
    FlatSteps(p, e + 1, k + 1);
    r := |Flat(p[e + 1..k + 1])|;
  }

  function OddAt(p: string, e: nat): char
    requires e < |p|
  {
    Odd(p[e], if e > 0 then p[e - 1] else 'x')
  }

  /** One slash more than the steps have, between odd characters. */
  function Between(z: char, r: nat): (w: string)
    ensures |w| == r + 3
  {
    [z] + SlashesOf(r + 1) + [z]
  }

  function Overrunning(p: string, e: nat, k: nat, r: nat): string
    requires e < k < |p|
  {
    Flat(p[..e + 1]) + Between(OddAt(p, e), r) + Flat(p[k + 1..])
  }

  lemma SliceFlat(p: string, i: nat, j: nat, k: nat)
    requires i <= j <= k <= |p|
    ensures Flat(p[i..k]) == Flat(p[i..j]) + Flat(p[j..k])
  {
    assert p[i..k] == p[i..j] + p[j..k];
    FlatAppend(p[i..j], p[j..k]);
  }

  /** The matcher drops the first odd character and takes the steps as they come. */
  lemma StepsAreTaken(s: string, p: string, a: nat, b: nat, k: nat, r: nat)
    requires a <= k && k + 1 < |p| && p[a] == '*' == p[k] && p[a + 1] == '/'
    requires b + 1 + r <= |s| && s[b] != '/' && SlashesOf(r) <= s[b + 1..] && b + 1 < |s|
    requires if a < k then Flat(p[a + 1..k]) == SlashesOf(r) else r == 0
    ensures var d := b + 1 + r;
            MatchFrom(s, p, Cursor(a + 1, b, a, b + 1)) == MatchFrom(s, p, Cursor(k + 1, d, k, d + 1))
  {
    hide MatchFrom, Flat, SlashesOf;
    StarRestarts(s, p, Cursor(a + 1, b, a, b + 1));
    if a < k {
      FlatReaches(s, p, Cursor(a + 1, b + 1, a, b + 2), k);
    }
  }

  /** Then it takes one slash for the start of the two, and drops the second odd character. */
  lemma OverrunningIsAccepted(p: string, e: nat, k: nat, r: nat)
    requires Parts(p, e, k, r)
    ensures MgMatch(Overrunning(p, e, k, r), p)
  {
    hide MatchFrom, MgMatch, Flat, Steps, SlashesOf;
    var s, z, b := Overrunning(p, e, k, r), OddAt(p, e), |Flat(p[..e + 1])|;
    var a := LastStar(p, e + 1, k);
    var d := b + 1 + r;
    PlacesOf(p, e, k, r, a);
    ReachesStar(s, p, a);
    assert s[b] == z && s[b + 1..] == SlashesOf(r + 1) + [z] + Flat(p[k + 1..]);
    StepsAreTaken(s, p, a, b, k, r);
    assert s[d] == SlashesOf(r + 1)[r] && s[d + 1] == z && s[d + 2..] == Flat(p[k + 1..]);
    TwoRestarts(s, p, k, d);
    FlatMatches(s, p, Cursor(k + 1, d + 2, k, d + 3));
  }

  lemma PlacesOf(p: string, e: nat, k: nat, r: nat, a: nat)
    requires Parts(p, e, k, r) && e < a <= k && forall x :: e + 1 <= x <= a ==> p[x] == '*'
    ensures Flat(p[..a]) == Flat(p[..e + 1])
    ensures if a < k then Flat(p[a + 1..k]) == SlashesOf(r) else r == 0
    ensures SlashesOf(r) <= SlashesOf(r + 1)
  {
    hide Steps, Flat, SlashesOf;
    assert p[..a] == p[0..a] && p[..e + 1] == p[0..e + 1];
    SliceFlat(p, 0, e + 1, a);
    FlatStars(p, e + 1, a);
    FlatStars(p, e + 1, a + 1);
    FlatStars(p, k, k + 1);
    SliceFlat(p, e + 1, a + 1, k + 1);
    if a < k {
      SliceFlat(p, a + 1, k, k + 1);
      EmptyEnds(Flat(p[a + 1..k]));
    } else {
      NothingIsFlat(p, k + 1);
    }
    EmptyEnds(Flat(p[..e + 1]));
    EmptyEnds(SlashesOf(r));
  }

  lemma EmptyEnds(u: string)
    ensures u + "" == u == "" + u
  {
  }

  lemma NothingIsFlat(p: string, k: nat)
    requires k <= |p|
    ensures Flat(p[k..k]) == ""
  {
  }

  lemma BetweenSlashes(z: char, r: nat, i: nat)
    requires z != '/' && i <= r + 3
    ensures Slashes(Between(z, r)[..i]) == if i == 0 then 0 else if i <= r + 2 then i - 1 else r + 1
  {
    var w := Between(z, r);
    NoSlashes([z]);
    if 0 < i <= r + 2 {
      assert w[..i] == [z] + SlashesOf(i - 1);
      FlatSlashes(i - 1);
      SlashesAppend([z], SlashesOf(i - 1));
    } else if i == r + 3 {
      assert w[..i] == [z] + SlashesOf(r + 1) + [z];
      FlatSlashes(r + 1);
      SlashesAppend([z], SlashesOf(r + 1));
      SlashesAppend([z] + SlashesOf(r + 1), [z]);
    }
  }

  lemma SlashesInside(z: char, r: nat, i: nat, j: nat)
    requires z != '/' && i <= j <= r + 3
    ensures Slashes(Between(z, r)[..j]) == Slashes(Between(z, r)[..i]) + Slashes(Between(z, r)[i..j])
  {
    var w := Between(z, r);
    assert w[..j] == w[..i] + w[i..j];
    SlashesAppend(w[..i], w[i..j]);
  }

  lemma StartsWithTwo(n: string, u: string)
    requires |n| > 1 && n[0] == '/' == n[1] && Glob(n, u)
    ensures |u| > 1 && u[0] == '/' == u[1]
  {
    assert n[1..][0] == n[1] && u[1..][0] == u[1];
  }

  lemma ThePartsOf(p: string, e: nat, k: nat, r: nat)
    requires Parts(p, e, k, r)
    ensures e < k && k + 2 < |p|
    ensures var b, n := p[e + 1..k + 1], p[k + 1..];
      && p == p[..e + 1] + (b + n) && Simple(b) && '#' !in b && Flat(b) == SlashesOf(r)
      && |n| > 1 && n[0] == '/' == n[1]
  {
    hide Flat, SlashesOf, Steps;
  }

  lemma SlicesOf(f: string, w: string, t: string, x: nat, y: nat)
    requires x + y <= |w|
    ensures var s := f + w + t; var i := |f| + x;
      s[..i] == f + w[..x] && s[i..][..y] == w[x..x + y] && s[i..][y..] == w[x + y..] + t
  {
  }

  lemma ThreeParts(a: string, b: string, n: string, s: string) returns (i: nat, y: nat)
    requires Glob(a + (b + n), s) && Simple(b) && '#' !in b
    ensures i + y <= |s| && |Flat(a)| <= i && |Flat(b)| <= y && |Flat(n)| <= |s| - i - y
    ensures Glob(a, s[..i]) && Slashes(s[i..][..y]) == Slashes(Flat(b)) && Glob(n, s[i..][y..])
  {
    hide Glob, Flat, Slashes, Simple;
    i := GlobSplits(a, b + n, s);
    y := GlobSplits(b, n, s[i..]);
    GlobIsLong(a, s[..i]);
    GlobIsLong(b, s[i..][..y]);
    GlobIsLong(n, s[i..][y..]);
    StarsKeepSlashes(b, s[i..][..y]);
  }

  /** The steps have too few slashes for those in between, wherever they begin and end. */
  lemma OverrunningDoesNotMatch(p: string, e: nat, k: nat, r: nat)
    requires Parts(p, e, k, r)
    ensures !Glob(p, Overrunning(p, e, k, r))
  {
    hide Glob, Flat, Between, Slashes, SlashesOf, Simple, OddAt, Parts;
    ThePartsOf(p, e, k, r);
    var f, w, t := Flat(p[..e + 1]), Between(OddAt(p, e), r), Flat(p[k + 1..]);
    FlatSlashes(r);
    OddIsOdd(p, e);
    if Glob(p, f + w + t) {
      var i, y := ThreeParts(p[..e + 1], p[e + 1..k + 1], p[k + 1..], f + w + t);
      StartsWithTwo(p[k + 1..], (f + w + t)[i..][y..]);
      SlicesOf(f, w, t, i - |f|, y);
      WhereTheyEnd(OddAt(p, e), r, i - |f|, y, t);
      OffenceInTheWay(p, e, k, f, r, i - |f|);
    }
  }

  lemma OddIsOdd(p: string, e: nat)
    requires e < |p|
    ensures OddAt(p, e) != '/'
  {
  }

  lemma WhereTheyEnd(z: char, r: nat, x: nat, y: nat, t: string)
    requires z != '/' && r <= y && x + y <= r + 3
    requires var u := Between(z, r)[x + y..] + t; |u| > 1 && u[0] == '/' == u[1]
    requires Slashes(Between(z, r)[x..x + y]) == r
    ensures x == 2 || (x == 3 && r == 0)
  {
    hide Slashes;
    BetweenSlashes(z, r, x);
    BetweenSlashes(z, r, x + y);
    SlashesInside(z, r, x, x + y);
  }

  /** What stands before the steps cannot end behind the first odd character. */
  lemma OffenceInTheWay(p: string, e: nat, k: nat, f: string, r: nat, x: nat)
    requires Parts(p, e, k, r)
    requires x == 2 || (x == 3 && r == 0)
    ensures !Glob(p[..e + 1], f + Between(OddAt(p, e), r)[..x])
  {
    hide Glob, Flat, Steps;
    var z := OddAt(p, e);
    var u := f + Between(z, r)[..x];
    assert p[..e + 1] == p[..e] + [p[e]];
    assert u[|u| - 1] == if x == 2 then '/' else z;
    if Glob(p[..e + 1], u) {
      LastLiteral(p[..e], p[e], u);
      assert u[..|u| - 1] == f + [z];
      assert p[..e] == p[..e - 1] + [p[e - 1]];
      LastLiteral(p[..e - 1], p[e - 1], f + [z]);
    }
  }

  /** For example: between `ab` and `//` the star swallows a slash, though a `#` comes before it
      and another right behind the slashes. */
  lemma StarCanOverrun()
    ensures MgMatch("ab/b//", "#a*//#") && !Glob("#a*//#", "ab/b//")
  {
    hide MgMatch, Glob;
    var p := "#a*//#";
    assert p[2..3] == "*" && "*"[1..] == "" && p[..2] == "#a" && p[3..] == "//#";
    assert "#a"[1..] == "a" && "a"[1..] == "" && "//#"[1..] == "/#" && "/#"[1..] == "#" && "#"[1..] == "";
    assert Flat("#") == "" && Flat("/#") == "/" && Flat("//#") == "//" && Flat("a") == "a" && Flat("*") == "";
    assert Overrunning(p, 1, 2, 0) == "ab/b//";
    OverrunningIsAccepted(p, 1, 2, 0);
    OverrunningDoesNotMatch(p, 1, 2, 0);
  }

  // ------------------------------------------------------------------ the condition

  lemma UnsoundFails(p: string, k: nat) returns (s: string)
    requires Simple(p) && k < |p| && p[k] == '*' && !Sound(p, k)
    ensures MgMatch(s, p) != Glob(p, s)
  {
    hide MgMatch, Glob, Swallowing, Sticking, Overrunning;
    if !Behind(p, k) {
      s := Swallowing(p, k);
      SwallowingIsAccepted(p, k);
      SwallowingDoesNotMatch(p, k);
    } else if !Gliding(p, k) {
      s := Sticking(p, k);
      StickingIsRefused(p, k);
      StickingMatches(p, k);
    } else {
      var e, r := PartsOf(p, k);
      s := Overrunning(p, e, k, r);
      OverrunningIsAccepted(p, e, k, r);
      OverrunningDoesNotMatch(p, e, k, r);
    }
  }

  /** A pattern of literals, `*` and `#` means what is documented, on every text, if and only if
      each of its stars is sound: with no `#` before it, a slash right behind it is followed at
      once by a wildcard; behind a `#`, it is followed by slashes only up to another wildcard,
      and if they are two or more, there are only stars and lone slashes since the last `#`. */
  lemma ExactIffClear(p: string)
    requires Simple(p)
    ensures (forall s :: MgMatch(s, p) == Glob(p, s)) <==> Clear(p)
  {
    hide MgMatch, Glob, Sound;
    if Clear(p) {
      forall s
        ensures MgMatch(s, p) == Glob(p, s)
      {
        ClearIsExact(s, p);
      }
    } else {
      var k :| 0 <= k < |p| && p[k] == '*' && !Sound(p, k);
      var s := UnsoundFails(p, k);
    }
  }

  // ------------------------------------------------------------------- special cases

  /** Without a `#`: if and only if each slash right behind a star is followed by the next star. */
  lemma ExactIffTame(p: string)
    requires Simple(p) && '#' !in p
    ensures (forall s :: MgMatch(s, p) == Glob(p, s)) <==>
            forall k :: 0 <= k < |p| - 1 && p[k] == '*' && p[k + 1] == '/' ==> k + 2 < |p| && p[k + 2] == '*'
  {
    hide MgMatch, Glob;
    ExactIffClear(p);
    forall k | 0 <= k < |p| && p[k] == '*'
      ensures Sound(p, k) <==> Tame(p, k)
    {
      assert !Behind(p, k);
    }
    var tame := forall k :: 0 <= k < |p| - 1 && p[k] == '*' && p[k + 1] == '/' ==> k + 2 < |p| && p[k + 2] == '*';
    if Clear(p) {
      forall k | 0 <= k < |p| - 1 && p[k] == '*' && p[k + 1] == '/'
        ensures k + 2 < |p| && p[k + 2] == '*'
      {
        assert Sound(p, k);
      }
    }
    if tame {
      forall k | 0 <= k < |p| && p[k] == '*'
        ensures Sound(p, k)
      {
        assert Tame(p, k);
      }
    }
  }

  lemma OneStar(l1: string, l2: string)
    requires Literal(l1) && Literal(l2)
    ensures var p := l1 + "*" + l2;
            Simple(p) && '#' !in p && (Clear(p) <==> l2 == "" || l2[0] != '/')
  {
    var p := l1 + "*" + l2;
    forall k | 0 <= k < |p|
      ensures p[k] == '*' <==> k == |l1|
      ensures p[k] != '#' && p[k] != '?'
    {
      assert p[k] == if k < |l1| then l1[k] else if k == |l1| then '*' else l2[k - |l1| - 1];
    }
    if l2 != "" {
      assert p[|l1| + 1] == l2[0];
    }
    assert p[|l1|] == '*' && !Behind(p, |l1|);
    if l2 != "" && l2[0] == '/' {
      assert !Sound(p, |l1|);
    } else {
      assert Sound(p, |l1|);
    }
  }

  /** With one star, between literals: if and only if no slash follows it. */
  lemma OneStarIsExactIff(l1: string, l2: string)
    requires Literal(l1) && Literal(l2)
    ensures (forall s :: MgMatch(s, l1 + "*" + l2) == Glob(l1 + "*" + l2, s)) <==> l2 == "" || l2[0] != '/'
  {
    hide MgMatch, Glob, Clear;
    OneStar(l1, l2);
    ExactIffClear(l1 + "*" + l2);
  }
}
