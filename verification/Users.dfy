/**
 Who is asking: credentials of a request, the list of users that have logged in, and the
 tokens that stand for them. Strings are C strings, without NUL.
 */
module Users {
  import opened Common

  /** An `Authorization` header; `Other` is a scheme that is not understood or has nothing
      behind it, `Unreadable` a Basic header without a colon. */
  datatype Header = Absent | Basic(user: string, pass: string) | Unreadable | Bearer(token: string) | Other

  /** `cookie` is the access token in the Cookie header, if there is such a header; `query`
      the one in the query string. */
  datatype Request = Request(header: Header, cookie: Option<string>, query: string)

  datatype User = User(name: string, token: string, level: int)

  datatype Creds = Creds(header: bool, user: string, pass: string)

  /** The room in the credential buffers, and in a stored name. */
  const CRED := 99
  const NAME := 31

  function Cut(s: string, n: nat): (r: string)
    ensures |r| <= n && r <= s && (|s| <= n <==> r == s)
  {
    if |s| <= n then s else s[..n]
  }

  /** The access token outside the `Authorization` header. */
  function TokenOf(r: Request): string {
    if r.cookie.Some? then r.cookie.value else r.query
  }

  /** `mg_http_creds` */
  function CredsOf(r: Request): Creds {
    match r.header
    case Basic(user, pass) => Creds(true, Cut(user, CRED), Cut(pass, CRED))
    case Unreadable => Creds(true, "", "")
    case Bearer(token) => Creds(true, "", Cut(if token == "" then TokenOf(r) else token, CRED))
    case _ => Creds(r.header.Other?, "", Cut(TokenOf(r), CRED))
  }

  function ByName(users: seq<User>, name: string): Option<User> {
    if users == [] then None else if users[0].name == name then Some(users[0]) else ByName(users[1..], name)
  }

  function ByToken(users: seq<User>, token: string): Option<User> {
    if users == [] then None else if users[0].token == token then Some(users[0]) else ByToken(users[1..], token)
  }

  datatype Outcome = Outcome(users: seq<User>, who: Option<User>)

  /** `authenticate`, with the firmware's check `auth` and the random token that a new entry
      would get; the newest user comes first. */
  function Authenticate(users: seq<User>, c: Creds, auth: (string, string) -> int, token: string): Outcome {
    if c.pass == "" then Outcome(users, None)
    else if !c.header then Outcome(users, ByToken(users, c.pass))
    else if auth(c.user, c.pass) <= 0 then Outcome(users, None)
    else if ByName(users, c.user).Some? then Outcome(users, ByName(users, c.user))
    else
      var u := User(Cut(c.user, NAME), token, auth(c.user, c.pass));
      Outcome([u] + users, Some(u))
  }

  /** The list of users, searched in place. */
  class Logins {
    var users: seq<User>

    constructor ()
      ensures users == []
    {
      users := [];
    }

    method Find(key: string, byName: bool) returns (result: Option<User>)
      ensures result == if byName then ByName(users, key) else ByToken(users, key)
    {
      result := None;
      var i := 0;
      while i < |users| && result.None?
        invariant 0 <= i <= |users|
        invariant (if byName then ByName(users, key) else ByToken(users, key))
                  == if result.Some? then result
                     else if byName then ByName(users[i..], key) else ByToken(users[i..], key)
      {
        if (if byName then users[i].name else users[i].token) == key {
          result := Some(users[i]);
        }
        i := i + 1;
      }
    }

    method Login(r: Request, auth: (string, string) -> int, token: string) returns (result: Option<User>)
      modifies this
      ensures Outcome(users, result) == Authenticate(old(users), CredsOf(r), auth, token)
    {
      var c := CredsOf(r);
      result := None;
      if c.header && c.pass != "" {
        var level := auth(c.user, c.pass);
        if level > 0 {
          result := Find(c.user, true);
          if result.None? {
            var u := User(Cut(c.user, NAME), token, level);
            users := [u] + users;
            result := Some(u);
          }
        }
      } else if !c.header && c.pass != "" {
        result := Find(c.pass, false);
      }
    }
  }

  // ------------------------------------------------------------------- whole runs

  /** A request and the token it would be given. */
  datatype Attempt = Attempt(creds: Creds, token: string)

  function Run(users: seq<User>, auth: (string, string) -> int, xs: seq<Attempt>): seq<User> {
    if xs == [] then users
    else
      var x := xs[|xs| - 1];
      Authenticate(Run(users, auth, xs[..|xs| - 1]), x.creds, auth, x.token).users
  }

  predicate NamesDiffer(users: seq<User>) {
    forall i, j :: 0 <= i < j < |users| ==> users[i].name != users[j].name
  }

  predicate TokensDiffer(users: seq<User>) {
    forall i, j :: 0 <= i < j < |users| ==> users[i].token != users[j].token
  }

  lemma {:induction false} ByNameFinds(users: seq<User>, name: string)
    ensures match ByName(users, name)
            case Some(u) => u in users && u.name == name
            case None => forall i :: 0 <= i < |users| ==> users[i].name != name
    decreases |users|
  {
    if users != [] {
      ByNameFinds(users[1..], name);
      assert forall i :: 1 <= i < |users| ==> users[i] == users[1..][i - 1];
    }
  }

  lemma OneLoginKeeps(users: seq<User>, c: Creds, auth: (string, string) -> int, token: string)
    ensures var r := Authenticate(users, c, auth, token).users;
            r == users || (|r| == |users| + 1 && r[1..] == users)
  {
  }

  /** Entries are never removed, moved or altered: the list before is the end of the list
      after, through any run of logins. */
  lemma {:induction false} EntriesStay(users: seq<User>, auth: (string, string) -> int, xs: seq<Attempt>)
    ensures var r := Run(users, auth, xs); |users| <= |r| && r[|r| - |users|..] == users
    decreases |xs|
  {
    hide Authenticate;
    if xs != [] {
      var rest, x := Run(users, auth, xs[..|xs| - 1]), xs[|xs| - 1];
      EntriesStay(users, auth, xs[..|xs| - 1]);
      OneLoginKeeps(rest, x.creds, auth, x.token);
    }
  }

  predicate ShortNames(xs: seq<Attempt>) {
    forall k :: 0 <= k < |xs| ==> |xs[k].creds.user| <= NAME
  }

  /** While names have fewer than 32 characters, no two entries have the same name. */
  lemma {:induction false} NamesStayDistinct(users: seq<User>, auth: (string, string) -> int, xs: seq<Attempt>)
    requires NamesDiffer(users) && ShortNames(xs)
    ensures NamesDiffer(Run(users, auth, xs))
    decreases |xs|
  {
    if xs != [] {
      NamesStayDistinct(users, auth, xs[..|xs| - 1]);
      ByNameFinds(Run(users, auth, xs[..|xs| - 1]), xs[|xs| - 1].creds.user);
    }
  }

  /** A password login that the firmware accepts. */
  predicate Accepted(c: Creds, auth: (string, string) -> int) {
    c.header && c.pass != "" && auth(c.user, c.pass) > 0
  }

  /** Names in the list are never longer than a stored name can be. */
  predicate Stored(users: seq<User>) {
    forall i :: 0 <= i < |users| ==> |users[i].name| <= NAME
  }

  /** Logging in again gives the same entry, with the token and the level of the first
      time, and adds none: exactly for names of fewer than 32 characters. A longer name is
      never found again, and each of its logins adds an entry. */
  lemma SecondLoginAddsNoneIff(users: seq<User>, c: Creds, auth: (string, string) -> int, t1: string, t2: string)
    requires Accepted(c, auth) && Stored(users)
    ensures var first := Authenticate(users, c, auth, t1); var second := Authenticate(first.users, c, auth, t2);
      && (second.users == first.users <==> |c.user| <= NAME)
      && (|c.user| <= NAME ==> second.who == first.who && second.who.Some?)
      && (|c.user| > NAME ==> |second.users| == |users| + 2 && second.users[0].name == second.users[1].name)
  {
    ByNameFinds(users, c.user);
    var first := Authenticate(users, c, auth, t1);
    if ByName(users, c.user).None? {
      assert first.users[1..] == users;
    }
  }

  lemma {:induction false} NamesAreStored(users: seq<User>, auth: (string, string) -> int, xs: seq<Attempt>)
    requires Stored(users)
    ensures Stored(Run(users, auth, xs))
    decreases |xs|
  {
    if xs != [] {
      NamesAreStored(users, auth, xs[..|xs| - 1]);
    }
  }

  /** The token given to each new entry is none that is in use. */
  predicate FreshTokens(users: seq<User>, auth: (string, string) -> int, xs: seq<Attempt>) {
    forall k :: 0 <= k < |xs| ==> forall u :: u in Run(users, auth, xs[..k]) ==> u.token != xs[k].token
  }

  lemma {:induction false} TokensStayDistinct(users: seq<User>, auth: (string, string) -> int, xs: seq<Attempt>)
    requires TokensDiffer(users) && FreshTokens(users, auth, xs)
    ensures TokensDiffer(Run(users, auth, xs))
    decreases |xs|
  {
    if xs != [] {
      var rest := xs[..|xs| - 1];
      FreshPrefix(users, auth, xs);
      TokensStayDistinct(users, auth, rest);
      NewTokenDiffers(Run(users, auth, rest), xs[|xs| - 1], auth);
    }
  }

  lemma FreshPrefix(users: seq<User>, auth: (string, string) -> int, xs: seq<Attempt>)
    requires FreshTokens(users, auth, xs) && xs != []
    ensures FreshTokens(users, auth, xs[..|xs| - 1])
    ensures forall u :: u in Run(users, auth, xs[..|xs| - 1]) ==> u.token != xs[|xs| - 1].token
  {
    forall k | 0 <= k < |xs| - 1
      ensures xs[..|xs| - 1][..k] == xs[..k]
    {
    }
    hide Run;
  }

  lemma NewTokenDiffers(users: seq<User>, x: Attempt, auth: (string, string) -> int)
    requires TokensDiffer(users) && forall u :: u in users ==> u.token != x.token
    ensures TokensDiffer(Authenticate(users, x.creds, auth, x.token).users)
  {
  }

  lemma {:induction false} TokenResolves(users: seq<User>, i: nat)
    requires TokensDiffer(users) && i < |users|
    ensures ByToken(users, users[i].token) == Some(users[i])
    decreases |users|
  {
    if i > 0 {
      TokenResolves(users[1..], i - 1);
    }
  }

  lemma TokenIsThePassword(r: Request)
    requires r.header.Absent?
    ensures CredsOf(r) == Creds(false, "", Cut(TokenOf(r), CRED))
  {
  }

  /** The ordinary login: a Basic header is accepted if and only if there is a password and the
      firmware takes it for that user; the entry found or added has the name of the user. */
  lemma BasicIsAccepted(users: seq<User>, auth: (string, string) -> int, r: Request, t: string)
    requires r.header.Basic? && |r.header.user| <= CRED && |r.header.pass| <= CRED
    ensures var u, p, o := r.header.user, r.header.pass, Authenticate(users, CredsOf(r), auth, t);
      && (o.who.Some? <==> p != "" && auth(u, p) > 0)
      && (o.who.Some? && |u| <= NAME ==> o.who.value.name == u && o.who.value in o.users)
      && (o.who.Some? && o.users != users ==>
            o.users == [o.who.value] + users && o.who.value.token == t && o.who.value.level == auth(u, p))
  {
    ByNameFinds(users, r.header.user);
  }

  function First(s: string, n: nat): string {
    if |s| < n then s else s[..n]
  }

  /** Longer parts are cut to what the buffers hold. */
  lemma LongBasicIsCut(users: seq<User>, auth: (string, string) -> int, r: Request, t: string)
    requires r.header.Basic?
    ensures var cut := Basic(First(r.header.user, 99), First(r.header.pass, 99));
            Authenticate(users, CredsOf(r), auth, t) == Authenticate(users, CredsOf(r.(header := cut)), auth, t)
  {
    hide Authenticate;
    var cut := Basic(First(r.header.user, 99), First(r.header.pass, 99));
    assert CredsOf(r) == CredsOf(r.(header := cut));
  }

  /** Without a colon a Basic header stands for nobody, whatever else the request carries. */
  lemma UnreadableIsNobody(users: seq<User>, auth: (string, string) -> int, r: Request, t: string)
    requires r.header.Unreadable?
    ensures Authenticate(users, CredsOf(r), auth, t) == Outcome(users, None)
  {
  }

  /** Behind any other header, or a Bearer header without a token, the token of the cookie, or
      of the query if there is no Cookie header, is taken for the password of a user without a
      name: it is not looked up. */
  lemma OtherHeaderTakesTheToken(users: seq<User>, auth: (string, string) -> int, r: Request, t: string)
    requires r.header.Other? || r.header == Bearer("")
    ensures var token := match r.cookie case Some(c) => c case None => r.query;
            |token| <= CRED ==>
              (Authenticate(users, CredsOf(r), auth, t).who.Some? <==> token != "" && auth("", token) > 0)
  {
  }

  /** Without a header: an entry with the token in the cookie, or in the query if there is no
      Cookie header, even one without a token; and nobody is added. */
  lemma CookieThenQuery(users: seq<User>, auth: (string, string) -> int, r: Request, t: string)
    requires r.header.Absent?
    ensures var o := Authenticate(users, CredsOf(r), auth, t);
            var token := match r.cookie case Some(c) => c case None => r.query;
      && o.users == users
      && (|token| <= CRED ==> (o.who.Some? <==> token != "" && exists u :: u in users && u.token == token))
      && (o.who.Some? ==> o.who.value in users && o.who.value.token <= token)
  {
    ByTokenFinds(users, Cut(TokenOf(r), CRED));
  }

  lemma {:induction false} ByTokenFinds(users: seq<User>, token: string)
    ensures match ByToken(users, token)
            case Some(u) => u in users && u.token == token
            case None => forall u :: u in users ==> u.token != token
    decreases |users|
  {
    if users != [] {
      ByTokenFinds(users[1..], token);
    }
  }

  /** A token stands for the same user for the rest of the run: a request that carries it in
      a cookie or in the query, and has no `Authorization` header, is that user's. */
  lemma TokenStandsForItsUser(users: seq<User>, auth: (string, string) -> int, xs: seq<Attempt>, i: nat, r: Request, t: string)
    requires TokensDiffer(users) && FreshTokens(users, auth, xs) && i < |users|
    requires r.header.Absent? && 0 < |users[i].token| <= CRED
    requires TokenOf(r) == users[i].token
    ensures Authenticate(Run(users, auth, xs), CredsOf(r), auth, t).who == Some(users[i])
  {
    hide Run, FreshTokens, TokensDiffer, CredsOf, ByName, ByToken;
    TokensStayDistinct(users, auth, xs);
    EntriesStay(users, auth, xs);
    TokenIsThePassword(r);
    var all := Run(users, auth, xs);
    var j := |all| - |users| + i;
    assert all[j] == all[|all| - |users|..][i];
    TokenResolves(all, j);
  }

  /** A token in a Bearer header is not looked up: it is taken for the password of a user
      without a name, so it works if and only if the firmware accepts that. */
  lemma BearerTokensAreNotLookedUp(users: seq<User>, auth: (string, string) -> int, r: Request, t: string)
    requires r.header.Bearer? && r.header.token != ""
    ensures Authenticate(users, CredsOf(r), auth, t).who.Some? <==> auth("", Cut(r.header.token, CRED)) > 0
  {
  }

  // -------------------------------------------------------------- the level granted

  /** A password login yields an entry of the level that the firmware has just granted, if
      and only if no entry has its name yet, or the entry has that level. */
  lemma GrantedLevelIff(users: seq<User>, c: Creds, auth: (string, string) -> int, token: string)
    requires Accepted(c, auth)
    ensures var o, e := Authenticate(users, c, auth, token), ByName(users, c.user);
      && o.who.Some?
      && (o.who.value.level == auth(c.user, c.pass) <==> e.None? || e.value.level == auth(c.user, c.pass))
  {
  }

  /** It fails: a name of more than 31 characters is stored cut, and the user whose whole
      name that is gets the entry, with the token and the level of the first. */
  lemma PrefixBorrowsTheEntry(long: Creds, short: Creds, auth: (string, string) -> int, t1: string, t2: string)
    requires Accepted(long, auth) && Accepted(short, auth)
    requires |long.user| > NAME && short.user == long.user[..NAME]
    ensures var first := Authenticate([], long, auth, t1); var second := Authenticate(first.users, short, auth, t2);
      && second.who == first.who && second.users == first.users
      && second.who == Some(User(short.user, t1, auth(long.user, long.pass)))
  {
    var u := User(Cut(long.user, NAME), t1, auth(long.user, long.pass));
    assert ByName([], long.user) == None;
    assert Authenticate([], long, auth, t1).users == [u] && [u][0] == u;
  }

  /** The level that an accepted password brings depends on the user alone. */
  ghost predicate Ranked(auth: (string, string) -> int, rank: string -> int) {
    forall u, p :: auth(u, p) > 0 ==> auth(u, p) == rank(u)
  }

  predicate Levels(users: seq<User>, rank: string -> int) {
    forall i :: 0 <= i < |users| ==> users[i].level == rank(users[i].name)
  }

  lemma {:induction false} LevelsStay(users: seq<User>, auth: (string, string) -> int, rank: string -> int, xs: seq<Attempt>)
    requires Levels(users, rank) && Ranked(auth, rank) && ShortNames(xs)
    ensures Levels(Run(users, auth, xs), rank)
    decreases |xs|
  {
    if xs != [] {
      LevelsStay(users, auth, rank, xs[..|xs| - 1]);
      hide ByName, ByToken;
    }
  }

  /** When every name is short and has one level, every password login of any run yields the
      level that was granted, whoever has logged in before. */
  lemma GrantedLevelIsGiven(auth: (string, string) -> int, rank: string -> int, xs: seq<Attempt>, c: Creds, token: string)
    requires Ranked(auth, rank) && ShortNames(xs) && Accepted(c, auth)
    ensures var o := Authenticate(Run([], auth, xs), c, auth, token); o.who.Some? && o.who.value.level == auth(c.user, c.pass)
  {
    LevelsStay([], auth, rank, xs);
    ByNameFinds(Run([], auth, xs), c.user);
    GrantedLevelIff(Run([], auth, xs), c, auth, token);
    hide Run, Authenticate;
  }
}
