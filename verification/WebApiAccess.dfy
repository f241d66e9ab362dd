/**
 Who may do what, told from the table and the request alone: the levels of the handler that is
 the first path segment behind `/api/`, and of the first route in the list that matches.
 */
module WebApiAccess {
  import opened Common
  import opened Routing
  import opened Glob
  import opened WebApi
  import opened WebApiRuns
  import opened WebApiRefusals

  predicate Addressed(h: Handler, uri: string) {
    |uri| > 5 && uri[..5] == "/api/" && h.name == FirstSegment(uri[5..])
  }

  /** A user of this level may read, and write if there is a body of `n` bytes. */
  predicate Reaches(level: int, n: nat, read: int, write: int) {
    level >= read && (n > 0 ==> level >= write)
  }

  /** A request for which there has to be a user. */
  predicate Protected(t: Table, uri: string) {
    "/api/" <= uri || uri == "/websocket" || exists i :: 0 <= i < |t.routes| && MgMatch(uri, t.routes[i].pattern)
  }

  /** There is a user, and the level reaches what the handler and the route addressed ask for. */
  predicate Allowed(t: Table, r: Request, n: nat) {
    && r.level.Some?
    && (forall h :: h in t.handlers && Addressed(h, r.uri) ==> Reaches(r.level.value, n, h.readLevel, h.writeLevel))
    && (forall i: nat :: i < |t.routes| && FirstMatch(t.routes, r.uri, i) ==>
          Reaches(r.level.value, n, t.routes[i].readLevel, t.routes[i].writeLevel))
  }

  lemma HandlerIsAddressed(hs: seq<Handler>, uri: string, h: Handler)
    requires WellNamed(hs)
    ensures FindHandler(hs, uri) == Some(h) <==> h in hs && Addressed(h, uri)
  {
    if |uri| > 5 && uri[..5] == "/api/" {
      ScanFindsTheFirstSegment(hs, uri[5..], h);
    }
    hide ApiHandler;
  }

  /** The check is this, in the terms of the table. */
  lemma PassesIffAllowed(t: Table, r: Request, n: nat)
    requires WellNamed(t.handlers)
    ensures PassesWith(t, r, n) <==> Allowed(t, r, n)
  {
    FirstMatchIsFound(t.routes, r.uri);
    forall h
      ensures FindHandler(t.handlers, r.uri) == Some(h) <==> h in t.handlers && Addressed(h, r.uri)
    {
      HandlerIsAddressed(t.handlers, r.uri, h);
    }
    hide FindHandler, FindRoute, Addressed, FirstMatch, WellNamed, MgMatch;
    var route := FindRoute(t.routes, r.uri);
    if route.Some? {
      var i: nat :| FirstMatch(t.routes, r.uri, i);
      InList(t.routes, r.uri, i);
    }
    forall i: nat | FirstMatch(t.routes, r.uri, i)
      ensures i < |t.routes|
    {
      InList(t.routes, r.uri, i);
    }
  }

  lemma InList(rs: seq<Route>, uri: string, i: nat)
    requires FirstMatch(rs, uri, i)
    ensures i < |rs|
  {
  }

  lemma GuardedIffProtected(t: Table, uri: string)
    ensures Guarded(t, uri) <==> Protected(t, uri)
  {
    FirstMatchIsFound(t.routes, uri);
    PrefixMatch(uri, "/api/");
    LiteralMatch(uri, "/websocket");
    assert "/api/" + "#" == "/api/#";
    hide MgMatch, FindRoute, FirstMatch;
  }

  /** In every run: whatever ran a setter, an action starter, a custom handler or an upload
      writer did so for a user, whose level reaches the levels of what was addressed. */
  lemma EffectsNeedLevels(t: Table, es: seq<Event>, k: nat)
    requires WellNamed(t.handlers) && Legal(t, es) && k < |Run(t, es).log| && Privileged(Run(t, es).log[k])
    ensures var r := Run(t, es).log[k].req;
      && r.level.Some?
      && (forall h :: h in t.handlers && Addressed(h, r.uri) ==>
            r.level.value >= h.readLevel && (r.bodyLen > 0 ==> r.level.value >= h.writeLevel))
      && (forall i: nat :: i < |t.routes| && FirstMatch(t.routes, r.uri, i) ==>
            r.level.value >= t.routes[i].readLevel && (r.bodyLen > 0 ==> r.level.value >= t.routes[i].writeLevel))
  {
    hide Run, Legal, Passes, PassesWith, Addressed, FirstMatch;
    EffectsAreAuthorised(t, es, k);
    PassesIffAllowed(t, Run(t, es).log[k].req, Run(t, es).log[k].req.bodyLen);
    PassesIsTheCheck(t, Run(t, es).log[k].req);
  }

  lemma PassesIsTheCheck(t: Table, r: Request)
    ensures Passes(t, r) == PassesWith(t, r, r.bodyLen)
  {
  }

  /** In every run: a request whose message is complete has been refused, once, if and only if it
      had to have a user and has none, or one whose level falls short for the declared body. */
  lemma RefusedIffShort(t: Table, es: seq<Event>, r: Request, m: Delivery, a: Answers)
    requires WellNamed(t.handlers) && Legal(t, es) && Enabled(Run(t, es), Message(r, m, a))
    requires Run(t, es).owner == HttpHandler && Run(t, es).mode != Marked
    ensures var refusals := Denials(Step(t, Run(t, es), Message(r, m, a)).log, r.id);
      && refusals <= 1
      && (refusals == 1 <==>
            Protected(t, r.uri)
            && (|| r.level.None?
                || (exists h :: h in t.handlers && Addressed(h, r.uri)
                      && (r.level.value < h.readLevel || (r.bodyLen > 0 && r.level.value < h.writeLevel)))
                || (exists i: nat :: i < |t.routes| && FirstMatch(t.routes, r.uri, i)
                      && (r.level.value < t.routes[i].readLevel
                          || (r.bodyLen > 0 && r.level.value < t.routes[i].writeLevel)))))
  {
    hide Run, Legal, Step, Enabled, Passes, PassesWith, Guarded, Protected, Addressed, FirstMatch, Denials, Privileges;
    RefusedExactlyOnce(t, es, r, m, a);
    PassesIffAllowed(t, r, r.bodyLen);
    PassesIsTheCheck(t, r);
    GuardedIffProtected(t, r.uri);
  }
}
