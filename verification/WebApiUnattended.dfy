/**
 Connections that the handler no longer attends to. The first message of a custom route gives
 the connection away, and whatever comes after it reaches the custom handler unchecked. A
 refused upgrade marks it for a websocket, and whatever comes after that is ignored.
 */
module WebApiUnattended {
  import opened Common
  import opened Routing
  import opened Glob
  import opened WebApi
  import opened WebApiRuns
  import opened WebApiRefusals
  import opened WebApiAnswers
  import opened WebApiPipelining
  import Upload

  // ------------------------------------------------------------------- handed over

  /** A custom route serves the request. */
  predicate Routed(t: Table, r: Request) {
    !BuiltIn(r.uri) && FindRoute(t.routes, r.uri).Some?
  }

  predicate HandsOver(t: Table, e: Effect) {
    e.CustomRan? && Routed(t, e.req)
  }

  /** A message of a route has been served. */
  predicate HandedOver(t: Table, log: seq<Effect>) {
    exists k :: 0 <= k < |log| && HandsOver(t, log[k])
  }

  /** Nothing was passed on before that. */
  predicate Ordered(t: Table, log: seq<Effect>) {
    forall k :: 0 <= k < |log| && log[k].PassedOn? ==> HandedOver(t, log[..k])
  }

  /** How many requests have been passed on. */
  function PassedOns(log: seq<Effect>): nat {
    if log == [] then 0 else PassedOns(log[..|log| - 1]) + (if log[|log| - 1].PassedOn? then 1 else 0)
  }

  lemma LogMore(t: Table, log: seq<Effect>, e: Effect)
    ensures HandedOver(t, log + [e]) <==> HandedOver(t, log) || HandsOver(t, e)
    ensures Ordered(t, log) && (e.PassedOn? ==> HandedOver(t, log)) ==> Ordered(t, log + [e])
    ensures PassedOns(log + [e]) == PassedOns(log) + if e.PassedOn? then 1 else 0
  {
    hide HandsOver;
    var u := log + [e];
    assert u[|log|] == e && u[..|log|] == log;
    forall k | 0 <= k < |log|
      ensures u[k] == log[k] && u[..k] == log[..k]
    {
    }
    if HandedOver(t, log) {
      var k :| 0 <= k < |log| && HandsOver(t, log[k]);
      assert HandsOver(t, u[k]);
    }
  }

  /** From `c` to `u` nothing has been handed over or passed on. */
  predicate Steady(t: Table, c: Conn, u: Conn) {
    && (HandedOver(t, u.log) <==> HandedOver(t, c.log)) && (Ordered(t, c.log) ==> Ordered(t, u.log))
    && PassedOns(u.log) == PassedOns(c.log) && (u.owner == CustomHandler <==> c.owner == CustomHandler)
  }

  predicate Neutral(t: Table, e: Effect) {
    !e.PassedOn? && !HandsOver(t, e)
  }

  lemma LogSteady(t: Table, c: Conn, u: Conn, e: Effect)
    requires Steady(t, c, u) && Neutral(t, e)
    ensures Steady(t, c, Log(u, e))
  {
    hide HandedOver, Ordered, PassedOns, HandsOver;
    LogMore(t, u.log, e);
  }

  lemma ReplySteady(t: Table, c: Conn, u: Conn, code: nat, id: nat)
    requires Steady(t, c, u)
    ensures Steady(t, c, Reply(u, code, id))
  {
    hide HandedOver, Ordered, PassedOns;
    LogMore(t, u.log, Replied(code, id));
  }

  lemma EndSteady(t: Table, c: Conn, u: Conn, code: nat)
    requires Steady(t, c, u) && u.mode.Uploading?
    ensures Steady(t, c, EndUpload(u, code))
  {
    hide HandedOver, Ordered, PassedOns;
    var e := Replied(code, u.mode.req.id);
    LogMore(t, u.log, e);
    LogMore(t, u.log + [e], Released(u.mode.req.id));
  }

  lemma UploadReadSteady(t: Table, c: Conn, u: Conn, ok: bool)
    requires Steady(t, c, u) && u.mode.Uploading?
    ensures Steady(t, c, UploadRead(u, ok))
  {
    hide HandedOver, Ordered, PassedOns, Upload.ReadStep, EndUpload;
    var s := Upload.ReadStep(u.mode.received, u.mode.req.bodyLen, u.recv, ok);
    if s.write.Some? {
      LogMore(t, u.log, Written(u.mode.req, u.mode.held, s.write.value));
    }
    EndSteady(t, c, PassOnBytes(u, s), if s.outcome == Upload.Done then 200 else 400);
  }

  lemma StartUploadSteady(t: Table, c: Conn, u: Conn, r: Request, a: Answers)
    requires Steady(t, c, u) && u.loop.Parsing?
    ensures Steady(t, c, StartUpload(t, u, r, a))
  {
    hide HandedOver, Ordered, PassedOns, UploadRead, FindHandler;
    LogMore(t, u.log, Opened(r.id));
    ReplySteady(t, c, u, 400, r.id);
    var h := FindHandler(t.handlers, r.uri);
    if h.Some? {
      UploadReadSteady(t, c, BeginUpload(u, h.value.kind == Ota, r, a.granted), a.writerOk);
    }
  }

  lemma HeadersSteady(t: Table, c: Conn, r: Request, a: Answers)
    requires c.loop.Parsing? && c.owner != CustomHandler
    ensures Steady(t, c, OnHeaders(t, c, r, a))
  {
    hide HandedOver, Ordered, PassedOns, StartUpload, Guarded, Passes;
    var c0 := Reported(c, r);
    ReplySteady(t, c, c0, 403, r.id);
    LogSteady(t, c, c0, Admitted(r));
    StartUploadSteady(t, c, if Guarded(t, r.uri) then Log(c0, Admitted(r)) else c0, r, a);
  }

  lemma HandlerSteady(t: Table, c: Conn, cause: Cause, a: Answers)
    ensures Steady(t, c, HandlerEvent(c, cause, a))
  {
    hide HandedOver, Ordered, PassedOns, UploadRead;
    match cause
    case ForRead =>
      if c.mode.Uploading? {
        UploadReadSteady(t, c, c, a.writerOk);
      }
    case ForPoll =>
      if c.mode.ActionPending? {
        ReplySteady(t, c, c, 200, c.mode.id);
      }
    case ForClose =>
      if c.mode.Uploading? {
        LogMore(t, c.log, Released(c.mode.req.id));
      }
  }

  lemma UpgradeSteady(t: Table, c: Conn, r: Request, a: Answers)
    ensures Steady(t, c, Upgrade(c, r, a))
  {
    hide HandedOver, Ordered, PassedOns;
    ReplySteady(t, c, c, 426, r.id);
  }

  /** An API of type custom is called where no route matches, and hands nothing over. */
  lemma ApiCallSteady(t: Table, c: Conn, h: Handler, r: Request, n: nat, a: Answers)
    requires c.owner != CustomHandler && FindRoute(t.routes, r.uri).None?
    ensures Steady(t, c, ApiCall(c, h, r, n, a))
  {
    hide HandedOver, Ordered, PassedOns, Log, Reply, Upgrade;
    UpgradeSteady(t, c, r, a);
    LogSteady(t, c, c, SetterRan(r, n));
    LogSteady(t, c, c, StarterRan(r, n));
    LogSteady(t, c, c, CustomRan(r, n));
    ReplySteady(t, c, c, if h.kind == Ota || h.kind == Unknown then 500 else 200, r.id);
    ReplySteady(t, c, Log(c, SetterRan(r, n)), 200, r.id);
    ReplySteady(t, c, Log(c, StarterRan(r, n)), 200, r.id);
    LogOwner(c, StarterRan(r, n));
    LogOwner(c, CustomRan(r, n));
  }

  lemma LogOwner(c: Conn, e: Effect)
    ensures Log(c, e).log == c.log + [e] && Log(c, e).owner == c.owner
  {
  }

  /** The owner is the custom handler exactly when the connection has been handed over. */
  predicate OwnerKnown(t: Table, c: Conn) {
    (c.owner == CustomHandler <==> HandedOver(t, c.log)) && Ordered(t, c.log)
  }

  lemma DispatchGives(t: Table, c: Conn, r: Request, n: nat, a: Answers)
    requires OwnerKnown(t, c) && c.owner != CustomHandler
    ensures OwnerKnown(t, Dispatch(t, c, r, n, a)) && PassedOns(Dispatch(t, c, r, n, a).log) == PassedOns(c.log)
  {
    hide HandedOver, Ordered, PassedOns, FindHandler, FindRoute, MgMatch, ApiCall, Upgrade;
    BuiltInsMatchThemselves(r.uri);
    ReplySteady(t, c, c, 200, r.id);
    ReplySteady(t, c, c, 401, r.id);
    UpgradeSteady(t, c, r, a);
    LogMore(t, c.log, CustomRan(r, n));
    var h := FindHandler(t.handlers, r.uri);
    if FindRoute(t.routes, r.uri).None? && h.Some? {
      ApiCallSteady(t, c, h.value, r, n, a);
    }
  }

  /** What one report or message adds. */
  predicate PassesOn(t: Table, c: Conn, u: Conn, r: Request) {
    && OwnerKnown(t, u)
    && (if c.owner == CustomHandler then u.log == c.log + [PassedOn(r)] else PassedOns(u.log) == PassedOns(c.log))
  }

  lemma ReportPassesOn(t: Table, c: Conn, r: Request, a: Answers)
    requires OwnerKnown(t, c) && c.loop.Parsing?
    ensures PassesOn(t, c, OnHeaders(t, c, r, a), r)
  {
    hide HandedOver, Ordered, PassedOns, StartUpload, Guarded, Passes;
    if c.owner == CustomHandler {
      LogMore(t, c.log, PassedOn(r));
    } else {
      HeadersSteady(t, c, r, a);
    }
  }

  lemma MessagePassesOn(t: Table, c: Conn, r: Request, m: Delivery, a: Answers)
    requires OwnerKnown(t, c) && c.loop.Parsing?
    ensures PassesOn(t, c, OnMessage(t, c, r, m, a), r)
  {
    hide HandedOver, Ordered, PassedOns, Dispatch;
    if c.owner == CustomHandler {
      LogMore(t, c.log, PassedOn(r));
    } else {
      DispatchGives(t, Taken(c, m), r, m.body, a);
    }
  }

  lemma StepGives(t: Table, c: Conn, e: Event)
    requires OwnerKnown(t, c)
    ensures OwnerKnown(t, Step(t, c, e))
  {
    hide HandedOver, Ordered, PassedOns, OnHeaders, OnMessage, HandlerEvent, Drop;
    match e
    case Headers(r, a) => if c.loop.Parsing? { ReportPassesOn(t, c, r, a); }
    case Message(r, m, a) => if c.loop.Parsing? { MessagePassesOn(t, c, r, m, a); }
    case Data(chunk, a) => HandlerSteady(t, c.(recv := c.recv + chunk), ForRead, a);
    case Poll(a) => HandlerSteady(t, c, ForPoll, a);
    case Close(a) =>
      LogMore(t, c.log, CloseSeen);
      HandlerSteady(t, Log(c, CloseSeen), ForClose, a);
    case LoopEnd(a) =>
      if !c.loop.Resting? {
        HandlerSteady(t, c.(loop := Resting, recv := if c.loop.Parsing? then Drop(c.recv, c.loop.ofs) else c.recv),
                      c.loop.cause, a);
      }
  }

  lemma {:induction false} EveryRunGives(t: Table, es: seq<Event>)
    ensures OwnerKnown(t, Run(t, es))
    decreases |es|
  {
    hide Step, OwnerKnown;
    if es == [] {
      FreshGives(t);
    } else {
      EveryRunGives(t, es[..|es| - 1]);
      StepGives(t, Run(t, es[..|es| - 1]), es[|es| - 1]);
    }
  }

  lemma FreshGives(t: Table)
    ensures OwnerKnown(t, Accepted())
  {
  }

  /** In every run the connection belongs to a custom handler if and only if a message of a
      custom route has been served on it. */
  lemma OwnerIff(t: Table, es: seq<Event>)
    ensures Run(t, es).owner == CustomHandler <==> HandedOver(t, Run(t, es).log)
  {
    EveryRunGives(t, es);
    hide HandedOver, Ordered;
  }

  /** In every run a report, or a message, is passed on unchecked if and only if a message of a
      custom route has been served before; then nothing else is done with it. */
  lemma PassedOnIff(t: Table, es: seq<Event>, e: Event)
    requires Legal(t, es) && Enabled(Run(t, es), e) && (e.Headers? || e.Message?)
    ensures var log, log' := Run(t, es).log, Step(t, Run(t, es), e).log;
      && (PassedOns(log') > PassedOns(log) <==> HandedOver(t, log))
      && (HandedOver(t, log) ==> log' == log + [PassedOn(e.req)])
  {
    EveryRunGives(t, es);
    var c := Run(t, es);
    hide HandedOver, Ordered, PassedOns, OnHeaders, OnMessage, Run, Deliverable;
    if e.Headers? {
      ReportPassesOn(t, c, e.req, e.a);
    } else {
      MessagePassesOn(t, c, e.req, e.m, e.a);
    }
    LogMore(t, c.log, PassedOn(e.req));
  }

  /** Behind every request that was passed on there is one of a route, which an earlier headers
      event had admitted, with a user whose level reaches the levels of that route. */
  lemma HandOverNeedsAdmission(t: Table, es: seq<Event>, k: nat)
    requires Legal(t, es) && k < |Run(t, es).log| && Run(t, es).log[k].PassedOn?
    ensures var log := Run(t, es).log;
      exists j :: 0 <= j < k && HandsOver(t, log[j]) && Passes(t, log[j].req) && Admitted(log[j].req) in log[..j]
  {
    EveryRunGives(t, es);
    var log := Run(t, es).log;
    hide Passes, Run, Routed;
    var j :| 0 <= j < k && HandsOver(t, log[..k][j]);
    assert HandsOver(t, log[j]);
    EffectsAreAuthorised(t, es, j);
  }

  // ------------------------------------------------------------------ the failing input

  /** A request of a route, as the first of a connection, that uploads nothing. */
  predicate Opener(t: Table, r: Request) {
    r.id == 0 && !r.isPost && !r.chunked && r.headLen > 0 && Passes(t, r) && Routed(t, r)
  }

  /** Two requests in one packet, up to the report of the second. */
  function Behind(r0: Request, r1: Request, a: Answers): seq<Event> {
    var packet := Zeros(r0.headLen + r0.bodyLen + r1.headLen);
    [Event.Data(packet, a), Headers(r0, a), Message(r0, Delivery(r0.bodyLen, r0.headLen + r0.bodyLen, packet), a),
     Headers(r1, a)]
  }

  lemma RouteIsServed(t: Table, c: Conn, r: Request, a: Answers)
    requires c.loop == Parsing(ForRead, 0, true) && c.request == Some(r) && r.headLen + r.bodyLen <= |c.recv|
    requires c.mode == Idle && c.owner == HttpHandler && !c.websocket && Routed(t, r) && !r.chunked
    ensures var m := Delivery(r.bodyLen, r.headLen + r.bodyLen, c.recv);
      && Enabled(c, Message(r, m, a))
      && Step(t, c, Message(r, m, a))
         == Log(Taken(c, m), CustomRan(r, r.bodyLen)).(owner := CustomHandler, responding := false)
  {
    hide FindHandler, FindRoute, MgMatch, Taken, Log;
    BuiltInsMatchThemselves(r.uri);
  }

  lemma NextIsReported(t: Table, c: Conn, m: Delivery, u: Conn, r: Request, a: Answers)
    requires c.loop.Parsing? && u == Taken(c, m).(owner := CustomHandler, responding := false, log := u.log)
    requires r.id == c.served + 1 && r.headLen > 0 && c.loop.ofs + m.used + r.headLen <= |m.buffer|
    ensures Enabled(u, Headers(r, a)) && Step(t, u, Headers(r, a)).log == u.log + [PassedOn(r)]
  {
  }

  lemma OpenerIsLetThrough(t: Table, r: Request, a: Answers)
    requires Opener(t, r)
    ensures LetThrough(t, r, a)
  {
    hide Passes, FindHandler, Routed;
  }

  /** Whatever the second request is, and whoever sends it: it is passed on without having been
      checked, refused or admitted. */
  lemma AnythingIsPassedOn(t: Table, r0: Request, r1: Request, a: Answers)
    requires Opener(t, r0) && r1.id == 1 && r1.headLen > 0
    ensures var es := Behind(r0, r1, a); var log := Run(t, es).log;
      && Legal(t, es) && log != [] && log[|log| - 1] == PassedOn(r1)
      && Admitted(r1) !in log && Replied(403, 1) !in log
  {
    hide Step, Enabled, Passes, Routed, LetThrough;
    var es, packet := Behind(r0, r1, a), Zeros(r0.headLen + r0.bodyLen + r1.headLen);
    assert es[..1] == [es[0]] && es[..2][..1] == es[..1] && es[..3][..2] == es[..2] && es[..4] == es;
    FirstPacket(t, packet, a);
    OpenerIsLetThrough(t, r0, a);
    var c1 := Run(t, es[..1]);
    LetThroughIsReported(t, c1, ForRead, r0, 0, packet, a);
    var c2 := Step(t, c1, es[1]);
    assert Run(t, es[..2]) == c2 && Legal(t, es[..2]);
    RouteIsServed(t, c2, r0, a);
    var c3 := Step(t, c2, es[2]);
    assert Run(t, es[..3]) == c3 && Legal(t, es[..3]);
    NextIsReported(t, c2, es[2].m, c3, r1, a);
    assert Run(t, es) == Step(t, c3, es[3]) && Legal(t, es);
    PacketLogs(t, packet, r0, a);
    assert c3.log == c2.log + [CustomRan(r0, r0.bodyLen)];
  }

  lemma PacketLogs(t: Table, packet: seq<byte>, r: Request, a: Answers)
    requires Opener(t, r)
    ensures var c := Run(t, [Event.Data(packet, a)]);
            c.loop.Parsing? && OnHeaders(t, c, r, a).log == [Admitted(r)] && Step(t, c, Headers(r, a)) == OnHeaders(t, c, r, a)
  {
    var es := [Event.Data(packet, a)];
    assert es[..0] == [] && Run(t, []) == Accepted();
    NamedMeansGuarded(t, r.uri);
    hide Guarded, Passes, FindHandler, FindRoute;
  }

  /** So custom handlers are safe behind the check, in every run and whatever is sent, if and
      only if no request both passes it and belongs to a route. */
  lemma NothingIsPassedOnIff(t: Table)
    ensures (forall es :: Legal(t, es) ==> PassedOns(Run(t, es).log) == 0)
            <==> (forall r :: Passes(t, r) ==> !Routed(t, r))
  {
    hide Passes, Routed, Run, Legal;
    if forall r :: Passes(t, r) ==> !Routed(t, r) {
      forall es | Legal(t, es)
        ensures PassedOns(Run(t, es).log) == 0
      {
        NothingPassedOn(t, es);
      }
    } else {
      var r :| Passes(t, r) && Routed(t, r);
      var r0 := r.(id := 0, isPost := false, chunked := false, headLen := 1);
      SameCheck(t, r, r0);
      var r1 := r0.(id := 1, level := None);
      var a := Answers(false, false, false, false, false);
      var es := Behind(r0, r1, a);
      AnythingIsPassedOn(t, r0, r1, a);
      var log := Run(t, es).log;
      assert PassedOns(log) > 0;
    }
  }

  lemma SameCheck(t: Table, r: Request, r0: Request)
    requires r0 == r.(id := r0.id, isPost := r0.isPost, chunked := r0.chunked, headLen := r0.headLen)
    ensures Passes(t, r0) == Passes(t, r) && Routed(t, r0) == Routed(t, r)
  {
    hide FindHandler, FindRoute;
  }

  lemma NothingPassedOn(t: Table, es: seq<Event>)
    requires Legal(t, es) && forall r :: Passes(t, r) ==> !Routed(t, r)
    ensures PassedOns(Run(t, es).log) == 0
  {
    hide Passes, Routed, Run, Legal;
    var log := Run(t, es).log;
    if PassedOns(log) > 0 {
      var k := SomePassedOn(log);
      HandOverNeedsAdmission(t, es, k);
    }
  }

  lemma {:induction false} SomePassedOn(log: seq<Effect>) returns (k: nat)
    requires PassedOns(log) > 0
    ensures k < |log| && log[k].PassedOn?
    decreases |log|
  {
    if log[|log| - 1].PassedOn? {
      k := |log| - 1;
    } else {
      k := SomePassedOn(log[..|log| - 1]);
    }
  }

  /** A device with a custom route for everybody, and settings that take level 7. */
  function RouteTable(): Table {
    Table([Handler("security", Kind.Data, 7, 7, true)], [Route("/custom", 0, 0)])
  }

  /** A stranger's request for the passwords, behind one of a user for the route. */
  function ByUser(headLen: nat): Request {
    Request(0, false, "/custom", headLen, 0, false, Some(3))
  }

  function ByStranger(headLen: nat): Request {
    Request(1, false, "/api/security", headLen, 0, false, None)
  }

  lemma StrangerIsRefused(headLen: nat)
    ensures var t, r1 := RouteTable(), ByStranger(headLen); Guarded(t, r1.uri) && !Passes(t, r1)
  {
    hide MgMatch, FindHandler, FindRoute;
    assert "/api/" <= "/api/security" && "/api/" + "#" == "/api/#";
    PrefixMatch("/api/security", "/api/");
  }

  lemma UserIsRouted(headLen: nat)
    requires headLen > 0
    ensures Opener(RouteTable(), ByUser(headLen))
  {
    hide MgMatch;
    LiteralMatch("/custom", "/custom");
    assert |"/custom"| == 7 && "/custom"[1] != "/api/ok"[1];
  }

  /** On a connection of its own it is refused, here it is passed on. */
  lemma StrangerIsPassedOn(headLen: nat, a: Answers)
    requires headLen > 0
    ensures var t, r0, r1 := RouteTable(), ByUser(headLen), ByStranger(headLen); var es := Behind(r0, r1, a);
      && Guarded(t, r1.uri) && !Passes(t, r1) && Opener(t, r0)
      && Legal(t, es) && PassedOn(r1) in Run(t, es).log && Replied(403, 1) !in Run(t, es).log
  {
    hide Run, Legal, Behind, Passes, Guarded, Opener, RouteTable;
    StrangerIsRefused(headLen);
    UserIsRouted(headLen);
    AnythingIsPassedOn(RouteTable(), ByUser(headLen), ByStranger(headLen), a);
  }

  // ------------------------------------------------------------ marked for a websocket

  /** A request for an API of type websocket, as the first of a connection. */
  predicate Socket(t: Table, r: Request) {
    && r.id == 0 && !r.isPost && !r.chunked && r.headLen > 0 && Passes(t, r)
    && !BuiltIn(r.uri) && FindRoute(t.routes, r.uri).None?
    && (var h := FindHandler(t.handlers, r.uri); h.Some? && h.value.kind == Websocket)
  }

  /** A complete request that is not chunked. */
  function Complete(r: Request, packet: seq<byte>): Delivery {
    Delivery(r.bodyLen, r.headLen + r.bodyLen, packet)
  }

  /** It and any other request in one packet; the upgrade is refused. */
  function Pipelined(r0: Request, r1: Request, a: Answers): seq<Event> {
    var packet := Zeros(r0.headLen + r0.bodyLen + r1.headLen + r1.bodyLen);
    [Event.Data(packet, a), Headers(r0, a), Message(r0, Complete(r0, packet), a), Headers(r1, a),
     Message(r1, Complete(r1, packet), a)]
  }

  lemma SocketIsRefused(t: Table, c: Conn, r: Request, a: Answers)
    requires c.loop == Parsing(ForRead, 0, true) && c.request == Some(r) && r.headLen + r.bodyLen <= |c.recv|
    requires c.mode == Idle && c.owner == HttpHandler && !c.websocket && Socket(t, r) && !a.upgraded
    ensures var m := Complete(r, c.recv);
      && Enabled(c, Message(r, m, a))
      && var u := Step(t, c, Message(r, m, a));
         u == Taken(c, m).(mode := Marked, responding := false, parser := false, draining := true, log := u.log)
         && u.log == c.log + [Replied(426, r.id)]
  {
    hide Passes, FindHandler, FindRoute, MgMatch, Taken;
    BuiltInsMatchThemselves(r.uri);
    TakenLogs(c, Complete(r, c.recv));
  }

  lemma TakenLogs(c: Conn, m: Delivery)
    requires c.loop.Parsing?
    ensures Taken(c, m).log == c.log
  {
  }

  /** A marked connection stays as it is, through the report and the message of a request. */
  lemma MarkedIgnores(t: Table, c: Conn, r: Request, a: Answers)
    requires c.loop.Parsing? && !c.loop.reported && !c.responding && c.mode == Marked && c.owner == HttpHandler
    requires c.request == None && r.id == c.served && !r.chunked && r.headLen > 0 && c.loop.cause == ForRead
    requires c.loop.ofs + r.headLen + r.bodyLen <= |c.recv|
    ensures Enabled(c, Headers(r, a))
    ensures var u := Step(t, c, Headers(r, a)); var v := Step(t, u, Message(r, Complete(r, c.recv), a));
      && Enabled(u, Message(r, Complete(r, c.recv), a))
      && v.mode == Marked && v.owner == HttpHandler && v.log == c.log && v.served == c.served + 1
  {
  }

  /** The second request is never answered: not when it is complete, and not by anything that
      may come later. */
  lemma PipelinedIsNeverAnswered(t: Table, r0: Request, r1: Request, a: Answers, more: seq<Event>)
    requires Socket(t, r0) && !a.upgraded && r1.id == 1 && r1.headLen > 0 && !r1.chunked
    ensures var es := Pipelined(r0, r1, a);
      && Legal(t, es) && Run(t, es).served == 2 && Answered(Run(t, es).log, 1) == 0
      && (Legal(t, es + more) ==> Answered(Run(t, es + more).log, 1) == 0)
  {
    hide Step, Enabled, Passes, LetThrough, Socket, Answered, Executed;
    var es, packet := Pipelined(r0, r1, a), Zeros(r0.headLen + r0.bodyLen + r1.headLen + r1.bodyLen);
    assert es[..1] == [es[0]] && es[..2][..1] == es[..1] && es[..3][..2] == es[..2] && es[..4][..3] == es[..3] && es[..5] == es;
    FirstPacket(t, packet, a);
    SocketIsLetThrough(t, r0, a);
    var c1 := Run(t, es[..1]);
    LetThroughIsReported(t, c1, ForRead, r0, 0, packet, a);
    var c2 := Step(t, c1, es[1]);
    assert Run(t, es[..2]) == c2 && Legal(t, es[..2]);
    SocketIsRefused(t, c2, r0, a);
    var c3 := Step(t, c2, es[2]);
    assert Run(t, es[..3]) == c3 && Legal(t, es[..3]);
    MarkedIgnores(t, c3, r1, a);
    var c4 := Step(t, c3, es[3]);
    assert Run(t, es[..4]) == c4 && Legal(t, es[..4]);
    assert Run(t, es) == Step(t, c4, es[4]) && Legal(t, es);
    NotYetAnswered(t, es[..3], r1.id);
    if Legal(t, es + more) {
      CompletedIsFinal(t, es, more, 1);
    }
  }

  lemma SocketIsLetThrough(t: Table, r: Request, a: Answers)
    requires Socket(t, r)
    ensures LetThrough(t, r, a) && r.headLen > 0 && r.id == 0 && !r.isPost
  {
    hide Passes, FindHandler, FindRoute;
  }

  lemma NotYetAnswered(t: Table, es: seq<Event>, id: nat)
    requires Legal(t, es) && Run(t, es).served == id && Run(t, es).mode == Marked && Run(t, es).loop.Parsing?
    ensures Answered(Run(t, es).log, id) == 0
  {
    EveryRunKeepsTheLedger(t, es, id);
    hide Run, Answered, Executed, Refused, Firmware;
  }
}
