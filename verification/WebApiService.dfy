/**
 What becomes of an admitted request, endpoint by endpoint, told from the table and the log: the
 effects in their order, with the codes of the answers, and the state of the connection.
 */
module WebApiService {
  import opened Common
  import opened Routing
  import opened Glob
  import opened WebApi
  import opened WebApiRuns
  import opened WebApiAnswers
  import opened WebApiAccess
  import Upload

  /** The step had these effects and no others. */
  predicate Appends(c: Conn, u: Conn, es: seq<Effect>) {
    u.log == c.log + es
  }

  /** A message on a connection of this handler, whose request was not refused. */
  predicate Serving(t: Table, es: seq<Event>, r: Request, m: Delivery, a: Answers) {
    && Legal(t, es) && Enabled(Run(t, es), Message(r, m, a))
    && Attends(Run(t, es)) && Run(t, es).mode == Idle
  }

  /** No endpoint of the server's own, and no custom route. */
  predicate Plain(t: Table, uri: string) {
    !BuiltIn(uri) && forall i :: 0 <= i < |t.routes| ==> !MgMatch(uri, t.routes[i].pattern)
  }

  lemma ServingIsDispatch(t: Table, es: seq<Event>, r: Request, m: Delivery, a: Answers)
    requires Serving(t, es, r, m, a)
    ensures var c := Run(t, es);
      && c.loop.Parsing? && Step(t, c, Message(r, m, a)) == Dispatch(t, Taken(c, m), r, m.body, a)
      && Taken(c, m).log == c.log && Taken(c, m).owner == HttpHandler && Taken(c, m).mode == Idle
      && Taken(c, m).websocket == c.websocket == false && Taken(c, m).responding
  {
    hide Run, Dispatch, Legal;
  }

  /** The server's own endpoints. */
  lemma BuiltInsAreServed(t: Table, es: seq<Event>, r: Request, m: Delivery, a: Answers)
    requires Serving(t, es, r, m, a) && BuiltIn(r.uri)
    ensures var c, u := Run(t, es), Step(t, Run(t, es), Message(r, m, a));
      && (r.uri != "/websocket" ==>
            Appends(c, u, [Replied(if r.uri == "/api/logout" then 401 else 200, r.id)])
            && u.mode == Idle && u.owner == HttpHandler && u.parser == c.parser && !u.responding)
      && (r.uri == "/websocket" && a.upgraded ==>
            Appends(c, u, []) && u.websocket && !u.parser && !u.responding && u.draining == c.draining && u.mode == Idle)
      && (r.uri == "/websocket" && !a.upgraded ==>
            Appends(c, u, [Replied(426, r.id)]) && !u.websocket && !u.parser && u.draining && u.mode == Idle)
  {
    hide Run, Step, Dispatch, Taken, Enabled;
    ServingIsDispatch(t, es, r, m, a);
    BuiltInIsServed(t, Taken(Run(t, es), m), r, m.body, a);
    TakenKeeps(Run(t, es), m);
  }

  lemma TakenKeeps(c: Conn, m: Delivery)
    requires c.loop.Parsing?
    ensures Taken(c, m).parser == c.parser && Taken(c, m).draining == c.draining
  {
  }

  lemma BuiltInIsServed(t: Table, c: Conn, r: Request, n: nat, a: Answers)
    requires BuiltIn(r.uri) && c.mode == Idle && c.owner == HttpHandler && !c.websocket
    ensures var u := Dispatch(t, c, r, n, a);
      && (r.uri != "/websocket" ==>
            Appends(c, u, [Replied(if r.uri == "/api/logout" then 401 else 200, r.id)])
            && u.mode == Idle && u.owner == HttpHandler && u.parser == c.parser && !u.responding)
      && (r.uri == "/websocket" && a.upgraded ==>
            Appends(c, u, []) && u.websocket && !u.parser && !u.responding && u.draining == c.draining && u.mode == Idle)
      && (r.uri == "/websocket" && !a.upgraded ==>
            Appends(c, u, [Replied(426, r.id)]) && !u.websocket && !u.parser && u.draining && u.mode == Idle)
  {
    hide FindHandler, FindRoute, MgMatch, ApiCall;
    BuiltInsMatchThemselves(r.uri);
    BuiltInsDiffer();
    assert c.log + [] == c.log;
  }

  /** A custom route: its handler runs, with the whole body, and owns the connection from then on. */
  lemma RoutesAreServed(t: Table, es: seq<Event>, r: Request, m: Delivery, a: Answers)
    requires Serving(t, es, r, m, a) && !BuiltIn(r.uri)
    requires exists i :: 0 <= i < |t.routes| && MgMatch(r.uri, t.routes[i].pattern)
    ensures var c, u := Run(t, es), Step(t, Run(t, es), Message(r, m, a));
            Appends(c, u, [CustomRan(r, m.body)]) && u.owner == CustomHandler && !u.responding && u.mode == Idle
  {
    FirstMatchIsFound(t.routes, r.uri);
    hide Run, Step, Taken, Enabled, FindHandler, FindRoute, MgMatch, ApiCall, Legal;
    ServingIsDispatch(t, es, r, m, a);
    BuiltInsMatchThemselves(r.uri);
  }

  /** What an API of the handler's type does with a body of `n` bytes. */
  predicate ServedBy(c: Conn, u: Conn, h: Handler, r: Request, n: nat, a: Answers) {
    && (h.kind == Kind.Data ==> Appends(c, u, (if n > 0 && h.settable then [SetterRan(r, n)] else []) + [Replied(200, r.id)]))
    && (h.kind == Array ==>
          Appends(c, u, (if n > 0 && h.settable && a.itemExists then [SetterRan(r, n)] else []) + [Replied(200, r.id)]))
    && (h.kind == Action && n == 0 ==> Appends(c, u, [Replied(200, r.id)]))
    && (h.kind == Action && n > 0 && a.running ==>
          Appends(c, u, [StarterRan(r, n)]) && u.mode == ActionPending(r.id) && u.responding)
    && (h.kind == Action && n > 0 && !a.running ==> Appends(c, u, [StarterRan(r, n), Replied(200, r.id)]))
    && (h.kind == File ==> Appends(c, u, []) && u.owner == FileStreamer && u.responding)
    && (h.kind == Custom ==> Appends(c, u, [CustomRan(r, n)]) && !u.responding)
    && (h.kind == Websocket && a.upgraded ==> Appends(c, u, []) && u.websocket && u.mode == Marked && !u.parser)
    && (h.kind == Websocket && !a.upgraded ==>
          Appends(c, u, [Replied(426, r.id)]) && !u.websocket && u.mode == Marked && !u.parser && u.draining)
    && (h.kind == Ota || h.kind == Unknown ==> Appends(c, u, [Replied(500, r.id)]))
    && (h.kind != File ==> u.owner == HttpHandler)
    && (h.kind != Websocket && !(h.kind == Action && n > 0 && a.running) ==> u.mode == Idle)
  }

  lemma ApiCallServesBy(c: Conn, h: Handler, r: Request, n: nat, a: Answers)
    requires c.mode == Idle && c.owner == HttpHandler && !c.websocket && c.responding
    ensures ServedBy(c, ApiCall(c, h, r, n, a), h, r, n, a)
  {
    match h.kind {
      case Data =>
        EffectsJoin(c.log, SetterRan(r, n), Replied(200, r.id));
      case Array =>
        EffectsJoin(c.log, SetterRan(r, n), Replied(200, r.id));
      case Action =>
        EffectsJoin(c.log, StarterRan(r, n), Replied(200, r.id));
      case File =>
        EffectsJoin(c.log, Replied(200, r.id), Replied(200, r.id));
      case Websocket =>
        EffectsJoin(c.log, Replied(426, r.id), Replied(200, r.id));
      case _ =>
    }
  }

  lemma EffectsJoin(log: seq<Effect>, e: Effect, f: Effect)
    ensures log + [e] + [f] == log + [e, f] == log + ([e] + [f])
    ensures log + ([] + [f]) == log + [f] && log + [] == log
  {
  }

  /** An API: the handler whose name is the first segment behind `/api/`. */
  lemma ApisAreServed(t: Table, es: seq<Event>, r: Request, m: Delivery, a: Answers, h: Handler)
    requires Serving(t, es, r, m, a) && Plain(t, r.uri) && WellNamed(t.handlers) && h in t.handlers && Addressed(h, r.uri)
    ensures ServedBy(Run(t, es), Step(t, Run(t, es), Message(r, m, a)), h, r, m.body, a)
  {
    FirstMatchIsFound(t.routes, r.uri);
    HandlerIsAddressed(t.handlers, r.uri, h);
    hide Run, Step, Taken, Enabled, FindHandler, FindRoute, MgMatch, ApiCall, Legal, Addressed, WellNamed, ServedBy;
    ServingIsDispatch(t, es, r, m, a);
    BuiltInsMatchThemselves(r.uri);
    ApiCallServesBy(Taken(Run(t, es), m), h, r, m.body, a);
    SameLog(Run(t, es), Taken(Run(t, es), m), Step(t, Run(t, es), Message(r, m, a)), h, r, m.body, a);
  }

  lemma SameLog(c: Conn, d: Conn, u: Conn, h: Handler, r: Request, n: nat, a: Answers)
    requires ServedBy(d, u, h, r, n, a) && d.log == c.log
    ensures ServedBy(c, u, h, r, n, a)
  {
  }

  /** Anything else is a page. */
  lemma PagesAreServed(t: Table, es: seq<Event>, r: Request, m: Delivery, a: Answers)
    requires Serving(t, es, r, m, a) && Plain(t, r.uri) && WellNamed(t.handlers)
    requires forall h :: h in t.handlers ==> !Addressed(h, r.uri)
    ensures var c, u := Run(t, es), Step(t, Run(t, es), Message(r, m, a));
            Appends(c, u, [Replied(200, r.id)]) && u.mode == Idle && u.owner == HttpHandler && u.parser == c.parser
  {
    FirstMatchIsFound(t.routes, r.uri);
    if FindHandler(t.handlers, r.uri).Some? {
      HandlerIsAddressed(t.handlers, r.uri, FindHandler(t.handlers, r.uri).value);
    }
    hide Run, Step, Taken, Enabled, FindHandler, FindRoute, MgMatch, ApiCall, Legal, Addressed, WellNamed;
    ServingIsDispatch(t, es, r, m, a);
    TakenKeeps(Run(t, es), m);
    BuiltInsMatchThemselves(r.uri);
  }

  /** The end of an action is answered with 200, at the poll that finds it ended. */
  lemma ActionsAreAnswered(t: Table, es: seq<Event>, a: Answers)
    requires Legal(t, es) && Run(t, es).mode.ActionPending? && Run(t, es).owner == HttpHandler && !Run(t, es).websocket
    requires Run(t, es).loop.Parsing? && Run(t, es).loop.cause == ForPoll
    ensures var c := Run(t, es); var u := Step(t, c, LoopEnd(a));
      && Enabled(c, LoopEnd(a))
      && (if a.running then Appends(c, u, []) && u.mode == c.mode
          else Appends(c, u, [Replied(200, c.mode.id)]) && u.mode == Idle && !u.responding)
  {
    hide Run, Drop;
    assert Run(t, es).log + [] == Run(t, es).log;
  }

  /** Headers that begin an upload: a POST to a file API, or to a firmware API whose opener agrees. */
  ghost predicate Begins(t: Table, r: Request, a: Answers) {
    r.isPost && exists h :: h in t.handlers && Addressed(h, r.uri) && (h.kind == File || (h.kind == Ota && a.granted))
  }

  ghost predicate Declined(t: Table, r: Request, a: Answers) {
    r.isPost && exists h :: h in t.handlers && Addressed(h, r.uri) && h.kind == Ota && !a.granted
  }

  /** The headers of a request that is not refused: an upload begins if and only if they ask for
      one, and then it has the buffer to itself; otherwise, but for firmware that is turned down,
      they are noted as admitted, if they need to be, and nothing else happens. */
  lemma UploadsBeginIff(t: Table, es: seq<Event>, r: Request, a: Answers)
    requires Legal(t, es) && WellNamed(t.handlers) && Enabled(Run(t, es), Headers(r, a))
    requires Attends(Run(t, es)) && Run(t, es).mode == Idle && (Protected(t, r.uri) ==> Allowed(t, r, r.bodyLen))
    ensures var c, u := Run(t, es), Step(t, Run(t, es), Headers(r, a));
      && (Begins(t, r, a) <==> u.loop.Returned?)
      && (Begins(t, r, a) ==> !u.parser && c.log + [Admitted(r)] + (if a.granted then [Opened(r.id)] else []) <= u.log)
      && (!Begins(t, r, a) && !Declined(t, r, a) ==>
            Appends(c, u, if Protected(t, r.uri) then [Admitted(r)] else [])
            && u.recv == c.recv && u.parser == c.parser && u.mode == Idle)
  {
    GuardedIffProtected(t, r.uri);
    PassesIffAllowed(t, r, r.bodyLen);
    PassesIsTheCheck(t, r);
    forall h
      ensures FindHandler(t.handlers, r.uri) == Some(h) <==> h in t.handlers && Addressed(h, r.uri)
    {
      HandlerIsAddressed(t.handlers, r.uri, h);
    }
    if FindHandler(t.handlers, r.uri).Some? {
      NamedMeansGuarded(t, r.uri);
    }
    hide Run, Step, OnHeaders, Legal, Guarded, Protected, Passes, PassesWith, Allowed, Addressed, FindHandler, WellNamed;
    HeadersAreStepped(t, Run(t, es), r, a);
    HeadersBegin(t, Run(t, es), r, a);
  }

  lemma HeadersAreStepped(t: Table, c: Conn, r: Request, a: Answers)
    requires Enabled(c, Headers(r, a))
    ensures c.loop.Parsing? && Step(t, c, Headers(r, a)) == OnHeaders(t, c, r, a)
  {
    hide OnHeaders;
  }

  lemma HeadersBegin(t: Table, c: Conn, r: Request, a: Answers)
    requires c.loop.Parsing? && c.owner == HttpHandler && !c.websocket && c.mode == Idle
    requires (Guarded(t, r.uri) ==> Passes(t, r)) && (FindHandler(t.handlers, r.uri).Some? ==> Guarded(t, r.uri))
    ensures var u, h := OnHeaders(t, c, r, a), FindHandler(t.handlers, r.uri);
            var begins := r.isPost && h.Some? && (h.value.kind == File || (h.value.kind == Ota && a.granted));
      && (begins <==> u.loop.Returned?)
      && (begins ==> !u.parser && c.log + [Admitted(r)] + (if a.granted then [Opened(r.id)] else []) <= u.log)
      && (!begins && !(r.isPost && h.Some? && h.value.kind == Ota) ==>
            Appends(c, u, if Guarded(t, r.uri) then [Admitted(r)] else [])
            && u.recv == c.recv && u.parser == c.parser && u.mode == Idle)
  {
    hide Guarded, Passes, FindHandler, UploadRead, Drop;
    assert c.log + [] == c.log;
    var b := Log(Reported(c, r), Admitted(r));
    ReadKeepsLog(BeginUpload(b, true, r, a.granted), a.writerOk);
    ReadKeepsLog(BeginUpload(b, false, r, a.granted), a.writerOk);
    assert c.log + [Admitted(r)] + [] == c.log + [Admitted(r)];
  }

  lemma ReadKeepsLog(c: Conn, ok: bool)
    requires c.mode.Uploading?
    ensures var u := UploadRead(c, ok); c.log <= u.log && u.loop == c.loop && u.parser == c.parser
  {
    hide Upload.ReadStep, PassOnBytes, EndUpload;
    var s := Upload.ReadStep(c.mode.received, c.mode.req.bodyLen, c.recv, ok);
    PassOnKeepsLog(c, s);
    EndKeepsLog(PassOnBytes(c, s), 200);
    EndKeepsLog(PassOnBytes(c, s), 400);
  }

  lemma PassOnKeepsLog(c: Conn, s: Upload.Step)
    requires c.mode.Uploading?
    ensures var u := PassOnBytes(c, s); u.mode.Uploading? && c.log <= u.log && u.loop == c.loop && u.parser == c.parser
  {
  }

  lemma EndKeepsLog(c: Conn, code: nat)
    requires c.mode.Uploading?
    ensures var u := EndUpload(c, code); c.log <= u.log && u.loop == c.loop && u.parser == c.parser
  {
  }

  /** A firmware upload that its opener turns down is answered with 400, and the connection drains. */
  lemma DeclinedFirmwareIsAnswered(t: Table, es: seq<Event>, r: Request, a: Answers)
    requires Legal(t, es) && Enabled(Run(t, es), Headers(r, a)) && Attends(Run(t, es)) && Run(t, es).mode == Idle
    requires Firmware(t, r) && Passes(t, r) && !a.granted
    ensures var c, u := Run(t, es), Step(t, Run(t, es), Headers(r, a));
            Appends(c, u, [Admitted(r), Replied(400, r.id)]) && u.draining && u.mode == Idle && u.loop.Parsing?
  {
    NamedMeansGuarded(t, r.uri);
    hide Run, Guarded, Passes, FindHandler, UploadRead;
  }

  /** On a connection that drains, a poll does not set the parser to work. */
  lemma DrainingPollsReportNothing(t: Table, es: seq<Event>, a: Answers)
    requires Legal(t, es) && Enabled(Run(t, es), Poll(a)) && Run(t, es).draining
    ensures Step(t, Run(t, es), Poll(a)).loop.Resting?
  {
    hide Run;
  }

  /** Whatever stands behind the last message may be reported next. */
  ghost predicate GoesOn(u: Conn) {
    forall r: Request, a: Answers ::
      r.id == u.served && 0 < r.headLen && u.loop.Parsing? && u.loop.ofs + r.headLen <= |u.recv| ==>
        Enabled(u, Headers(r, a))
  }

  /** With its message a refused request is over: nothing more is done, and the connection
      attends to the next one. */
  lemma RefusedRequestEnds(t: Table, es: seq<Event>, r: Request, m: Delivery, a: Answers)
    requires Legal(t, es) && Enabled(Run(t, es), Message(r, m, a))
    requires Run(t, es).owner == HttpHandler && Run(t, es).mode == Denied
    ensures var c, u := Run(t, es), Step(t, Run(t, es), Message(r, m, a));
            Appends(c, u, []) && u.mode == Idle && u.owner == HttpHandler && u.served == c.served + 1 && GoesOn(u)
  {
    hide Run, Legal, Dispatch;
    assert Run(t, es).log + [] == Run(t, es).log;
  }

  /** A request that is passed on leaves the connection to its owner, and the next one is passed
      on as well. */
  lemma PassedOnRequestEnds(t: Table, es: seq<Event>, r: Request, m: Delivery, a: Answers)
    requires Legal(t, es) && Enabled(Run(t, es), Message(r, m, a)) && Run(t, es).owner == CustomHandler
    ensures var c, u := Run(t, es), Step(t, Run(t, es), Message(r, m, a));
            Appends(c, u, [PassedOn(r)]) && u.mode == c.mode && u.owner == CustomHandler && GoesOn(u)
  {
    hide Run, Legal, Dispatch;
  }
}
