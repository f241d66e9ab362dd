/**
 Completed requests: each is answered exactly once, unless its answer is left to somebody
 else, and what it asks for is done exactly once.
 */
module WebApiAnswers {
  import opened Common
  import opened Routing
  import opened Glob
  import opened WebApi
  import opened WebApiRuns
  import opened WebApiRefusals
  import Upload

  function Answered(log: seq<Effect>, id: nat): nat {
    if log == [] then 0
    else
      var e := log[|log| - 1];
      Answered(log[..|log| - 1], id) + (if e.Replied? && e.id == id then 1 else 0)
  }

  /** Setters, action starters and custom handlers that ran for a request. */
  predicate Execution(e: Effect, id: nat) {
    (e.SetterRan? || e.StarterRan? || e.CustomRan?) && e.req.id == id
  }

  function Executed(log: seq<Effect>, id: nat): nat {
    if log == [] then 0
    else Executed(log[..|log| - 1], id) + (if Execution(log[|log| - 1], id) then 1 else 0)
  }

  lemma Snoc(log: seq<Effect>, e: Effect, id: nat)
    ensures Answered(log + [e], id) == Answered(log, id) + (if e.Replied? && e.id == id then 1 else 0)
    ensures Executed(log + [e], id) == Executed(log, id) + (if Execution(e, id) then 1 else 0)
  {
    assert (log + [e])[..|log|] == log;
  }

  // --------------------------------------------------- what a request asks for

  /** The endpoints that the handler serves itself, whatever the table says. */
  predicate BuiltIn(uri: string) {
    uri == "/api/login" || uri == "/api/logout" || uri == "/api/ok" || uri == "/websocket" || uri == "/api/heartbeat"
  }

  /** A custom handler is called, or a body is sent to something it can change. */
  predicate HandlerRuns(h: Handler, n: nat, itemExists: bool) {
    match h.kind
    case Custom => true
    case Action => n > 0
    case Data => n > 0 && h.settable
    case Array => n > 0 && h.settable && itemExists
    case _ => false
  }

  /** The answer is left to the custom handler, to the file streamer, to the websocket
      protocol, or to the end of an action. */
  predicate HandlerDefers(h: Handler, n: nat, a: Answers) {
    match h.kind
    case Custom => true
    case File => true
    case Websocket => a.upgraded
    case Action => n > 0 && a.running
    case _ => false
  }

  /** For a body of `n` bytes. */
  predicate Runs(t: Table, r: Request, n: nat, itemExists: bool) {
    var h := FindHandler(t.handlers, r.uri);
    !BuiltIn(r.uri) && (FindRoute(t.routes, r.uri).Some? || (h.Some? && HandlerRuns(h.value, n, itemExists)))
  }

  predicate Defers(t: Table, r: Request, n: nat, a: Answers) {
    var h := FindHandler(t.handlers, r.uri);
    if BuiltIn(r.uri) then r.uri == "/websocket" && a.upgraded
    else FindRoute(t.routes, r.uri).Some? || (h.Some? && HandlerDefers(h.value, n, a))
  }

  /** An upload of firmware, which its opener may turn down with an answer of its own. */
  predicate Firmware(t: Table, r: Request) {
    var h := FindHandler(t.handlers, r.uri);
    r.isPost && h.Some? && h.value.kind == Ota
  }

  // ------------------------------------------------------------------ the deltas

  /** From `c` to `u`: `x` answers and `y` executions more for request `id`. */
  predicate Adds(c: Conn, u: Conn, id: nat, x: nat, y: nat) {
    Answered(u.log, id) == Answered(c.log, id) + x && Executed(u.log, id) == Executed(c.log, id) + y
  }

  /** Serving `r` changes nothing else that the books are kept on. */
  predicate Quiet(c: Conn, u: Conn, r: Request) {
    u.request == c.request && u.served == c.served && (u.mode == c.mode || u.mode == ActionPending(r.id) || u.mode == Marked)
  }

  /** `u` follows `c` with `x` answers and `y` executions more for request `id`. */
  predicate Serves(c: Conn, u: Conn, r: Request, id: nat, x: nat, y: nat) {
    Adds(c, u, id, x, y) && Quiet(c, u, r)
  }

  lemma LogAdds(c: Conn, e: Effect, id: nat)
    ensures Adds(c, Log(c, e), id, if e.Replied? && e.id == id then 1 else 0, if Execution(e, id) then 1 else 0)
  {
    Snoc(c.log, e, id);
  }

  lemma LogServes(c: Conn, u: Conn, e: Effect, r: Request, id: nat, x: nat, y: nat)
    requires Serves(c, u, r, id, x, y) && !e.Replied?
    ensures Serves(c, Log(u, e), r, id, x, y + if Execution(e, id) then 1 else 0)
    ensures Serves(c, Log(u, e).(responding := false), r, id, x, y + if Execution(e, id) then 1 else 0)
    ensures Serves(c, Log(u, e).(owner := CustomHandler, responding := false), r, id, x, y + if Execution(e, id) then 1 else 0)
    ensures Serves(c, Log(u, e).(mode := ActionPending(r.id)), r, id, x, y + if Execution(e, id) then 1 else 0)
  {
    hide Answered, Executed, Execution;
    Snoc(u.log, e, id);
  }

  lemma ReplyServes(c: Conn, u: Conn, code: nat, r: Request, id: nat, x: nat, y: nat)
    requires Serves(c, u, r, id, x, y)
    ensures Serves(c, Reply(u, code, r.id), r, id, x + if r.id == id then 1 else 0, y)
  {
    hide Answered, Executed;
    Snoc(u.log, Replied(code, r.id), id);
  }

  lemma NothingServes(c: Conn, r: Request, id: nat)
    ensures Serves(c, c, r, id, 0, 0)
    ensures Serves(c, c.(owner := FileStreamer), r, id, 0, 0)
  {
  }

  lemma UpgradeServes(c: Conn, r: Request, a: Answers, id: nat)
    ensures var x := if r.id == id && !a.upgraded then 1 else 0;
            Serves(c, Upgrade(c, r, a), r, id, x, 0) && Serves(c, Upgrade(c, r, a).(mode := Marked), r, id, x, 0)
  {
    hide Answered, Executed;
    NothingServes(c, r, id);
    ReplyServes(c, c, 426, r, id, 0, 0);
  }

  lemma ApiCallServes(c: Conn, h: Handler, r: Request, n: nat, a: Answers, id: nat)
    ensures var mine := r.id == id;
            Serves(c, ApiCall(c, h, r, n, a), r, id,
                   if mine && !HandlerDefers(h, n, a) then 1 else 0,
                   if mine && HandlerRuns(h, n, a.itemExists) then 1 else 0)
  {
    hide Serves, Log, Reply, Upgrade;
    NothingServes(c, r, id);
    var y := if r.id == id then 1 else 0;
    match h.kind {
      case Action =>
        LogServes(c, c, StarterRan(r, n), r, id, 0, 0);
        ReplyServes(c, c, 200, r, id, 0, 0);
        ReplyServes(c, Log(c, StarterRan(r, n)), 200, r, id, 0, y);
      case Custom =>
        LogServes(c, c, CustomRan(r, n), r, id, 0, 0);
      case File =>
      case Websocket =>
        UpgradeServes(c, r, a, id);
      case _ =>
        LogServes(c, c, SetterRan(r, n), r, id, 0, 0);
        ReplyServes(c, c, if h.kind == Kind.Data || h.kind == Kind.Array then 200 else 500, r, id, 0, 0);
        ReplyServes(c, Log(c, SetterRan(r, n)), 200, r, id, 0, y);
    }
  }

  lemma BuiltInsMatchThemselves(uri: string)
    ensures MgMatch(uri, "/api/login") <==> uri == "/api/login"
    ensures MgMatch(uri, "/api/logout") <==> uri == "/api/logout"
    ensures MgMatch(uri, "/api/ok") <==> uri == "/api/ok"
    ensures MgMatch(uri, "/websocket") <==> uri == "/websocket"
    ensures MgMatch(uri, "/api/heartbeat") <==> uri == "/api/heartbeat"
  {
    hide MgMatch;
    LiteralMatch(uri, "/api/login");
    LiteralMatch(uri, "/api/logout");
    LiteralMatch(uri, "/api/ok");
    LiteralMatch(uri, "/websocket");
    LiteralMatch(uri, "/api/heartbeat");
  }

  lemma BuiltInsDiffer()
    ensures "/api/login" != "/websocket" && "/api/logout" != "/websocket" && "/api/ok" != "/websocket"
  {
    assert "/api/login"[1] != "/websocket"[1];
    assert "/api/logout"[1] != "/websocket"[1];
    assert "/api/ok"[1] != "/websocket"[1];
  }

  lemma DispatchServes(t: Table, c: Conn, r: Request, n: nat, a: Answers, id: nat)
    ensures var mine := r.id == id;
            Serves(c, Dispatch(t, c, r, n, a), r, id,
                   if mine && !Defers(t, r, n, a) then 1 else 0, if mine && Runs(t, r, n, a.itemExists) then 1 else 0)
  {
    hide Serves, Log, Reply, FindHandler, FindRoute, MgMatch, ApiCall, Upgrade, HandlerRuns, HandlerDefers;
    BuiltInsMatchThemselves(r.uri);
    BuiltInsDiffer();
    NothingServes(c, r, id);
    LogServes(c, c, CustomRan(r, n), r, id, 0, 0);
    ReplyServes(c, c, 200, r, id, 0, 0);
    ReplyServes(c, c, 401, r, id, 0, 0);
    UpgradeServes(c, r, a, id);
    var h := FindHandler(t.handlers, r.uri);
    if h.Some? {
      ApiCallServes(c, h.value, r, n, a, id);
    }
  }

  // ------------------------------------------------------------------- whole runs

  /** The handler looks at what the parser reports on this connection. */
  predicate Attends(c: Conn) {
    c.owner == HttpHandler && !c.websocket && c.mode != Marked
  }

  /** A firmware upload that its opener has just turned down, with an answer of its own. */
  predicate TurnedDown(t: Table, c: Conn) {
    && c.loop.Parsing? && c.loop.reported && Attends(c) && c.mode == Idle
    && c.request.Some? && Firmware(t, c.request.value)
  }

  /** What a request that is not completed has got so far, by its number. */
  predicate Ledger(t: Table, c: Conn, id: nat) {
    && (c.request.Some? ==> c.request.value.id == c.served)
    && (c.mode.ActionPending? ==> c.mode.id < c.served)
    && (c.mode == Denied ==> c.request.Some? && c.owner == HttpHandler)
    && (c.request.Some? && c.owner == HttpHandler && c.mode != Marked ==>
          (c.mode == Denied <==> Refused(t, c.request.value)))
    && (id >= c.served ==> Executed(c.log, id) == 0)
    && (id > c.served ==> Answered(c.log, id) == 0)
    && (id == c.served && Open(c) && (c.request.Some? && Firmware(t, c.request.value) && Attends(c) ==> c.mode == Denied) ==>
          Answered(c.log, id) == if c.mode == Denied then 1 else 0)
    && (id == c.served && TurnedDown(t, c) ==> Answered(c.log, id) >= 1)
  }

  /** The request that comes next, or is being reported, may yet be completed. */
  predicate Open(c: Conn) {
    c.parser || c.loop.Parsing?
  }

  function Outstanding(c: Conn, id: nat): nat {
    if c.mode == ActionPending(id) then 1 else 0
  }

  /** Completed requests get nothing more, except the answer that was pending. */
  predicate Settled(c: Conn, u: Conn, id: nat) {
    && Answered(u.log, id) + Outstanding(u, id) == Answered(c.log, id) + Outstanding(c, id)
    && Executed(u.log, id) == Executed(c.log, id)
  }

  /** `u` follows `c` during an upload of request `r`: no execution, and answers to `r` only. */
  predicate Uploads(c: Conn, u: Conn, r: Request, id: nat) {
    && Executed(u.log, id) == Executed(c.log, id)
    && (r.id != id ==> Answered(u.log, id) == Answered(c.log, id))
    && u.served == c.served && u.request == c.request && u.parser == c.parser && u.loop == c.loop
    && (u.mode.Uploading? || u.mode == Idle) && u.owner == c.owner && u.websocket == c.websocket
  }

  lemma PassOnUploads(c: Conn, s: Upload.Step, id: nat)
    requires c.mode.Uploading?
    ensures Uploads(c, PassOnBytes(c, s), c.mode.req, id)
    ensures PassOnBytes(c, s).mode.Uploading? && PassOnBytes(c, s).mode.req == c.mode.req
  {
    hide Answered, Executed;
    if s.write.Some? {
      Snoc(c.log, Written(c.mode.req, c.mode.held, s.write.value), id);
    }
  }

  lemma EndUploads(c: Conn, code: nat, id: nat)
    requires c.mode.Uploading?
    ensures Uploads(c, EndUpload(c, code), c.mode.req, id)
  {
    hide Answered, Executed;
    var e := Replied(code, c.mode.req.id);
    Snoc(c.log, e, id);
    Snoc(c.log + [e], Released(c.mode.req.id), id);
  }

  lemma UploadReadUploads(c: Conn, ok: bool, id: nat)
    requires c.mode.Uploading?
    ensures Uploads(c, UploadRead(c, ok), c.mode.req, id)
  {
    hide Answered, Executed, Upload.ReadStep, PassOnBytes, EndUpload;
    var s := Upload.ReadStep(c.mode.received, c.mode.req.bodyLen, c.recv, ok);
    PassOnUploads(c, s, id);
    EndUploads(PassOnBytes(c, s), if s.outcome == Upload.Done then 200 else 400, id);
  }

  /** Starting an upload: either the buffer is taken over, or the request is left to its
      message, with one answer if it is an upload of firmware. */
  predicate Begins(t: Table, c: Conn, u: Conn, r: Request, id: nat) {
    && Executed(u.log, id) == Executed(c.log, id)
    && (r.id != id ==> Answered(u.log, id) == Answered(c.log, id))
    && u.served == c.served && u.request == c.request && u.owner == c.owner && u.websocket == c.websocket
    && (u.mode.Uploading? || u.mode == Idle)
    && (Open(u) ==>
          && u.mode == Idle && u.loop == c.loop && u.parser == c.parser
          && Answered(u.log, id) == Answered(c.log, id) + if Firmware(t, r) && r.id == id then 1 else 0)
  }

  lemma BufferTakenOver(c: Conn, ota: bool, r: Request, granted: bool, id: nat)
    requires c.loop.Parsing?
    ensures var b := BeginUpload(c, ota, r, granted);
            b.mode.Uploading? && b.mode.req == r && !Open(b) && b.served == c.served && b.request == c.request
            && b.owner == c.owner && b.websocket == c.websocket
            && Answered(b.log, id) == Answered(c.log, id) && Executed(b.log, id) == Executed(c.log, id)
  {
    hide Answered, Executed;
    Snoc(c.log, Opened(r.id), id);
  }

  lemma StartUploadBegins(t: Table, c: Conn, r: Request, a: Answers, id: nat)
    requires c.mode == Idle && c.loop.Parsing?
    ensures Begins(t, c, StartUpload(t, c, r, a), r, id)
  {
    hide Answered, Executed, UploadRead, FindHandler, BeginUpload;
    var h := FindHandler(t.handlers, r.uri);
    if r.isPost && h.Some? && (h.value.kind == File || (h.value.kind == Ota && a.granted)) {
      var ota := h.value.kind == Ota;
      BufferTakenOver(c, ota, r, a.granted, id);
      UploadReadUploads(BeginUpload(c, ota, r, a.granted), a.writerOk, id);
    } else {
      Snoc(c.log, Replied(400, r.id), id);
    }
  }

  lemma HeadersLedger(t: Table, c: Conn, r: Request, a: Answers, id: nat)
    requires Ledger(t, c, id) && Shape(c) && Enabled(c, Headers(r, a))
    ensures Ledger(t, OnHeaders(t, c, r, a), id)
    ensures id < c.served ==> Settled(c, OnHeaders(t, c, r, a), id)
    ensures OnHeaders(t, c, r, a).served == c.served
  {
    hide Answered, Executed, Guarded, Passes, StartUpload, Firmware;
    var c0 := Reported(c, r);
    LogAdds(c0, PassedOn(r), id);
    LogAdds(c0, Admitted(r), id);
    LogAdds(c0, Replied(403, r.id), id);
    if c.owner == HttpHandler && c.mode == Idle {
      StartUploadBegins(t, if Guarded(t, r.uri) then Log(c0, Admitted(r)) else c0, r, a, id);
    }
  }

  lemma MessageLedger(t: Table, c: Conn, r: Request, m: Delivery, a: Answers, id: nat)
    requires Ledger(t, c, id) && Shape(c) && Enabled(c, Message(r, m, a))
    ensures Ledger(t, OnMessage(t, c, r, m, a), id)
    ensures id < c.served ==> Settled(c, OnMessage(t, c, r, m, a), id)
    ensures OnMessage(t, c, r, m, a).served == c.served + 1
  {
    hide Answered, Executed, Dispatch, Firmware, Defers, Runs;
    var c0 := Taken(c, m);
    LogAdds(c0, PassedOn(r), id);
    DispatchServes(t, c0, r, m.body, a, id);
  }

  /** The books are kept from `c` to `u`, where no request is completed. */
  predicate KeepsTheBooks(t: Table, c: Conn, u: Conn, id: nat) {
    Ledger(t, u, id) && u.served == c.served && (id < c.served ==> Settled(c, u, id))
  }

  lemma HandlerEventLedger(t: Table, c: Conn, cause: Cause, a: Answers, id: nat)
    requires Ledger(t, c, id) && Shape(c) && c.loop.Resting?
    ensures KeepsTheBooks(t, c, HandlerEvent(c, cause, a), id)
  {
    hide Answered, Executed, UploadRead, Firmware;
    match cause
    case ForRead =>
      if c.mode.Uploading? {
        UploadReadUploads(c, a.writerOk, id);
      }
    case ForPoll =>
      if c.mode.ActionPending? {
        LogAdds(c, Replied(200, c.mode.id), id);
      }
    case ForClose =>
      if c.mode.Uploading? {
        LogAdds(c, Released(c.mode.req.id), id);
      }
  }

  lemma BufferLedger(t: Table, c: Conn, recv: seq<byte>, id: nat)
    requires Ledger(t, c, id) && Shape(c)
    ensures KeepsTheBooks(t, c, c.(recv := recv), id) && Shape(c.(recv := recv))
    ensures KeepsTheBooks(t, c, c.(recv := recv, loop := Resting), id) && Shape(c.(recv := recv, loop := Resting))
    ensures c.parser && !c.closed ==>
              forall cause :: KeepsTheBooks(t, c, c.(recv := recv, loop := Parsing(cause, 0, false)), id)
  {
    hide Answered, Executed, Firmware;
  }

  lemma CloseSeenLedger(t: Table, c: Conn, id: nat)
    requires Ledger(t, c, id) && Shape(c)
    ensures KeepsTheBooks(t, c, Log(c, CloseSeen), id) && Shape(Log(c, CloseSeen))
  {
    hide Answered, Executed, Firmware;
    Snoc(c.log, CloseSeen, id);
  }

  lemma StepLedger(t: Table, c: Conn, e: Event, id: nat)
    requires Ledger(t, c, id) && Shape(c) && Enabled(c, e)
    ensures Ledger(t, Step(t, c, e), id)
    ensures id < c.served ==> Settled(c, Step(t, c, e), id)
    ensures Step(t, c, e).served >= c.served
  {
    hide Ledger, Answered, Executed, OnHeaders, OnMessage, HandlerEvent, Drop, Shape;
    match e
    case Headers(r, a) => HeadersLedger(t, c, r, a, id);
    case Message(r, m, a) => MessageLedger(t, c, r, m, a, id);
    case Data(chunk, a) =>
      BufferLedger(t, c, c.recv + chunk, id);
      HandlerEventLedger(t, c.(recv := c.recv + chunk), ForRead, a, id);
    case Poll(a) =>
      BufferLedger(t, c, c.recv, id);
      HandlerEventLedger(t, c, ForPoll, a, id);
    case Close(a) =>
      var d := Log(c, CloseSeen);
      CloseSeenLedger(t, c, id);
      BufferLedger(t, d, d.recv, id);
      HandlerEventLedger(t, d, ForClose, a, id);
    case LoopEnd(a) =>
      var recv := if c.loop.Parsing? then Drop(c.recv, c.loop.ofs) else c.recv;
      BufferLedger(t, c, recv, id);
      HandlerEventLedger(t, c.(recv := recv, loop := Resting), c.loop.cause, a, id);
  }

  lemma {:induction false} EveryRunKeepsTheLedger(t: Table, es: seq<Event>, id: nat)
    requires Legal(t, es)
    ensures Ledger(t, Run(t, es), id) && Shape(Run(t, es))
    decreases |es|
  {
    hide Ledger, Shape, Sound, Step, Enabled;
    EveryRunIsSound(t, es);
    ShapeOfSound(t, Run(t, es));
    if es == [] {
      FreshLedger(t, id);
    } else {
      EveryRunKeepsTheLedger(t, es[..|es| - 1], id);
      StepLedger(t, Run(t, es[..|es| - 1]), es[|es| - 1], id);
    }
  }

  lemma FreshLedger(t: Table, id: nat)
    ensures Ledger(t, Accepted(), id)
  {
  }

  /** Request `r` has been answered once, or not at all when its answer is left to somebody else. */
  predicate RightlyAnswered(t: Table, u: Conn, r: Request, n: nat, a: Answers) {
    Answered(u.log, r.id) == if Refused(t, r) || !Defers(t, r, n, a) then 1 else 0
  }

  /** Request `r`, with a body of `n` bytes, is complete in `u`: what it asks for has been
      done once, or never when it was refused; and it has been rightly answered exactly if it
      was refused or is no upload of firmware. */
  predicate Finished(t: Table, u: Conn, r: Request, n: nat, a: Answers) {
    var refused := Refused(t, r);
    && Executed(u.log, r.id) == (if !refused && Runs(t, r, n, a.itemExists) then 1 else 0)
    && (RightlyAnswered(t, u, r, n, a) <==> refused || !Firmware(t, r))
    && u.served == r.id + 1
  }

  lemma MessageFinishes(t: Table, c: Conn, r: Request, m: Delivery, a: Answers)
    requires Ledger(t, c, r.id) && Shape(c) && Enabled(c, Message(r, m, a)) && Attends(c)
    ensures Finished(t, OnMessage(t, c, r, m, a), r, m.body, a)
  {
    hide Answered, Executed, Dispatch, Firmware, Defers, Runs, Refused;
    DispatchServes(t, Taken(c, m), r, m.body, a, r.id);
  }

  /** When the message of a request is complete, the request has been answered exactly
      once in the whole run, or not at all when its answer is left to somebody else; and
      what it asks for has been done exactly once, or never when it was refused. The
      exception is an upload of firmware that its opener turned down: it always has one
      answer more, at least. */
  lemma AnsweredAndDoneOnce(t: Table, es: seq<Event>, r: Request, m: Delivery, a: Answers)
    requires Legal(t, es) && Enabled(Run(t, es), Message(r, m, a)) && Attends(Run(t, es))
    ensures Finished(t, Step(t, Run(t, es), Message(r, m, a)), r, m.body, a)
  {
    hide Finished, Ledger, Shape, OnMessage, Run, Attends, Deliverable;
    EveryRunKeepsTheLedger(t, es, r.id);
    MessageFinishes(t, Run(t, es), r, m, a);
  }

  /** A message on a connection that the handler does not attend to, because it is upgraded
      or marked for a websocket, or somebody else's, has nothing done. In the whole run the
      request has one answer if its headers were refused, and none otherwise. */
  lemma IgnoredAfterUpgrade(t: Table, es: seq<Event>, r: Request, m: Delivery, a: Answers)
    requires Legal(t, es) && Enabled(Run(t, es), Message(r, m, a)) && !Attends(Run(t, es))
    ensures var c, u := Run(t, es), Step(t, Run(t, es), Message(r, m, a));
            Answered(u.log, r.id) == (if c.mode == Denied then 1 else 0) && Executed(u.log, r.id) == 0
  {
    hide Run, Answered, Executed, Dispatch, Firmware, Refused, Deliverable;
    EveryRunKeepsTheLedger(t, es, r.id);
    LogAdds(Taken(Run(t, es), m), PassedOn(r), r.id);
  }

  /** Exactly which completed requests are rightly answered, on any connection that is still
      this handler's. Where it attends: the refused ones and all but uploads of firmware. On an
      upgraded connection the handler still refuses, so: the refused ones, and those whose answer
      would be left to somebody else. On a marked one it does not even do that. */
  lemma RightlyAnsweredIff(t: Table, es: seq<Event>, r: Request, m: Delivery, a: Answers)
    requires Legal(t, es) && Enabled(Run(t, es), Message(r, m, a)) && Run(t, es).owner == HttpHandler
    ensures var c, u := Run(t, es), Step(t, Run(t, es), Message(r, m, a));
            RightlyAnswered(t, u, r, m.body, a) <==>
              if Attends(c) then Refused(t, r) || !Firmware(t, r)
              else if c.mode == Marked then !Refused(t, r) && Defers(t, r, m.body, a)
              else Refused(t, r) || Defers(t, r, m.body, a)
  {
    hide Run, Step, Answered, Executed, Firmware, Refused, Defers, Runs, Deliverable;
    if Attends(Run(t, es)) {
      AnsweredAndDoneOnce(t, es, r, m, a);
    } else {
      IgnoredAfterUpgrade(t, es, r, m, a);
      EveryRunKeepsTheLedger(t, es, r.id);
    }
  }

  /** That is final: whatever comes later, a completed request gets no second answer and
      has nothing done for it again; the answer at the end of its action is the only one
      that can still come, and it comes at most once. */
  lemma {:induction false} CompletedIsFinal(t: Table, es: seq<Event>, more: seq<Event>, id: nat)
    requires Legal(t, es + more) && id < Run(t, es).served
    ensures Settled(Run(t, es), Run(t, es + more), id) && id < Run(t, es + more).served
    decreases |more|
  {
    hide Ledger, Shape, Step, Enabled, Answered, Executed;
    if more == [] {
      assert es + more == es;
    } else {
      var more0, e := more[..|more| - 1], more[|more| - 1];
      assert (es + more)[..|es + more| - 1] == es + more0 && (es + more)[|es + more| - 1] == e;
      CompletedIsFinal(t, es, more0, id);
      EveryRunKeepsTheLedger(t, es + more0, id);
      StepLedger(t, Run(t, es + more0), e, id);
    }
  }

  /** Why uploads of firmware are excepted: at every report of its headers, anywhere in any
      run, such a request gets another answer unless its upload begins. */
  lemma EachReportIsAnswered(t: Table, es: seq<Event>, r: Request, a: Answers)
    requires Legal(t, es) && Enabled(Run(t, es), Headers(r, a)) && Attends(Run(t, es))
    requires Firmware(t, r) && !Refused(t, r)
    ensures var c, u := Run(t, es), Step(t, Run(t, es), Headers(r, a));
            if a.granted then u.loop.Returned? else Answered(u.log, r.id) == Answered(c.log, r.id) + 1 && TurnedDown(t, u)
  {
    hide Run, Answered, Executed, Guarded, Passes, FindHandler, UploadRead;
    EveryRunKeepsTheLedger(t, es, r.id);
    var c0 := Reported(Run(t, es), r);
    var c1 := if Guarded(t, r.uri) then Log(c0, Admitted(r)) else c0;
    Snoc(c0.log, Admitted(r), r.id);
    Snoc(c1.log, Replied(400, r.id), r.id);
    UploadReadUploads(BeginUpload(c1, true, r, a.granted), a.writerOk, r.id);
  }
}
