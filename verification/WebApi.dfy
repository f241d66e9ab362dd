/**
 The connection state machine of the device's web API: `http_ev_handler` with
 `start_uploads`, `do_upload`, `handle_action` and `handle_api_call`.

 A connection's scratch area is a tagged union, `Mode`. The environment (network,
 HTTP parser, firmware callbacks) chooses the order of events and every answer the
 handler asks for; `Enabled` says which events the HTTP parser can deliver.
 The parser, `http_cb`, runs in front of the handler on every read, poll and close: a
 loop that reports the headers and then the message of one request after another, and
 removes the completed messages from the receive buffer when the loop is over.
 Each event is a function from state to state, and a method of the class
 `Connection` that updates the fields as the handler does.
 */
module WebApi {
  import opened Common
  import opened Routing
  import opened Glob
  import Upload

  // ---------------------------------------------------------------- data model

  datatype Table = Table(handlers: seq<Handler>, routes: seq<Route>)

  /** A request as its headers event presents it. `level` is the answer of the
      authentication: None, or the level of the user found. `bodyLen` is the length that
      the headers declare; a `chunked` body declares none, and shows up in the message. */
  datatype Request = Request(id: nat, isPost: bool, uri: string, headLen: nat, bodyLen: nat, chunked: bool, level: Option<int>)

  /** `c->data`: idle (zeroed), denied ('Z'), uploading ('O' or 'F'), waiting for an action
      ('A') or marked for a websocket ('W'). `held` tells whether the file name could be
      stored; an OTA context always is. */
  datatype Mode =
    | Idle
    | Denied
    | Uploading(ota: bool, req: Request, received: nat, held: bool)
    | ActionPending(id: nat)
    | Marked

  /** `c->fn`: this handler, or the handler the connection was given away to. */
  datatype Owner = HttpHandler | FileStreamer | CustomHandler

  datatype Effect =
    | Replied(code: nat, id: nat)
    | Admitted(req: Request)                 // passed the check of its headers event
    | Opened(id: nat)                        // an OTA context opened, or an upload name stored
    | Written(req: Request, held: bool, call: Upload.Write)
    | Released(id: nat)                      // the OTA context closed, or the name freed
    | SetterRan(req: Request, body: nat)     // with the length of the body it was given
    | StarterRan(req: Request, body: nat)
    | CustomRan(req: Request, body: nat)
    | PassedOn(req: Request)                 // delivered to a custom handler that owns the connection
    | CloseSeen                              // the connection is being closed

  /** What the callbacks answer during one event: whether the OTA opener or the copy of
      the file name succeeded, the writer's and the action checker's results, whether
      an array getter knows the index, and whether a websocket upgrade went through. */
  datatype Answers = Answers(granted: bool, writerOk: bool, running: bool, itemExists: bool, upgraded: bool)

  /** Why the parser's loop was entered. */
  datatype Cause = ForRead | ForPoll | ForClose

  /** `Parsing`: inside the loop of `http_cb`, where `ofs` bytes of completed messages are
      still in front of the buffer; `reported` says that the headers event of the request
      behind them was the last thing to happen. `Returned`: the loop was left at once,
      because an upload has taken the buffer over. */
  datatype Loop = Resting | Parsing(cause: Cause, ofs: nat, reported: bool) | Returned(cause: Cause)

  /** `parser`: the HTTP parser is attached. `responding`: `c->is_resp`. `request`: the
      request whose headers have been reported. `served`: requests completed so far. */
  datatype Conn = Conn(mode: Mode, owner: Owner, recv: seq<byte>, parser: bool, loop: Loop, websocket: bool,
                       responding: bool, draining: bool, closed: bool,
                       request: Option<Request>, served: nat, log: seq<Effect>)

  function Accepted(): Conn {
    Conn(Idle, HttpHandler, [], true, Resting, false, false, false, false, None, 0, [])
  }

  /** A complete message: the length of its body, the bytes that the parser counts as used
      for it, and the receive buffer as the parser leaves it (joining chunks moves bytes). */
  datatype Delivery = Delivery(body: nat, used: nat, buffer: seq<byte>)

  datatype Event =
    | Data(chunk: seq<byte>, a: Answers)
    | Poll(a: Answers)
    | Close(a: Answers)
    | Headers(req: Request, a: Answers)
    | Message(req: Request, m: Delivery, a: Answers)
    | LoopEnd(a: Answers)

  /** What the parser may make of request `r`, `ofs` bytes into the buffer. The body has
      the declared length, except that chunks have a length of their own and that at a
      close the body is all that is left. */
  predicate Deliverable(recv: seq<byte>, ofs: nat, closing: bool, r: Request, m: Delivery) {
    && r.headLen + m.body <= m.used
    && (r.chunked ||
        (m.buffer == recv && ofs + r.headLen + m.body <= |recv|
         && (if closing then ofs + r.headLen + m.body == |recv| else m.body == r.bodyLen)))
    && |m.buffer| == |recv| && Drop(m.buffer, ofs + m.used) == Drop(recv, ofs + m.used)
  }

  /** The events the parser and the network deliver. Each turn of the loop reports headers,
      and then the message if it is complete; otherwise the headers are reported again when
      more has arrived. No headers are reported while a response is outstanding. */
  predicate Enabled(c: Conn, e: Event) {
    match e
    case Headers(r, _) =>
      && c.loop.Parsing? && !c.loop.reported && !c.responding
      && r.id == c.served && (c.request == None || c.request == Some(r))
      && 0 < r.headLen && c.loop.ofs + r.headLen <= |c.recv|
    case Message(r, m, _) =>
      && c.loop.Parsing? && c.loop.reported && c.request == Some(r)
      && Deliverable(c.recv, c.loop.ofs, c.loop.cause.ForClose?, r, m)
    case LoopEnd(_) => !c.loop.Resting?
    case _ => c.loop.Resting? && !c.closed
  }

  // ------------------------------------------------------------------ the check

  /** The endpoints that demand a user. */
  predicate Guarded(t: Table, uri: string) {
    FindRoute(t.routes, uri).Some? || MgMatch(uri, "/api/#") || MgMatch(uri, "/websocket")
  }

  predicate LevelSuffices(level: int, bodyLen: nat, read: int, write: int) {
    !(level < read || (bodyLen > 0 && level < write))
  }

  /** The check, for a body of `n` bytes. */
  predicate PassesWith(t: Table, r: Request, n: nat) {
    && r.level.Some?
    && (var h := FindHandler(t.handlers, r.uri);
        h.Some? ==> LevelSuffices(r.level.value, n, h.value.readLevel, h.value.writeLevel))
    && (var ch := FindRoute(t.routes, r.uri);
        ch.Some? ==> LevelSuffices(r.level.value, n, ch.value.readLevel, ch.value.writeLevel))
  }

  /** The check as it is made: on the headers event, with the length known by then. */
  predicate Passes(t: Table, r: Request) {
    PassesWith(t, r, r.bodyLen)
  }

  // ----------------------------------------------------------- events as functions

  function Log(c: Conn, e: Effect): Conn {
    c.(log := c.log + [e])
  }

  function Reply(c: Conn, code: nat, id: nat): Conn {
    Log(c, Replied(code, id)).(responding := false)
  }

  /** `mg_iobuf_del(&c->recv, 0, n)`, which clamps. */
  function Drop(s: seq<byte>, n: nat): seq<byte> {
    if n <= |s| then s[n..] else []
  }

  function ReleaseUpload(c: Conn): Conn
    requires c.mode.Uploading?
  {
    if c.mode.held then Log(c, Released(c.mode.req.id)) else c
  }

  /** The answer that ends an upload, with which the handler state is cleared. */
  function EndUpload(c: Conn, code: nat): Conn
    requires c.mode.Uploading?
  {
    ReleaseUpload(Reply(c, code, c.mode.req.id)).(mode := Idle, draining := true)
  }

  /** What the writer is given, and what stays in the buffer. */
  function PassOnBytes(c: Conn, t: Upload.Step): Conn
    requires c.mode.Uploading?
  {
    var m := c.mode;
    (if t.write.Some? then Log(c, Written(m.req, m.held, t.write.value)) else c)
    .(recv := t.recv, mode := m.(received := t.received))
  }

  /** `do_upload` on MG_EV_READ. */
  function UploadRead(c: Conn, ok: bool): Conn
    requires c.mode.Uploading?
  {
    var t := Upload.ReadStep(c.mode.received, c.mode.req.bodyLen, c.recv, ok);
    var c1 := PassOnBytes(c, t);
    if t.outcome == Upload.Running then c1
    else EndUpload(c1, if t.outcome == Upload.Done then 200 else 400)
  }

  /** The state of a new upload: as many bytes as the headers have are deleted from the
      front of the buffer, the parser is detached and its loop is left. */
  function BeginUpload(c: Conn, ota: bool, r: Request, granted: bool): Conn
    requires c.loop.Parsing?
  {
    (if granted then Log(c, Opened(r.id)) else c)
    .(mode := Uploading(ota, r, 0, granted), recv := Drop(c.recv, r.headLen), parser := false,
      loop := Returned(c.loop.cause))
  }

  /** `start_uploads`. */
  function StartUpload(t: Table, c: Conn, r: Request, a: Answers): Conn
    requires c.loop.Parsing?
  {
    var h := FindHandler(t.handlers, r.uri);
    if !r.isPost || h.None? || (h.value.kind != Ota && h.value.kind != File) then c
    else if h.value.kind == Ota && !a.granted then Reply(c, 400, r.id).(draining := true)
    else UploadRead(BeginUpload(c, h.value.kind == Ota, r, a.granted), a.writerOk)
  }

  /** The parser reports the headers of `r`. */
  function Reported(c: Conn, r: Request): Conn
    requires c.loop.Parsing?
  {
    c.(request := Some(r), loop := c.loop.(reported := true))
  }

  /** MG_EV_HTTP_HDRS. */
  function OnHeaders(t: Table, c: Conn, r: Request, a: Answers): Conn
    requires c.loop.Parsing?
  {
    var c0 := Reported(c, r);
    if c.owner == CustomHandler then Log(c0, PassedOn(r))
    else if c.owner == FileStreamer || c.mode != Idle then c0
    else if Guarded(t, r.uri) && !Passes(t, r) then Reply(c0, 403, r.id).(mode := Denied)
    else
      var c1 := if Guarded(t, r.uri) then Log(c0, Admitted(r)) else c0;
      if c.websocket then c1 else StartUpload(t, c1, r, a)
  }

  /** `mg_ws_upgrade`: the parser is detached in any case; a refusal drains the connection. */
  function Upgrade(c: Conn, r: Request, a: Answers): Conn {
    if a.upgraded then c.(parser := false, websocket := true, responding := false)
    else Reply(c, 426, r.id).(parser := false, draining := true)
  }

  /** `handle_api_call`, for a body of `n` bytes. */
  function ApiCall(c: Conn, h: Handler, r: Request, n: nat, a: Answers): Conn {
    match h.kind
    case Data =>
      Reply(if n > 0 && h.settable then Log(c, SetterRan(r, n)) else c, 200, r.id)
    case Array =>
      Reply(if n > 0 && a.itemExists && h.settable then Log(c, SetterRan(r, n)) else c, 200, r.id)
    case Action =>
      if n == 0 then Reply(c, 200, r.id)
      else if a.running then Log(c, StarterRan(r, n)).(mode := ActionPending(r.id))
      else Reply(Log(c, StarterRan(r, n)), 200, r.id)
    case File => c.(owner := FileStreamer)
    case Custom => Log(c, CustomRan(r, n)).(responding := false)
    case Websocket => Upgrade(c, r, a).(mode := Marked)
    case _ => Reply(c, 500, r.id)
  }

  function Dispatch(t: Table, c: Conn, r: Request, n: nat, a: Answers): Conn {
    var ch := FindRoute(t.routes, r.uri);
    var h := FindHandler(t.handlers, r.uri);
    if MgMatch(r.uri, "/api/login") then Reply(c, 200, r.id)
    else if MgMatch(r.uri, "/api/logout") then Reply(c, 401, r.id)
    else if MgMatch(r.uri, "/api/ok") then Reply(c, 200, r.id)
    else if MgMatch(r.uri, "/websocket") then Upgrade(c, r, a)
    else if MgMatch(r.uri, "/api/heartbeat") then Reply(c, 200, r.id)
    else if ch.Some? then Log(c, CustomRan(r, n)).(owner := CustomHandler, responding := false)
    else if h.Some? then ApiCall(c, h.value, r, n, a)
    else Reply(c, 200, r.id)
  }

  /** The parser has a complete message. It raises `is_resp` and goes on behind the
      message, which stays in the buffer for now. */
  function Taken(c: Conn, m: Delivery): Conn
    requires c.loop.Parsing?
  {
    c.(responding := true, request := None, served := c.served + 1, recv := m.buffer,
       loop := Parsing(c.loop.cause, c.loop.ofs + m.used, false))
  }

  /** MG_EV_HTTP_MSG. */
  function OnMessage(t: Table, c: Conn, r: Request, m: Delivery, a: Answers): Conn
    requires c.loop.Parsing?
  {
    var c0 := Taken(c, m);
    if c.owner == CustomHandler then Log(c0, PassedOn(r)).(responding := false)
    else if c.owner == FileStreamer then c0
    else if c.mode == Denied then c0.(mode := Idle, responding := false)
    else if c.websocket || c.mode != Idle then c0
    else Dispatch(t, c0, r, m.body, a)
  }

  /** MG_EV_READ. */
  function ReadEvent(c: Conn, a: Answers): Conn {
    if c.owner == HttpHandler && !c.websocket && c.mode.Uploading? then UploadRead(c, a.writerOk) else c
  }

  /** MG_EV_POLL. */
  function PollEvent(c: Conn, a: Answers): Conn {
    if c.owner == HttpHandler && !c.websocket && c.mode.ActionPending? && !a.running
    then Reply(c, 200, c.mode.id).(mode := Idle)
    else c
  }

  /** MG_EV_CLOSE, the last event of a connection. */
  function CloseEvent(c: Conn): Conn {
    (if c.owner == HttpHandler && !c.websocket && c.mode.Uploading? then ReleaseUpload(c) else c)
    .(closed := true)
  }

  /** What the handler gets of a read, poll or close once the parser has seen it. */
  function HandlerEvent(c: Conn, cause: Cause, a: Answers): Conn {
    match cause
    case ForRead => ReadEvent(c, a)
    case ForPoll => PollEvent(c, a)
    case ForClose => CloseEvent(c)
  }

  /** A read, poll or close goes to the parser first, if there is one; a poll only while
      the connection is not draining. */
  function Arrives(c: Conn, cause: Cause, a: Answers): Conn {
    if c.parser && !(cause.ForPoll? && c.draining) then c.(loop := Parsing(cause, 0, false))
    else HandlerEvent(c, cause, a)
  }

  /** The end of `http_cb`: completed messages are removed, unless the loop was left at
      once, and the handler gets the event. */
  function OnLoopEnd(c: Conn, a: Answers): Conn
    requires !c.loop.Resting?
  {
    HandlerEvent(c.(loop := Resting, recv := if c.loop.Parsing? then Drop(c.recv, c.loop.ofs) else c.recv),
                 c.loop.cause, a)
  }

  /** One event; what only the parser's loop reports has no effect outside of it. */
  function Step(t: Table, c: Conn, e: Event): Conn {
    match e
    case Data(chunk, a) => Arrives(c.(recv := c.recv + chunk), ForRead, a)
    case Poll(a) => Arrives(c, ForPoll, a)
    case Close(a) => Arrives(Log(c, CloseSeen), ForClose, a)
    case Headers(r, a) => if c.loop.Parsing? then OnHeaders(t, c, r, a) else c
    case Message(r, m, a) => if c.loop.Parsing? then OnMessage(t, c, r, m, a) else c
    case LoopEnd(a) => if c.loop.Resting? then c else OnLoopEnd(c, a)
  }

  // -------------------------------------------------------- events as the code runs them

  /** One connection, with the fields that the handlers update in place. */
  class Connection {
    const table: Table
    var mode: Mode
    var owner: Owner
    var recv: seq<byte>
    var parser: bool
    var loop: Loop
    var websocket: bool
    var responding: bool
    var draining: bool
    var closed: bool
    var request: Option<Request>
    var served: nat
    var log: seq<Effect>

    function State(): Conn
      reads this
    {
      Conn(mode, owner, recv, parser, loop, websocket, responding, draining, closed, request, served, log)
    }

    constructor (t: Table)
      ensures table == t && State() == Accepted()
    {
      table := t;
      mode, owner, recv := Idle, HttpHandler, [];
      parser, loop := true, Resting;
      websocket, responding, draining, closed := false, false, false, false;
      request, served, log := None, 0, [];
    }

    method SendReply(code: nat, id: nat)
      modifies this`log, this`responding
      ensures State() == Reply(old(State()), code, id)
    {
      log := log + [Replied(code, id)];
      responding := false;
    }

    method Finish(code: nat)
      requires mode.Uploading?
      modifies this`log, this`responding, this`mode, this`draining
      ensures State() == EndUpload(old(State()), code)
    {
      SendReply(code, mode.req.id);
      if mode.held { log := log + [Released(mode.req.id)]; }
      mode := Idle;
      draining := true;
    }

    method DoUploadRead(writerOk: bool)
      requires mode.Uploading?
      modifies this`log, this`responding, this`mode, this`draining, this`recv
      ensures State() == UploadRead(old(State()), writerOk)
    {
      hide EndUpload, Upload.ChunkLen;
      var expected := mode.req.bodyLen;
      if expected > 0 && |recv| > 0 {
        var aligned := Upload.ChunkLen(mode.received, |recv|, expected);
        var ok := true;
        if aligned > 0 {
          log := log + [Written(mode.req, mode.held, Upload.Write(mode.received, recv[..aligned]))];
          ok := writerOk;
        }
        mode := mode.(received := (mode.received + aligned) % WORD);
        recv := recv[aligned..];
        if !ok {
          Finish(400);
        } else if mode.received >= expected {
          Finish(200);
        }
      }
    }

    method TakeBufferOver(ota: bool, r: Request, held: bool)
      requires loop.Parsing?
      modifies this`mode, this`recv, this`parser, this`loop
      ensures State() == old(State()).(mode := Uploading(ota, r, 0, held), recv := Drop(old(recv), r.headLen),
                                       parser := false, loop := Returned(old(loop).cause))
    {
      mode := Uploading(ota, r, 0, held);
      parser := false;
      recv := Drop(recv, r.headLen);
      loop := Returned(loop.cause);
    }

    method StartUploads(r: Request, a: Answers)
      requires loop.Parsing?
      modifies this
      ensures State() == StartUpload(table, old(State()), r, a)
    {
      hide UploadRead, ReleaseUpload, Drop;
      if r.isPost {
        var h := FindHandler(table.handlers, r.uri);
        if h.Some? && h.value.kind == Ota {
          if !a.granted {
            SendReply(400, r.id);
            draining := true;
          } else {
            log := log + [Opened(r.id)];
            TakeBufferOver(true, r, true);
            DoUploadRead(a.writerOk);
          }
        } else if h.Some? && h.value.kind == File {
          if a.granted { log := log + [Opened(r.id)]; }
          TakeBufferOver(false, r, a.granted);
          DoUploadRead(a.writerOk);
        }
      }
    }

    method Report(r: Request)
      requires loop.Parsing?
      modifies this`request, this`loop
      ensures State() == Reported(old(State()), r) && loop.Parsing?
    {
      request := Some(r);
      loop := loop.(reported := true);
    }

    method HandleHeaders(r: Request, a: Answers)
      requires loop.Parsing?
      modifies this
      ensures State() == OnHeaders(table, old(State()), r, a)
    {
      hide StartUpload, UploadRead, ReleaseUpload, Passes, Guarded, Reported;
      Report(r);
      if owner == CustomHandler {
        log := log + [PassedOn(r)];
      } else if owner == HttpHandler {
        if mode == Idle {
          if Guarded(table, r.uri) {
            if Passes(table, r) {
              log := log + [Admitted(r)];
            } else {
              SendReply(403, r.id);
              mode := Denied;
            }
          }
        }
        if !websocket && mode == Idle {
          StartUploads(r, a);
        }
      }
    }

    method UpgradeToWebsocket(r: Request, a: Answers)
      modifies this
      ensures State() == Upgrade(old(State()), r, a)
    {
      parser := false;
      if a.upgraded {
        websocket, responding := true, false;
      } else {
        SendReply(426, r.id);
        draining := true;
      }
    }

    method HandleApiCall(h: Handler, r: Request, n: nat, a: Answers)
      requires mode == Idle
      modifies this
      ensures State() == ApiCall(old(State()), h, r, n, a)
    {
      hide Upgrade;
      match h.kind {
        case Data =>
          if n > 0 && h.settable { log := log + [SetterRan(r, n)]; }
          SendReply(200, r.id);
        case Array =>
          if n > 0 {
            if a.itemExists && h.settable { log := log + [SetterRan(r, n)]; }
          }
          SendReply(200, r.id);
        case Action =>
          if n > 0 {
            log := log + [StarterRan(r, n)];
            if a.running { mode := ActionPending(r.id); } else { SendReply(200, r.id); }
          } else {
            SendReply(200, r.id);
          }
        case File =>
          owner := FileStreamer;
        case Custom =>
          log := log + [CustomRan(r, n)];
          responding := false;
        case Websocket =>
          UpgradeToWebsocket(r, a);
          mode := Marked;
        case _ =>
          SendReply(500, r.id);
      }
    }

    method DispatchRequest(r: Request, n: nat, a: Answers)
      requires mode == Idle
      modifies this
      ensures State() == Dispatch(table, old(State()), r, n, a)
    {
      hide ApiCall, MgMatch, Upgrade;
      var ch := FindRoute(table.routes, r.uri);
      var h := FindHandler(table.handlers, r.uri);
      if MgMatch(r.uri, "/api/login") {
        SendReply(200, r.id);
      } else if MgMatch(r.uri, "/api/logout") {
        SendReply(401, r.id);
      } else if MgMatch(r.uri, "/api/ok") {
        SendReply(200, r.id);
      } else if MgMatch(r.uri, "/websocket") {
        UpgradeToWebsocket(r, a);
      } else if MgMatch(r.uri, "/api/heartbeat") {
        SendReply(200, r.id);
      } else if ch.Some? {
        owner := CustomHandler;
        log := log + [CustomRan(r, n)];
        responding := false;
      } else if h.Some? {
        HandleApiCall(h.value, r, n, a);
      } else {
        SendReply(200, r.id);
      }
    }

    method TakeMessage(m: Delivery)
      requires loop.Parsing?
      modifies this`responding, this`request, this`served, this`recv, this`loop
      ensures State() == Taken(old(State()), m)
    {
      responding := true;
      request, served := None, served + 1;
      recv := m.buffer;
      loop := Parsing(loop.cause, loop.ofs + m.used, false);
    }

    method HandleMessage(r: Request, m: Delivery, a: Answers)
      requires loop.Parsing?
      modifies this
      ensures State() == OnMessage(table, old(State()), r, m, a)
    {
      hide Dispatch, Taken;
      TakeMessage(m);
      if owner == CustomHandler {
        log := log + [PassedOn(r)];
        responding := false;
      } else if owner == HttpHandler {
        if !websocket && mode == Idle {
          DispatchRequest(r, m.body, a);
        } else if mode == Denied {
          mode := Idle;
          responding := false;
        }
      }
    }

    method HandleRead(a: Answers)
      modifies this
      ensures State() == ReadEvent(old(State()), a)
    {
      if owner == HttpHandler && !websocket && mode.Uploading? {
        DoUploadRead(a.writerOk);
      }
    }

    method HandlePoll(a: Answers)
      modifies this
      ensures State() == PollEvent(old(State()), a)
    {
      if owner == HttpHandler && !websocket && mode.ActionPending? {
        if !a.running {
          SendReply(200, mode.id);
          mode := Idle;
        }
      }
    }

    method HandleClose()
      modifies this
      ensures State() == CloseEvent(old(State()))
    {
      if owner == HttpHandler && !websocket && mode.Uploading? {
        if mode.held { log := log + [Released(mode.req.id)]; }
      }
      closed := true;
    }

    /** A read, poll or close as the parser gets it, and the handler if there is no parser. */
    method Arrive(chunk: seq<byte>, cause: Cause, a: Answers)
      requires cause.ForRead? || |chunk| == 0
      modifies this
      ensures State() == Arrives((if cause.ForClose? then Log(old(State()), CloseSeen) else old(State()))
                                 .(recv := old(recv) + chunk), cause, a)
    {
      if cause.ForClose? {
        log := log + [CloseSeen];
      }
      recv := recv + chunk;
      if parser && !(cause.ForPoll? && draining) {
        loop := Parsing(cause, 0, false);
      } else {
        Handle(cause, a);
      }
    }

    method EndLoop(a: Answers)
      requires !loop.Resting?
      modifies this
      ensures State() == OnLoopEnd(old(State()), a)
    {
      var cause := loop.cause;
      if loop.Parsing? {
        recv := Drop(recv, loop.ofs);
      }
      loop := Resting;
      Handle(cause, a);
    }

    method Handle(cause: Cause, a: Answers)
      modifies this
      ensures State() == HandlerEvent(old(State()), cause, a)
    {
      match cause
      case ForRead => HandleRead(a);
      case ForPoll => HandlePoll(a);
      case ForClose => HandleClose();
    }
  }
}
