/**
 Whole runs of the connection state machine: access control, refusal, release of
 upload resources, and independence of fragmentation.
 */
module WebApiRuns {
  import opened Common
  import opened Routing
  import opened Glob
  import opened WebApi
  import Upload

  function Run(t: Table, es: seq<Event>): Conn {
    if es == [] then Accepted() else Step(t, Run(t, es[..|es| - 1]), es[|es| - 1])
  }

  /** The events come in an order the parser and the network can produce. */
  predicate Legal(t: Table, es: seq<Event>)
    decreases |es|
  {
    es != [] ==> Legal(t, es[..|es| - 1]) && Enabled(Run(t, es[..|es| - 1]), es[|es| - 1])
  }

  /** The codes that a request has been answered with. */
  function Codes(log: seq<Effect>, id: nat): seq<nat> {
    if log == [] then []
    else
      var e := log[|log| - 1];
      Codes(log[..|log| - 1], id) + (if e.Replied? && e.id == id then [e.code] else [])
  }

  lemma CodesSnoc(log: seq<Effect>, e: Effect, id: nat)
    ensures Codes(log + [e], id) == Codes(log, id) + (if e.Replied? && e.id == id then [e.code] else [])
  {
    assert (log + [e])[..|log|] == log;
  }

  // -------------------------------------------------------------------- the auditor

  /** The effects that need an authorised request. */
  predicate Privileged(e: Effect) {
    e.SetterRan? || e.StarterRan? || e.CustomRan? || e.Written?
  }

  /** An observer of the effects alone. It knows nothing of modes and events:
      which requests were admitted, whether the connection was handed over to a
      custom handler, whether its close has come, which upload resource is held, how many
      were opened, and whether a rule was broken. */
  datatype Audit = Audit(ok: bool, admitted: set<Request>, handedOver: bool, ending: bool,
                         held: Option<nat>, openings: nat)

  /** A body may be longer than the headers said only if it is chunked, or at the close. */
  predicate LengthKnown(a: Audit, r: Request, body: nat) {
    body == r.bodyLen || r.chunked || a.ending
  }

  function Observe(t: Table, a: Audit, e: Effect): Audit {
    match e
    case Replied(_, _) => a
    case Admitted(r) => a.(ok := a.ok && Passes(t, r), admitted := a.admitted + {r})
    case Opened(id) => a.(ok := a.ok && a.held == None, held := Some(id), openings := a.openings + 1)
    case Written(r, held, _) =>
      a.(ok := a.ok && r in a.admitted && r.bodyLen > 0 && (if held then a.held == Some(r.id) else a.held == None))
    case Released(id) => a.(ok := a.ok && a.held == Some(id), held := None)
    case SetterRan(r, n) => a.(ok := a.ok && r in a.admitted && LengthKnown(a, r, n))
    case StarterRan(r, n) => a.(ok := a.ok && r in a.admitted && LengthKnown(a, r, n))
    case CustomRan(r, n) => a.(ok := a.ok && r in a.admitted && LengthKnown(a, r, n), handedOver := true)
    case PassedOn(_) => a.(ok := a.ok && a.handedOver)
    case CloseSeen => a.(ending := true)
  }

  function Audited(t: Table, log: seq<Effect>): Audit {
    if log == [] then Audit(true, {}, false, false, None, 0)
    else Observe(t, Audited(t, log[..|log| - 1]), log[|log| - 1])
  }

  lemma AuditedSnoc(t: Table, log: seq<Effect>, e: Effect)
    ensures Audited(t, log + [e]) == Observe(t, Audited(t, log), e)
  {
  }

  // ----------------------------------------------------------------- the invariant

  /** The resource a connection holds, read off its mode. */
  function HeldBy(c: Conn): Option<nat> {
    if c.mode.Uploading? && c.mode.held && !c.closed then Some(c.mode.req.id) else None
  }

  predicate Shape(c: Conn) {
    && (c.mode.Uploading? ==>
          c.owner == HttpHandler && !c.websocket && !c.parser && !c.loop.Parsing? && c.request == Some(c.mode.req))
    && (c.closed ==> c.loop.Resting?)
    && (c.websocket ==> !c.parser)
    && (c.mode.ActionPending? ==> c.responding && c.request == None)
  }

  predicate Sound(t: Table, c: Conn) {
    var a := Audited(t, c.log);
    && Shape(c) && a.ok && a.held == HeldBy(c)
    && a.openings <= (if c.parser || c.loop.Parsing? then 0 else 1)
    && (c.owner == CustomHandler ==> a.handedOver)
    && (c.loop.Parsing? && c.loop.cause.ForClose? ==> a.ending)
    && (c.mode.Uploading? ==> c.mode.req in a.admitted)
    && (c.request.Some? && c.owner == HttpHandler && c.mode == Idle && Guarded(t, c.request.value.uri) ==>
          c.request.value in a.admitted)
  }

  /** A URI that names a handler, or matches a route, is guarded. */
  lemma NamedMeansGuarded(t: Table, uri: string)
    ensures FindHandler(t.handlers, uri).Some? || FindRoute(t.routes, uri).Some? ==> Guarded(t, uri)
  {
    PrefixMatch(uri, "/api/");
    assert "/api/" + "#" == "/api/#";
  }

  lemma ReplySound(t: Table, c: Conn, code: nat, id: nat)
    requires Sound(t, c) && !c.mode.ActionPending?
    ensures Sound(t, Reply(c, code, id))
    ensures Audited(t, Reply(c, code, id).log) == Audited(t, c.log)
  {
    hide Guarded;
    AuditedSnoc(t, c.log, Replied(code, id));
  }

  /** A privileged effect of an admitted request. */
  lemma PrivilegeSound(t: Table, c: Conn, e: Effect)
    requires Sound(t, c) && (e.SetterRan? || e.StarterRan? || e.CustomRan?)
    requires e.req in Audited(t, c.log).admitted && LengthKnown(Audited(t, c.log), e.req, e.body)
    ensures Sound(t, Log(c, e))
    ensures e.CustomRan? ==> Audited(t, Log(c, e).log).handedOver
  {
    hide Guarded, Passes;
    AuditedSnoc(t, c.log, e);
  }

  lemma WriteSound(t: Table, c: Conn, u: Upload.Step)
    requires Sound(t, c) && c.mode.Uploading? && !c.closed && (u.write.Some? ==> c.mode.req.bodyLen > 0)
    ensures Sound(t, PassOnBytes(c, u))
  {
    hide Guarded, Passes;
    if u.write.Some? {
      AuditedSnoc(t, c.log, Written(c.mode.req, c.mode.held, u.write.value));
    }
  }

  lemma EndSound(t: Table, c: Conn, code: nat)
    requires Sound(t, c) && c.mode.Uploading? && !c.closed
    ensures Sound(t, EndUpload(c, code))
  {
    ReplySound(t, c, code, c.mode.req.id);
    var c1 := Reply(c, code, c.mode.req.id);
    AuditedSnoc(t, c1.log, Released(c.mode.req.id));
    hide Guarded, Passes, Audited;
  }

  lemma CloseSound(t: Table, c: Conn)
    requires Sound(t, c) && c.mode.Uploading? && !c.closed && c.loop.Resting?
    ensures Sound(t, ReleaseUpload(c).(closed := true))
  {
    hide Guarded, Passes;
    AuditedSnoc(t, c.log, Released(c.mode.req.id));
  }

  lemma NothingWrittenOfNothing(received: nat, recv: seq<byte>, ok: bool)
    ensures Upload.ReadStep(received, 0, recv, ok).write == None
  {
  }

  lemma UploadReadSound(t: Table, c: Conn, ok: bool)
    requires Sound(t, c) && c.mode.Uploading? && !c.closed
    ensures Sound(t, UploadRead(c, ok))
  {
    hide Sound, EndUpload, Upload.ReadStep;
    var u := Upload.ReadStep(c.mode.received, c.mode.req.bodyLen, c.recv, ok);
    NothingWrittenOfNothing(c.mode.received, c.recv, ok);
    WriteSound(t, c, u);
    EndSound(t, PassOnBytes(c, u), if u.outcome == Upload.Done then 200 else 400);
  }

  lemma BeginUploadSound(t: Table, c: Conn, ota: bool, r: Request, granted: bool)
    requires Sound(t, c) && c.mode == Idle && !c.closed && c.owner == HttpHandler && !c.websocket && c.loop.Parsing?
    requires c.request == Some(r) && r in Audited(t, c.log).admitted
    ensures Sound(t, BeginUpload(c, ota, r, granted))
  {
    hide Guarded, Passes;
    AuditedSnoc(t, c.log, Opened(r.id));
  }

  lemma StartUploadSound(t: Table, c: Conn, r: Request, a: Answers)
    requires Sound(t, c) && c.mode == Idle && !c.closed && c.owner == HttpHandler && !c.websocket && c.loop.Parsing?
    requires c.request == Some(r) && (Guarded(t, r.uri) ==> r in Audited(t, c.log).admitted)
    ensures Sound(t, StartUpload(t, c, r, a))
  {
    NamedMeansGuarded(t, r.uri);
    var h := FindHandler(t.handlers, r.uri);
    ReplySound(t, c, 400, r.id);
    assert Sound(t, Reply(c, 400, r.id).(draining := true)) by {
      hide Guarded, Audited, FindHandler;
    }
    if h.Some? {
      var ota := h.value.kind == Ota;
      BeginUploadSound(t, c, ota, r, a.granted);
      hide Sound, UploadRead, Guarded, Passes, FindHandler, FindRoute;
      UploadReadSound(t, BeginUpload(c, ota, r, a.granted), a.writerOk);
    } else {
      hide Sound;
    }
  }

  lemma RefuseSound(t: Table, c: Conn, r: Request)
    requires Sound(t, c) && c.owner == HttpHandler && c.mode == Idle && c.loop.Parsing?
    ensures Sound(t, Reply(Reported(c, r), 403, r.id).(mode := Denied))
  {
  }

  /** The headers of a request that need no user, or whose user passes. */
  lemma AdmitSound(t: Table, c: Conn, r: Request)
    requires Sound(t, c) && (Guarded(t, r.uri) ==> Passes(t, r)) && c.mode == Idle && c.loop.Parsing?
    ensures var c0 := Reported(c, r);
            var c1 := if Guarded(t, r.uri) then Log(c0, Admitted(r)) else c0;
            Sound(t, c1) && (Guarded(t, r.uri) ==> r in Audited(t, c1.log).admitted)
  {
    hide Guarded, Passes;
    AuditedSnoc(t, c.log, Admitted(r));
  }

  lemma HeadersSound(t: Table, c: Conn, r: Request, a: Answers)
    requires Sound(t, c) && Enabled(c, Headers(r, a))
    ensures Sound(t, OnHeaders(t, c, r, a))
  {
    hide StartUpload, Guarded, Passes, Audited;
    if c.owner == HttpHandler && c.mode == Idle {
      if Guarded(t, r.uri) && !Passes(t, r) {
        RefuseSound(t, c, r);
      } else {
        AdmitSound(t, c, r);
        if !c.websocket {
          StartUploadSound(t, if Guarded(t, r.uri) then Log(Reported(c, r), Admitted(r)) else Reported(c, r), r, a);
        }
      }
    } else {
      AuditedSnoc(t, c.log, PassedOn(r));
    }
  }

  /** What serving a request does to a connection that is being served. */
  predicate Serving(c: Conn, r: Request) {
    c.mode == Idle && c.loop.Parsing? && c.responding && c.request == None && c.owner == HttpHandler && !c.closed
  }

  lemma UpgradeSound(t: Table, c: Conn, r: Request, a: Answers)
    requires Sound(t, c) && Serving(c, r)
    ensures Sound(t, Upgrade(c, r, a)) && Sound(t, Upgrade(c, r, a).(mode := Marked))
  {
    hide Audited, Guarded;
    AuditedSnoc(t, c.log, Replied(426, r.id));
  }

  lemma ApiCallSound(t: Table, c: Conn, h: Handler, r: Request, n: nat, a: Answers)
    requires Sound(t, c) && Serving(c, r) && r in Audited(t, c.log).admitted && LengthKnown(Audited(t, c.log), r, n)
    ensures Sound(t, ApiCall(c, h, r, n, a))
  {
    hide Audited, Guarded, Upgrade;
    match h.kind {
      case Data =>
        PrivilegeSound(t, c, SetterRan(r, n));
        ReplySound(t, if n > 0 && h.settable then Log(c, SetterRan(r, n)) else c, 200, r.id);
      case Array =>
        PrivilegeSound(t, c, SetterRan(r, n));
        ReplySound(t, if n > 0 && a.itemExists && h.settable then Log(c, SetterRan(r, n)) else c, 200, r.id);
      case Action =>
        PrivilegeSound(t, c, StarterRan(r, n));
        ReplySound(t, if n == 0 then c else Log(c, StarterRan(r, n)), 200, r.id);
      case File =>
      case Custom =>
        PrivilegeSound(t, c, CustomRan(r, n));
      case Websocket =>
        UpgradeSound(t, c, r, a);
      case _ =>
        ReplySound(t, c, 500, r.id);
    }
  }

  lemma DispatchSound(t: Table, c: Conn, r: Request, n: nat, a: Answers)
    requires Sound(t, c) && Serving(c, r) && (Guarded(t, r.uri) ==> r in Audited(t, c.log).admitted)
    requires LengthKnown(Audited(t, c.log), r, n)
    ensures Sound(t, Dispatch(t, c, r, n, a))
  {
    NamedMeansGuarded(t, r.uri);
    hide Audited, Guarded, MgMatch, FindHandler, FindRoute, ApiCall, Upgrade;
    forall code {
      ReplySound(t, c, code, r.id);
    }
    UpgradeSound(t, c, r, a);
    var h := FindHandler(t.handlers, r.uri);
    if FindRoute(t.routes, r.uri).Some? {
      PrivilegeSound(t, c, CustomRan(r, n));
    } else if h.Some? {
      ApiCallSound(t, c, h.value, r, n, a);
    }
  }

  lemma MessageSound(t: Table, c: Conn, r: Request, m: Delivery, a: Answers)
    requires Sound(t, c) && Enabled(c, Message(r, m, a))
    ensures Sound(t, OnMessage(t, c, r, m, a))
  {
    hide Guarded, Dispatch, Audited;
    AuditedSnoc(t, c.log, PassedOn(r));
    if c.owner == HttpHandler && c.mode == Idle {
      DispatchSound(t, Taken(c, m), r, m.body, a);
    }
  }

  lemma HandlerEventSound(t: Table, c: Conn, cause: Cause, a: Answers)
    requires Sound(t, c) && c.loop.Resting? && !c.closed
    ensures Sound(t, HandlerEvent(c, cause, a))
  {
    hide Guarded, Passes, UploadRead, ReleaseUpload;
    match cause
    case ForRead =>
      if c.mode.Uploading? {
        UploadReadSound(t, c, a.writerOk);
      }
    case ForPoll =>
      if c.mode.ActionPending? {
        AuditedSnoc(t, c.log, Replied(200, c.mode.id));
      }
    case ForClose =>
      if c.mode.Uploading? {
        CloseSound(t, c);
      }
  }

  /** Bytes that come and go, and the parser's place in them, are no matter of the audit. */
  lemma BufferSound(t: Table, c: Conn, recv: seq<byte>)
    requires Sound(t, c)
    ensures Sound(t, c.(recv := recv))
    ensures c.parser && !c.closed ==>
              forall cause: Cause :: (cause.ForClose? ==> Audited(t, c.log).ending) ==>
                Sound(t, c.(recv := recv, loop := Parsing(cause, 0, false)))
    ensures Sound(t, c.(recv := recv, loop := Resting))
  {
    hide Guarded, Passes, Audited;
  }

  lemma StepSound(t: Table, c: Conn, e: Event)
    requires Sound(t, c) && Enabled(c, e)
    ensures Sound(t, Step(t, c, e))
  {
    ClosedRests(t, c);
    hide Guarded, Passes, OnHeaders, OnMessage, HandlerEvent, Sound, Drop, Audited;
    match e
    case Headers(r, a) => HeadersSound(t, c, r, a);
    case Message(r, m, a) => MessageSound(t, c, r, m, a);
    case Data(chunk, a) =>
      BufferSound(t, c, c.recv + chunk);
      HandlerEventSound(t, c.(recv := c.recv + chunk), ForRead, a);
    case Poll(a) =>
      BufferSound(t, c, c.recv);
      HandlerEventSound(t, c, ForPoll, a);
    case Close(a) =>
      var d := Log(c, CloseSeen);
      CloseSeenSound(t, c);
      BufferSound(t, d, d.recv);
      HandlerEventSound(t, d, ForClose, a);
    case LoopEnd(a) =>
      var recv := if c.loop.Parsing? then Drop(c.recv, c.loop.ofs) else c.recv;
      BufferSound(t, c, recv);
      HandlerEventSound(t, c.(recv := recv, loop := Resting), c.loop.cause, a);
  }

  lemma CloseSeenSound(t: Table, c: Conn)
    requires Sound(t, c)
    ensures Sound(t, Log(c, CloseSeen)) && Audited(t, Log(c, CloseSeen).log).ending
  {
    hide Guarded, Passes, Audited;
    AuditedSnoc(t, c.log, CloseSeen);
  }

  lemma ClosedRests(t: Table, c: Conn)
    requires Sound(t, c)
    ensures c.closed ==> c.loop.Resting?
  {
  }

  lemma {:induction false} EveryRunIsSound(t: Table, es: seq<Event>)
    requires Legal(t, es)
    ensures Sound(t, Run(t, es))
    decreases |es|
  {
    if es != [] {
      EveryRunIsSound(t, es[..|es| - 1]);
      StepSound(t, Run(t, es[..|es| - 1]), es[|es| - 1]);
    }
  }

  // ----------------------------------------------------------------- what it means

  /** In every run, every setter, action starter, custom handler and upload writer
      that ran did so for a request that had been admitted before, by a headers event
      that found a user whose level reaches the levels of the matching handlers. */
  lemma EffectsAreAuthorised(t: Table, es: seq<Event>, k: nat)
    requires Legal(t, es) && k < |Run(t, es).log|
    requires Privileged(Run(t, es).log[k])
    ensures var log := Run(t, es).log;
            Passes(t, log[k].req) && Admitted(log[k].req) in log[..k]
  {
    hide Audited, Passes, Step;
    SoundMeansOk(t, es);
    PrivilegeFollowsAdmission(t, Run(t, es).log, k);
  }

  lemma PrivilegeFollowsAdmission(t: Table, log: seq<Effect>, k: nat)
    requires Audited(t, log).ok && k < |log| && Privileged(log[k])
    ensures Passes(t, log[k].req) && Admitted(log[k].req) in log[..k]
  {
    OkEarlier(t, log, k + 1);
    OkEarlier(t, log, k);
    assert log[..k + 1][..k] == log[..k] && log[..k + 1][k] == log[k];
    PrivilegeNeedsAdmission(t, log[..k + 1]);
    hide Audited, Passes;
    AdmissionIsLogged(t, log[..k], log[k].req);
  }

  lemma PrivilegeNeedsAdmission(t: Table, log: seq<Effect>)
    requires log != [] && Privileged(log[|log| - 1]) && Audited(t, log).ok
    ensures log[|log| - 1].req in Audited(t, log[..|log| - 1]).admitted
  {
  }

  /** The auditor never forgives. */
  lemma {:induction false} OkEarlier(t: Table, log: seq<Effect>, k: nat)
    requires k <= |log| && Audited(t, log).ok
    ensures Audited(t, log[..k]).ok
    decreases |log|
  {
    if k == |log| {
      assert log[..k] == log;
    } else {
      OkEarlier(t, log[..|log| - 1], k);
      assert log[..|log| - 1][..k] == log[..k];
    }
  }

  lemma {:induction false} AdmissionIsLogged(t: Table, log: seq<Effect>, r: Request)
    requires Audited(t, log).ok && r in Audited(t, log).admitted
    ensures Admitted(r) in log && Passes(t, r)
    decreases |log|
  {
    hide Passes;
    var log0, e := log[..|log| - 1], log[|log| - 1];
    if e != Admitted(r) {
      AdmissionIsLogged(t, log0, r);
    }
  }

  lemma SoundMeansOk(t: Table, es: seq<Event>)
    requires Legal(t, es)
    ensures Audited(t, Run(t, es).log).ok
  {
    EveryRunIsSound(t, es);
  }

  // -------------------------------------------------------------- release exactly once

  function Openings(log: seq<Effect>, id: nat): nat {
    if log == [] then 0
    else Openings(log[..|log| - 1], id) + (if log[|log| - 1] == Opened(id) then 1 else 0)
  }

  function Releases(log: seq<Effect>, id: nat): nat {
    if log == [] then 0
    else Releases(log[..|log| - 1], id) + (if log[|log| - 1] == Released(id) then 1 else 0)
  }

  lemma {:induction false} BooksBalance(t: Table, log: seq<Effect>, id: nat)
    requires Audited(t, log).ok
    ensures Openings(log, id) == Releases(log, id) + (if Audited(t, log).held == Some(id) then 1 else 0)
    ensures Openings(log, id) <= Audited(t, log).openings
    decreases |log|
  {
    hide Passes;
    if log != [] {
      BooksBalance(t, log[..|log| - 1], id);
    }
  }

  /** In every run, whether the upload finishes, the writer fails or the connection
      closes midway: each OTA context opened and each upload name stored is held
      until it is released, it is released at most once, and by the close it has been
      released exactly as often as it was opened. Every write in between uses the resource that is held. */
  lemma ResourcesAreReleasedOnce(t: Table, es: seq<Event>, id: nat)
    requires Legal(t, es)
    ensures var c := Run(t, es);
            && Openings(c.log, id) == Releases(c.log, id) + (if HeldBy(c) == Some(id) then 1 else 0)
            && (c.closed ==> Openings(c.log, id) == Releases(c.log, id))
            && Openings(c.log, id) <= 1
    ensures forall k :: 0 <= k < |Run(t, es).log| && Run(t, es).log[k].Written? ==>
              var e := Run(t, es).log[k]; var before := Run(t, es).log[..k];
              Openings(before, e.req.id) - Releases(before, e.req.id) == if e.held then 1 else 0
  {
    EveryRunIsSound(t, es);
    var log := Run(t, es).log;
    BooksBalance(t, log, id);
    hide Run, Openings, Releases, Audited, Passes;
    forall k | 0 <= k < |log| && log[k].Written?
      ensures Openings(log[..k], log[k].req.id) - Releases(log[..k], log[k].req.id) == if log[k].held then 1 else 0
    {
      WriteUsesWhatIsHeld(t, log, k);
    }
  }

  lemma WriteUsesWhatIsHeld(t: Table, log: seq<Effect>, k: nat)
    requires Audited(t, log).ok && k < |log| && log[k].Written?
    ensures Openings(log[..k], log[k].req.id) - Releases(log[..k], log[k].req.id) == if log[k].held then 1 else 0
  {
    OkEarlier(t, log, k + 1);
    OkEarlier(t, log, k);
    assert log[..k + 1][..k] == log[..k] && log[..k + 1][k] == log[k];
    WriteNeedsResource(t, log[..k + 1]);
    hide Audited, Openings, Releases;
    BooksBalance(t, log[..k], log[k].req.id);
  }

  lemma WriteNeedsResource(t: Table, log: seq<Effect>)
    requires log != [] && log[|log| - 1].Written? && Audited(t, log).ok
    ensures var e := log[|log| - 1];
            Audited(t, log[..|log| - 1]).held == if e.held then Some(e.req.id) else None
  {
  }
}
