/**
 Refused requests: one 403 each, however often the headers are reported, and none
 of the effects that need an authorised request.
 */
module WebApiRefusals {
  import opened Common
  import opened Routing
  import opened Glob
  import opened WebApi
  import opened WebApiRuns
  import Upload

  function Denials(log: seq<Effect>, id: nat): nat {
    if log == [] then 0
    else Denials(log[..|log| - 1], id) + (if log[|log| - 1] == Replied(403, id) then 1 else 0)
  }

  /** Privileged effects of a request, by its number. */
  function Privileges(log: seq<Effect>, id: nat): nat {
    if log == [] then 0
    else
      var e := log[|log| - 1];
      Privileges(log[..|log| - 1], id) + (if Privileged(e) && e.req.id == id then 1 else 0)
  }

  lemma TallySnoc(log: seq<Effect>, e: Effect, id: nat)
    ensures Denials(log + [e], id) == Denials(log, id) + (if e == Replied(403, id) then 1 else 0)
    ensures Privileges(log + [e], id) == Privileges(log, id) + (if Privileged(e) && e.req.id == id then 1 else 0)
  {
  }

  /** The headers of `r` are refused: the user is unknown, or the level falls short for the
      body that the headers declare. */
  predicate Refused(t: Table, r: Request) {
    Guarded(t, r.uri) && !Passes(t, r)
  }

  /** Where request number `id` stands. */
  predicate Tally(t: Table, c: Conn, id: nat) {
    var d, p := Denials(c.log, id), Privileges(c.log, id);
    && (c.request.Some? ==> c.request.value.id == c.served)
    && (c.mode == Denied ==> c.request.Some? && c.owner == HttpHandler && Refused(t, c.request.value))
    && (id > c.served ==> d == 0 && p == 0)
    && (id == c.served ==> d == (if c.mode == Denied then 1 else 0))
    && (id == c.served && (c.parser || c.loop.Parsing? || c.request == None) ==> p == 0)
    && d <= 1 && (d == 1 ==> p == 0)
  }

  /** An effect other than a refusal; privileged ones belong to the current upload. */
  lemma LogTally(t: Table, c: Conn, e: Effect, id: nat)
    requires Tally(t, c, id) && !(e.Replied? && e.code == 403)
    requires Privileged(e) ==> c.request == Some(e.req) && !c.parser && !c.loop.Parsing? && c.mode != Denied
    ensures Tally(t, Log(c, e), id)
    ensures Denials(Log(c, e).log, id) == Denials(c.log, id)
  {
  }

  lemma ReplyTally(t: Table, c: Conn, code: nat, to: nat, id: nat)
    requires Tally(t, c, id) && code != 403 && c.mode != Denied
    ensures Tally(t, Reply(c, code, to).(draining := true), id)
    ensures Tally(t, Reply(c, code, to).(mode := Idle), id)
    ensures Denials(Reply(c, code, to).log, id) == Denials(c.log, id)
  {
  }

  lemma WriteTally(t: Table, c: Conn, u: Upload.Step, id: nat)
    requires Tally(t, c, id) && c.mode.Uploading? && !c.parser && !c.loop.Parsing? && c.request == Some(c.mode.req)
    ensures Tally(t, PassOnBytes(c, u), id) && PassOnBytes(c, u).served == c.served && PassOnBytes(c, u).mode.Uploading?
    ensures Denials(PassOnBytes(c, u).log, id) == Denials(c.log, id)
  {
    hide Refused, Denials, Privileges;
    if u.write.Some? {
      TallySnoc(c.log, Written(c.mode.req, c.mode.held, u.write.value), id);
    }
  }

  lemma EndTally(t: Table, c: Conn, code: nat, id: nat)
    requires Tally(t, c, id) && c.mode.Uploading? && code != 403
    ensures Tally(t, EndUpload(c, code), id) && EndUpload(c, code).served == c.served
    ensures Denials(EndUpload(c, code).log, id) == Denials(c.log, id)
  {
    hide Refused, Denials, Privileges;
    var e := Replied(code, c.mode.req.id);
    TallySnoc(c.log, e, id);
    TallySnoc(c.log + [e], Released(c.mode.req.id), id);
  }

  lemma CloseTally(t: Table, c: Conn, id: nat)
    requires Tally(t, c, id) && c.mode.Uploading?
    ensures Tally(t, ReleaseUpload(c).(closed := true), id)
    ensures Denials(ReleaseUpload(c).log, id) == Denials(c.log, id)
    ensures ReleaseUpload(c).served == c.served
  {
    hide Refused, Denials, Privileges;
    TallySnoc(c.log, Released(c.mode.req.id), id);
  }

  lemma UploadReadTally(t: Table, c: Conn, ok: bool, id: nat)
    requires Tally(t, c, id) && c.mode.Uploading? && !c.parser && !c.loop.Parsing? && c.request == Some(c.mode.req)
    ensures Tally(t, UploadRead(c, ok), id)
    ensures Denials(UploadRead(c, ok).log, id) == Denials(c.log, id)
    ensures UploadRead(c, ok).served == c.served
  {
    hide Tally, Denials, Privileges, Upload.ReadStep, PassOnBytes, EndUpload;
    var u := Upload.ReadStep(c.mode.received, c.mode.req.bodyLen, c.recv, ok);
    WriteTally(t, c, u, id);
    EndTally(t, PassOnBytes(c, u), if u.outcome == Upload.Done then 200 else 400, id);
  }

  lemma BeginUploadTally(t: Table, c: Conn, ota: bool, r: Request, granted: bool, id: nat)
    requires Tally(t, c, id) && c.mode == Idle && c.loop.Parsing? && c.request == Some(r)
    ensures Tally(t, BeginUpload(c, ota, r, granted), id)
    ensures Denials(BeginUpload(c, ota, r, granted).log, id) == Denials(c.log, id)
  {
    hide Refused, Denials, Privileges;
    TallySnoc(c.log, Opened(r.id), id);
  }

  /** From `c` to `u` the tally is kept, nobody is refused and no request is completed. */
  predicate KeepsTheTally(t: Table, c: Conn, u: Conn, id: nat) {
    Tally(t, u, id) && Denials(u.log, id) == Denials(c.log, id) && u.served == c.served
  }

  lemma UploadKeeps(t: Table, c: Conn, ota: bool, r: Request, a: Answers, id: nat)
    requires Tally(t, c, id) && c.mode == Idle && c.loop.Parsing? && c.request == Some(r)
    ensures KeepsTheTally(t, c, UploadRead(BeginUpload(c, ota, r, a.granted), a.writerOk), id)
  {
    BeginUploadTally(t, c, ota, r, a.granted, id);
    var b := BeginUpload(c, ota, r, a.granted);
    hide Tally, UploadRead, Denials;
    UploadReadTally(t, b, a.writerOk, id);
  }

  lemma StartUploadTally(t: Table, c: Conn, r: Request, a: Answers, id: nat)
    requires Tally(t, c, id) && c.mode == Idle && c.loop.Parsing? && c.request == Some(r)
    ensures KeepsTheTally(t, c, StartUpload(t, c, r, a), id)
  {
    ReplyTally(t, c, 400, r.id, id);
    assert KeepsTheTally(t, c, c, id) && KeepsTheTally(t, c, Reply(c, 400, r.id).(draining := true), id) by {
      hide Tally, Denials, FindHandler;
    }
    hide KeepsTheTally, Tally, UploadRead, BeginUpload, Reply, FindHandler;
    var h := FindHandler(t.handlers, r.uri);
    if h.Some? {
      UploadKeeps(t, c, h.value.kind == Ota, r, a, id);
    }
  }

  lemma HeadersTally(t: Table, c: Conn, r: Request, a: Answers, id: nat)
    requires Tally(t, c, id) && Enabled(c, Headers(r, a)) && Shape(c)
    ensures Tally(t, OnHeaders(t, c, r, a), id)
    ensures id < c.served ==> Denials(OnHeaders(t, c, r, a).log, id) == Denials(c.log, id)
    ensures OnHeaders(t, c, r, a).served == c.served
  {
    hide Guarded, Passes, StartUpload, Denials, Privileges;
    var c0 := Reported(c, r);
    LogTally(t, c0, PassedOn(r), id);
    LogTally(t, c0, Admitted(r), id);
    TallySnoc(c.log, Replied(403, r.id), id);
    var c1 := if Guarded(t, r.uri) then Log(c0, Admitted(r)) else c0;
    if c.owner == HttpHandler && c.mode == Idle && !Refused(t, r) {
      StartUploadTally(t, c1, r, a, id);
    }
  }

  /** `u` follows `c` with nothing but harmless replies and privileged effects of `r` in between. */
  predicate OnlyAbout(c: Conn, u: Conn, r: Request, id: nat) {
    && Denials(u.log, id) == Denials(c.log, id)
    && (r.id != id ==> Privileges(u.log, id) == Privileges(c.log, id))
    && u.request == c.request && u.served == c.served && (u.mode == c.mode || u.mode.ActionPending? || u.mode == Marked)
  }

  lemma LogAbout(c: Conn, u: Conn, e: Effect, r: Request, id: nat)
    requires OnlyAbout(c, u, r, id) && (Privileged(e) ==> e.req == r) && !e.Replied?
    ensures OnlyAbout(c, Log(u, e), r, id)
  {
  }

  lemma ReplyAbout(c: Conn, u: Conn, code: nat, r: Request, id: nat)
    requires OnlyAbout(c, u, r, id) && code != 403
    ensures OnlyAbout(c, Reply(u, code, r.id), r, id)
  {
  }

  lemma UpgradeAbout(c: Conn, r: Request, a: Answers, id: nat)
    ensures OnlyAbout(c, Upgrade(c, r, a), r, id) && OnlyAbout(c, Upgrade(c, r, a).(mode := Marked), r, id)
  {
    hide Denials, Privileges;
    ReplyAbout(c, c, 426, r, id);
  }

  lemma StateAbout(c: Conn, u: Conn, r: Request, id: nat)
    requires OnlyAbout(c, u, r, id)
    ensures OnlyAbout(c, u.(mode := ActionPending(r.id)), r, id) && OnlyAbout(c, u.(owner := FileStreamer), r, id)
    ensures OnlyAbout(c, u.(responding := false), r, id)
  {
    hide Denials, Privileges;
  }

  lemma ApiCallTally(c: Conn, h: Handler, r: Request, n: nat, a: Answers, id: nat)
    ensures OnlyAbout(c, ApiCall(c, h, r, n, a), r, id)
  {
    hide OnlyAbout, Log, Reply, Upgrade;
    NothingAbout(c, r, id);
    LogAbout(c, c, SetterRan(r, n), r, id);
    LogAbout(c, c, StarterRan(r, n), r, id);
    LogAbout(c, c, CustomRan(r, n), r, id);
    UpgradeAbout(c, r, a, id);
    ReplyAbout(c, c, if h.kind == Ota || h.kind == Unknown then 500 else 200, r, id);
    ReplyAbout(c, Log(c, SetterRan(r, n)), 200, r, id);
    ReplyAbout(c, Log(c, StarterRan(r, n)), 200, r, id);
    StateAbout(c, c, r, id);
    StateAbout(c, Log(c, StarterRan(r, n)), r, id);
    StateAbout(c, Log(c, CustomRan(r, n)), r, id);
  }

  lemma NothingAbout(c: Conn, r: Request, id: nat)
    ensures OnlyAbout(c, c, r, id)
  {
  }

  lemma DispatchTally(t: Table, c: Conn, r: Request, n: nat, a: Answers, id: nat)
    ensures OnlyAbout(c, Dispatch(t, c, r, n, a), r, id)
  {
    hide Denials, Privileges, Log, Reply, MgMatch, ApiCall, FindHandler, FindRoute, Upgrade;
    LogAbout(c, c, CustomRan(r, n), r, id);
    ReplyAbout(c, c, 200, r, id);
    ReplyAbout(c, c, 401, r, id);
    UpgradeAbout(c, r, a, id);
    var h := FindHandler(t.handlers, r.uri);
    if h.Some? {
      ApiCallTally(c, h.value, r, n, a, id);
    }
  }

  lemma MessageTally(t: Table, c: Conn, r: Request, m: Delivery, a: Answers, id: nat)
    requires Tally(t, c, id) && Enabled(c, Message(r, m, a)) && Shape(c)
    ensures Tally(t, OnMessage(t, c, r, m, a), id)
    ensures Denials(OnMessage(t, c, r, m, a).log, id) == Denials(c.log, id)
    ensures OnMessage(t, c, r, m, a).served == c.served + 1
  {
    hide Refused, Dispatch, Denials, Privileges;
    TallySnoc(c.log, PassedOn(r), id);
    DispatchTally(t, Taken(c, m), r, m.body, a, id);
  }

  lemma HandlerEventTally(t: Table, c: Conn, cause: Cause, a: Answers, id: nat)
    requires Tally(t, c, id) && Shape(c) && c.loop.Resting?
    ensures KeepsTheTally(t, c, HandlerEvent(c, cause, a), id)
  {
    hide Refused, Denials, Privileges, UploadRead, ReleaseUpload;
    match cause
    case ForRead =>
      if c.mode.Uploading? {
        UploadReadTally(t, c, a.writerOk, id);
      }
    case ForPoll =>
      if c.mode.ActionPending? {
        ReplyTally(t, c, 200, c.mode.id, id);
      }
    case ForClose =>
      if c.mode.Uploading? {
        CloseTally(t, c, id);
      }
  }

  /** Bytes that come and go, and the parser's place in them, are no matter of the tally. */
  lemma BufferTally(t: Table, c: Conn, recv: seq<byte>, id: nat)
    requires Tally(t, c, id) && Shape(c)
    ensures KeepsTheTally(t, c, c.(recv := recv), id) && Shape(c.(recv := recv))
    ensures KeepsTheTally(t, c, c.(recv := recv, loop := Resting), id) && Shape(c.(recv := recv, loop := Resting))
    ensures c.parser && !c.closed ==>
              forall cause :: KeepsTheTally(t, c, c.(recv := recv, loop := Parsing(cause, 0, false)), id)
  {
    hide Refused, Denials, Privileges;
  }

  lemma CloseSeenTally(t: Table, c: Conn, id: nat)
    requires Tally(t, c, id) && Shape(c)
    ensures KeepsTheTally(t, c, Log(c, CloseSeen), id) && Shape(Log(c, CloseSeen))
  {
    hide Refused, Denials, Privileges;
    TallySnoc(c.log, CloseSeen, id);
  }

  lemma StepTally(t: Table, c: Conn, e: Event, id: nat)
    requires Tally(t, c, id) && Enabled(c, e) && Shape(c)
    ensures Tally(t, Step(t, c, e), id)
    ensures id < c.served ==> Denials(Step(t, c, e).log, id) == Denials(c.log, id)
    ensures Step(t, c, e).served >= c.served
  {
    hide Tally, Denials, OnHeaders, OnMessage, HandlerEvent, Drop, Shape;
    match e
    case Headers(r, a) => HeadersTally(t, c, r, a, id);
    case Message(r, m, a) => MessageTally(t, c, r, m, a, id);
    case Data(chunk, a) =>
      BufferTally(t, c, c.recv + chunk, id);
      HandlerEventTally(t, c.(recv := c.recv + chunk), ForRead, a, id);
    case Poll(a) =>
      BufferTally(t, c, c.recv, id);
      HandlerEventTally(t, c, ForPoll, a, id);
    case Close(a) =>
      var d := Log(c, CloseSeen);
      CloseSeenTally(t, c, id);
      BufferTally(t, d, d.recv, id);
      HandlerEventTally(t, d, ForClose, a, id);
    case LoopEnd(a) =>
      var recv := if c.loop.Parsing? then Drop(c.recv, c.loop.ofs) else c.recv;
      BufferTally(t, c, recv, id);
      HandlerEventTally(t, c.(recv := recv, loop := Resting), c.loop.cause, a, id);
  }

  lemma {:induction false} EveryRunTallies(t: Table, es: seq<Event>, id: nat)
    requires Legal(t, es)
    ensures Tally(t, Run(t, es), id)
    decreases |es|
  {
    if es != [] {
      EveryRunTallies(t, es[..|es| - 1], id);
      EveryRunIsSound(t, es[..|es| - 1]);
      hide Sound, Tally, Step, Enabled;
      ShapeOfSound(t, Run(t, es[..|es| - 1]));
      StepTally(t, Run(t, es[..|es| - 1]), es[|es| - 1], id);
    }
  }

  lemma ShapeOfSound(t: Table, c: Conn)
    requires Sound(t, c)
    ensures Shape(c)
  {
  }

  /** No request is refused twice, and a refused request has none of the privileged effects. */
  lemma RefusedAtMostOnce(t: Table, es: seq<Event>, id: nat)
    requires Legal(t, es)
    ensures Denials(Run(t, es).log, id) <= 1
    ensures Denials(Run(t, es).log, id) == 1 ==> Privileges(Run(t, es).log, id) == 0
  {
    EveryRunTallies(t, es, id);
  }

  /** Exactly the requests that do not pass are refused: when the message of a request
      that this handler saw is complete, whatever length its body turned out to have, it has
      been answered by one 403 if it was refused and by none if it was not. (On a connection
      marked for a websocket nothing is checked and, `IgnoredAfterUpgrade` says, nothing done.) */
  lemma RefusedExactlyOnce(t: Table, es: seq<Event>, r: Request, m: Delivery, a: Answers)
    requires Legal(t, es) && Enabled(Run(t, es), Message(r, m, a))
    requires Run(t, es).owner == HttpHandler
    ensures Denials(Step(t, Run(t, es), Message(r, m, a)).log, r.id)
            == (if Refused(t, r) && Run(t, es).mode != Marked then 1 else 0)
    ensures Refused(t, r) ==> Privileges(Step(t, Run(t, es), Message(r, m, a)).log, r.id) == 0
  {
    var c := Run(t, es);
    EveryRunTallies(t, es, r.id);
    EveryRunIsSound(t, es);
    MessageTally(t, c, r, m, a, r.id);
    hide Run, Step, Denials, Privileges, Passes, Audited;
    if c.mode == Idle && Guarded(t, r.uri) {
      AdmissionIsLogged(t, c.log, r);
    }
  }

  /** That answer is final: later events leave the tally of a completed request alone. */
  lemma {:induction false} RefusalIsFinal(t: Table, es: seq<Event>, more: seq<Event>, id: nat)
    requires Legal(t, es + more) && id < Run(t, es).served
    ensures Denials(Run(t, es + more).log, id) == Denials(Run(t, es).log, id)
    ensures id < Run(t, es + more).served
    decreases |more|
  {
    if more == [] {
      assert es + more == es;
    } else {
      var more0, e := more[..|more| - 1], more[|more| - 1];
      assert (es + more)[..|es + more| - 1] == es + more0 && (es + more)[|es + more| - 1] == e;
      RefusalIsFinal(t, es, more0, id);
      EveryRunTallies(t, es + more0, id);
      EveryRunIsSound(t, es + more0);
      ShapeOfSound(t, Run(t, es + more0));
      StepTally(t, Run(t, es + more0), e, id);
      hide Sound, Tally, Step, Enabled;
    }
  }
}
