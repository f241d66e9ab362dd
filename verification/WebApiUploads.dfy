/**
 Uploads on a live connection: from the headers event on, what the firmware's writer is
 given is what the re-chunker's run over the buffered and arriving bytes says; and when
 that is the body that the client sent.
 */
module WebApiUploads {
  import opened Common
  import opened Routing
  import opened Glob
  import opened WebApi
  import opened WebApiRuns
  import opened WebApiRefusals
  import Upload

  /** The calls of the writer made for request number `id`. */
  function WriterCalls(log: seq<Effect>, id: nat): seq<Upload.Write> {
    if log == [] then []
    else
      var e := log[|log| - 1];
      WriterCalls(log[..|log| - 1], id) + (if e.Written? && e.req.id == id then [e.call] else [])
  }

  lemma WriterCallsSnoc(log: seq<Effect>, e: Effect, id: nat)
    ensures WriterCalls(log + [e], id)
            == WriterCalls(log, id) + (if e.Written? && e.req.id == id then [e.call] else [])
  {
    assert (log + [e])[..|log|] == log;
  }

  /** The connection stands where the re-chunker's session stands. */
  predicate Tracks(c: Conn, r: Request, s: Upload.Session) {
    && c.owner == HttpHandler && !c.websocket && !c.parser && !c.loop.Parsing?
    && WriterCalls(c.log, r.id) == s.writes && c.recv == s.recv
    && (if s.outcome == Upload.Running
        then c.mode.Uploading? && c.mode.req == r && c.mode.received == s.received
        else c.mode == Idle && c.draining)
  }

  lemma PassOnTracks(c: Conn, r: Request, u: Upload.Step)
    requires c.mode.Uploading? && c.mode.req == r
    ensures WriterCalls(PassOnBytes(c, u).log, r.id)
            == WriterCalls(c.log, r.id) + (if u.write.Some? then [u.write.value] else [])
  {
    hide WriterCalls;
    if u.write.Some? {
      WriterCallsSnoc(c.log, Written(r, c.mode.held, u.write.value), r.id);
    }
  }

  lemma EndTracks(c: Conn, code: nat, id: nat)
    requires c.mode.Uploading?
    ensures WriterCalls(EndUpload(c, code).log, id) == WriterCalls(c.log, id)
    ensures var u := EndUpload(c, code);
            u.mode == Idle && u.draining && u.recv == c.recv && u.owner == c.owner && u.websocket == c.websocket
            && u.parser == c.parser && u.loop == c.loop
  {
    hide WriterCalls;
    var e := Replied(code, c.mode.req.id);
    WriterCallsSnoc(c.log, e, id);
    WriterCallsSnoc(c.log + [e], Released(c.mode.req.id), id);
  }

  /** One MG_EV_READ on the connection is one step of the session. */
  lemma ReadTracks(c: Conn, r: Request, s: Upload.Session, chunk: seq<byte>, ok: bool)
    requires Tracks(c.(recv := s.recv), r, s) && s.outcome == Upload.Running && c.recv == s.recv + chunk
    ensures Tracks(UploadRead(c, ok), r, Upload.Feed(s, r.bodyLen, chunk, ok))
  {
    hide WriterCalls, EndUpload, Upload.ReadStep;
    var u := Upload.ReadStep(s.received, r.bodyLen, c.recv, ok);
    PassOnTracks(c, r, u);
    EndTracks(PassOnBytes(c, u), if u.outcome == Upload.Done then 200 else 400, r.id);
  }

  /** The headers event of `r` begins an upload on `c`. */
  predicate Starts(t: Table, c: Conn, r: Request, a: Answers) {
    && Enabled(c, Headers(r, a)) && !c.loop.cause.ForClose?
    && c.owner == HttpHandler && !c.websocket && c.mode == Idle && r.isPost
    && (Guarded(t, r.uri) ==> Passes(t, r))
    && (var h := FindHandler(t.handlers, r.uri);
        h.Some? && (h.value.kind == File || (h.value.kind == Ota && a.granted)))
  }

  /** The rest of an upload as the handler sees it. */
  function Deliver(t: Table, c: Conn, es: seq<Event>): Conn {
    if es == [] then c else Step(t, Deliver(t, c, es[..|es| - 1]), es[|es| - 1])
  }

  lemma {:induction false} RunDelivers(t: Table, pre: seq<Event>, es: seq<Event>)
    ensures Run(t, pre + es) == Deliver(t, Run(t, pre), es)
    decreases |es|
  {
    hide Step;
    if es == [] {
      assert pre + es == pre;
    } else {
      assert (pre + es)[..|pre + es| - 1] == pre + es[..|es| - 1];
      RunDelivers(t, pre, es[..|es| - 1]);
    }
  }

  /** Bytes arrive, polls interleave, the parser's last loop ends. */
  predicate Traffic(es: seq<Event>) {
    forall e :: e in es ==> e.Data? || e.Poll? || e.LoopEnd?
  }

  /** When the loop that reported the headers ends, the handler sees a read without news. */
  function Arrivals(t: Table, c: Conn, es: seq<Event>): seq<Upload.Arrival> {
    if es == [] then []
    else
      var es0, e := es[..|es| - 1], es[|es| - 1];
      Arrivals(t, c, es0) + Arrival(Deliver(t, c, es0), e)
  }

  function Arrival(c: Conn, e: Event): seq<Upload.Arrival> {
    if e.Data? then [Upload.Arrival(e.chunk, e.a.writerOk)]
    else if e.LoopEnd? && !c.loop.Resting? && c.loop.cause.ForRead? then [Upload.Arrival([], e.a.writerOk)]
    else []
  }

  /** Everything the re-chunker gets to see: what is in the buffer behind as many bytes as
      the headers have, and what arrives later. */
  function Stream(t: Table, c: Conn, r: Request, a: Answers, es: seq<Event>): seq<Upload.Arrival>
    requires c.loop.Parsing?
  {
    [Upload.Arrival(Drop(c.recv, r.headLen), a.writerOk)] + Arrivals(t, OnHeaders(t, c, r, a), es)
  }

  /** The connection as `start_uploads` leaves it, before the first MG_EV_READ. */
  function Prepared(t: Table, c: Conn, r: Request, a: Answers): Conn
    requires FindHandler(t.handlers, r.uri).Some? && c.loop.Parsing?
  {
    var c0 := Reported(c, r);
    BeginUpload(if Guarded(t, r.uri) then Log(c0, Admitted(r)) else c0,
                FindHandler(t.handlers, r.uri).value.kind == Ota, r, a.granted)
  }

  lemma HeadersPrepare(t: Table, c: Conn, r: Request, a: Answers)
    requires Starts(t, c, r, a)
    ensures OnHeaders(t, c, r, a) == UploadRead(Prepared(t, c, r, a), a.writerOk)
  {
    hide WriterCalls, UploadRead, Guarded, Passes, FindHandler;
  }

  lemma PreparedTracks(t: Table, c: Conn, r: Request, a: Answers)
    requires Starts(t, c, r, a) && WriterCalls(c.log, r.id) == []
    ensures Tracks(Prepared(t, c, r, a).(recv := []), r, Upload.Session(Upload.Running, 0, [], []))
    ensures Prepared(t, c, r, a).recv == Drop(c.recv, r.headLen)
  {
    hide WriterCalls, Guarded, Passes, FindHandler, Drop;
    WriterCallsSnoc(c.log, Admitted(r), r.id);
    WriterCallsSnoc(if Guarded(t, r.uri) then c.log + [Admitted(r)] else c.log, Opened(r.id), r.id);
  }

  lemma HeadersTrack(t: Table, c: Conn, r: Request, a: Answers)
    requires Starts(t, c, r, a) && WriterCalls(c.log, r.id) == []
    ensures Tracks(OnHeaders(t, c, r, a), r, Upload.Run(r.bodyLen, Stream(t, c, r, a, [])))
  {
    hide OnHeaders, Tracks, WriterCalls, UploadRead, Guarded, Passes, FindHandler, Log, Upload.ReadStep, Prepared;
    var first := Upload.Arrival(Drop(c.recv, r.headLen), a.writerOk);
    assert Stream(t, c, r, a, []) == [first] && [first][..0] == [];
    var s := Upload.Session(Upload.Running, 0, [], []);
    assert Upload.Run(r.bodyLen, [first]) == Upload.Feed(s, r.bodyLen, first.chunk, first.writerOk);
    HeadersPrepare(t, c, r, a);
    PreparedTracks(t, c, r, a);
    assert s.recv + first.chunk == first.chunk;
    ReadTracks(Prepared(t, c, r, a), r, s, first.chunk, a.writerOk);
  }

  /** The session after one more event. */
  function Fed(s: Upload.Session, expected: nat, xs: seq<Upload.Arrival>): Upload.Session {
    if xs == [] then s else Upload.Feed(s, expected, xs[0].chunk, xs[0].writerOk)
  }

  lemma ReadKeepsDetached(c: Conn, ok: bool)
    requires c.mode.Uploading?
    ensures var u := UploadRead(c, ok); u.loop == c.loop && u.parser == c.parser && u.closed == c.closed
  {
    hide Upload.ReadStep;
  }

  lemma EventTracks(t: Table, c: Conn, r: Request, s: Upload.Session, e: Event)
    requires Tracks(c, r, s) && (e.Data? || e.Poll? || e.LoopEnd?)
    requires !c.loop.Resting? ==> !c.loop.cause.ForClose?
    ensures Tracks(Step(t, c, e), r, Fed(s, r.bodyLen, Arrival(c, e)))
    ensures !Step(t, c, e).loop.Resting? ==> Step(t, c, e).loop == c.loop
  {
    hide WriterCalls, Upload.ReadStep, UploadRead;
    if s.outcome == Upload.Running {
      if e.Data? {
        ReadTracks(c.(recv := c.recv + e.chunk), r, s, e.chunk, e.a.writerOk);
        ReadKeepsDetached(c.(recv := c.recv + e.chunk), e.a.writerOk);
      } else if e.LoopEnd? {
        assert s.recv + [] == s.recv;
        ReadTracks(c.(loop := Resting), r, s, [], e.a.writerOk);
        ReadKeepsDetached(c.(loop := Resting), e.a.writerOk);
      }
    } else {
      assert c.recv + [] == c.recv;
    }
  }

  lemma HeadersReturn(t: Table, c: Conn, r: Request, a: Answers)
    requires Starts(t, c, r, a)
    ensures OnHeaders(t, c, r, a).loop == Returned(c.loop.cause)
  {
    hide UploadRead, Guarded, Passes, FindHandler;
    HeadersPrepare(t, c, r, a);
    ReadKeepsDetached(Prepared(t, c, r, a), a.writerOk);
  }

  /** The writer's calls on a connection are those of the re-chunker's run. */
  lemma {:induction false} ConnectionFollowsRun(t: Table, c: Conn, r: Request, a: Answers, es: seq<Event>)
    requires Starts(t, c, r, a) && WriterCalls(c.log, r.id) == [] && Traffic(es)
    ensures var d := Deliver(t, OnHeaders(t, c, r, a), es);
      && Tracks(d, r, Upload.Run(r.bodyLen, Stream(t, c, r, a, es)))
      && (!d.loop.Resting? ==> d.loop == Returned(c.loop.cause))
    decreases |es|
  {
    hide Tracks, OnHeaders, Step, Arrival;
    if es == [] {
      HeadersTrack(t, c, r, a);
      HeadersReturn(t, c, r, a);
    } else {
      var es0, e := es[..|es| - 1], es[|es| - 1];
      ConnectionFollowsRun(t, c, r, a, es0);
      var d := Deliver(t, OnHeaders(t, c, r, a), es0);
      EventTracks(t, d, r, Upload.Run(r.bodyLen, Stream(t, c, r, a, es0)), e);
      StreamSnoc(t, c, r, a, es);
    }
  }

  lemma StreamSnoc(t: Table, c: Conn, r: Request, a: Answers, es: seq<Event>)
    requires c.loop.Parsing? && es != []
    ensures var es0, e := es[..|es| - 1], es[|es| - 1];
      var xs, ys := Stream(t, c, r, a, es0), Arrival(Deliver(t, OnHeaders(t, c, r, a), es0), e);
      && Stream(t, c, r, a, es) == xs + ys
      && Upload.Run(r.bodyLen, xs + ys) == Fed(Upload.Run(r.bodyLen, xs), r.bodyLen, ys)
  {
    hide OnHeaders, Deliver, Upload.Feed, Drop;
    var es0, e := es[..|es| - 1], es[|es| - 1];
    var xs, ys := Stream(t, c, r, a, es0), Arrival(Deliver(t, OnHeaders(t, c, r, a), es0), e);
    if ys == [] {
      assert xs + ys == xs;
    } else {
      assert (xs + ys)[..|xs|] == xs && (xs + ys)[|xs|] == ys[0];
    }
  }

  // ------------------------------------------------------------------- the wire

  /** Everything that has arrived on a connection. */
  function Wire(es: seq<Event>): seq<byte> {
    if es == [] then []
    else Wire(es[..|es| - 1]) + (if es[|es| - 1].Data? then es[|es| - 1].chunk else [])
  }

  /** What the parser has not yet got through. */
  function Unparsed(c: Conn): seq<byte> {
    if c.loop.Parsing? then Drop(c.recv, c.loop.ofs) else c.recv
  }

  predicate Suffix(u: seq<byte>, w: seq<byte>) {
    |u| <= |w| && u == w[|w| - |u|..]
  }

  predicate Parsed(c: Conn) {
    c.parser || c.loop.Parsing?
  }

  lemma HeadersUnparsed(t: Table, c: Conn, r: Request, a: Answers)
    requires c.loop.Parsing?
    ensures var u := OnHeaders(t, c, r, a); Parsed(u) ==> Unparsed(u) == Unparsed(c)
  {
    hide Guarded, Passes, FindHandler, UploadRead, StartUpload, Log, Reply, Reported;
    var c0 := Reported(c, r);
    ReportedBuffers(c, r);
    LogBuffers(c0, Admitted(r));
    LogBuffers(c0, PassedOn(r));
    ReplyBuffers(c0, 403, r.id);
    if c.mode == Idle {
      StartUnparsed(t, if Guarded(t, r.uri) then Log(c0, Admitted(r)) else c0, r, a);
    }
  }

  /** Whatever else happened, the buffer and the parser's place in it are the same. */
  predicate SameBuffer(c: Conn, u: Conn) {
    u.recv == c.recv && u.loop == c.loop
  }

  lemma ReportedBuffers(c: Conn, r: Request)
    requires c.loop.Parsing?
    ensures Reported(c, r).recv == c.recv && Reported(c, r).loop == c.loop.(reported := true)
  {
  }

  lemma LogBuffers(c: Conn, e: Effect)
    ensures SameBuffer(c, Log(c, e))
  {
  }

  lemma ReplyBuffers(c: Conn, code: nat, id: nat)
    ensures SameBuffer(c, Reply(c, code, id))
  {
  }

  lemma StartUnparsed(t: Table, c: Conn, r: Request, a: Answers)
    requires c.loop.Parsing?
    ensures var u := StartUpload(t, c, r, a); Parsed(u) ==> u.recv == c.recv && u.loop == c.loop
  {
    hide FindHandler, UploadRead;
    var h := FindHandler(t.handlers, r.uri);
    if h.Some? {
      var b := BeginUpload(c, h.value.kind == Ota, r, a.granted);
      ReadKeepsDetached(b, a.writerOk);
    }
  }

  lemma UpgradeBuffers(c: Conn, r: Request, a: Answers)
    ensures SameBuffer(c, Upgrade(c, r, a))
  {
  }

  lemma ApiCallBuffers(c: Conn, h: Handler, r: Request, n: nat, a: Answers)
    ensures SameBuffer(c, ApiCall(c, h, r, n, a))
  {
    hide Log, Reply, Upgrade;
    LogBuffers(c, SetterRan(r, n));
    LogBuffers(c, StarterRan(r, n));
    LogBuffers(c, CustomRan(r, n));
    UpgradeBuffers(c, r, a);
    forall u: Conn, code {
      ReplyBuffers(u, code, r.id);
    }
  }

  lemma DispatchBuffers(t: Table, c: Conn, r: Request, n: nat, a: Answers)
    ensures SameBuffer(c, Dispatch(t, c, r, n, a))
  {
    hide MgMatch, FindRoute, FindHandler, ApiCall, Upgrade, Log, Reply;
    LogBuffers(c, CustomRan(r, n));
    ReplyBuffers(c, 200, r.id);
    ReplyBuffers(c, 401, r.id);
    UpgradeBuffers(c, r, a);
    var h := FindHandler(t.handlers, r.uri);
    if h.Some? {
      ApiCallBuffers(c, h.value, r, n, a);
    }
  }

  lemma HandlerKeepsBuffer(c: Conn, cause: Cause, a: Answers)
    requires !c.mode.Uploading?
    ensures var u := HandlerEvent(c, cause, a); u.recv == c.recv && u.loop == c.loop && u.parser == c.parser
  {
  }

  lemma StepUnparsed(t: Table, c: Conn, e: Event)
    requires Enabled(c, e) && (c.mode.Uploading? ==> !Parsed(c))
    ensures var u := Step(t, c, e);
            Parsed(u) && Parsed(c) ==> Suffix(Unparsed(u), Unparsed(c) + (if e.Data? then e.chunk else []))
  {
    hide OnHeaders, OnMessage, HandlerEvent;
    if Parsed(c) {
      match e
      case Headers(r, a) =>
        HeadersUnparsed(t, c, r, a);
      case Message(r, m, a) =>
        MessageUnparsed(t, c, r, m, a);
      case Data(chunk, a) =>
        HandlerKeepsBuffer(c.(recv := c.recv + chunk), ForRead, a);
      case Poll(a) =>
        HandlerKeepsBuffer(c, ForPoll, a);
      case Close(a) =>
        HandlerKeepsBuffer(Log(c, CloseSeen), ForClose, a);
      case LoopEnd(a) =>
        if c.loop.Parsing? {
          HandlerKeepsBuffer(c.(loop := Resting, recv := Drop(c.recv, c.loop.ofs)), c.loop.cause, a);
        } else {
          HandlerKeepsBuffer(c.(loop := Resting), c.loop.cause, a);
        }
    }
  }

  lemma MessageUnparsed(t: Table, c: Conn, r: Request, m: Delivery, a: Answers)
    requires Enabled(c, Message(r, m, a))
    ensures Suffix(Unparsed(OnMessage(t, c, r, m, a)), Unparsed(c))
  {
    hide OnMessage, Drop;
    MessageBuffers(t, c, r, m, a);
    DropSuffix(c.recv, c.loop.ofs, m.used);
  }

  lemma MessageBuffers(t: Table, c: Conn, r: Request, m: Delivery, a: Answers)
    requires c.loop.Parsing?
    ensures SameBuffer(Taken(c, m), OnMessage(t, c, r, m, a))
  {
    hide Dispatch, Taken, Log;
    DispatchBuffers(t, Taken(c, m), r, m.body, a);
    LogBuffers(Taken(c, m), PassedOn(r));
  }

  lemma DropSuffix(s: seq<byte>, n: nat, more: nat)
    ensures Suffix(Drop(s, n + more), Drop(s, n))
  {
  }

  /** What the parser has not got through is always the last part of what has arrived. */
  lemma {:induction false} UnparsedIsOnTheWire(t: Table, es: seq<Event>)
    requires Legal(t, es)
    ensures Parsed(Run(t, es)) ==> Suffix(Unparsed(Run(t, es)), Wire(es))
    decreases |es|
  {
    hide Enabled, Step, Unparsed;
    if es == [] {
      NothingUnparsed(t);
    } else {
      var es0, e := es[..|es| - 1], es[|es| - 1];
      var c := Run(t, es0);
      UnparsedIsOnTheWire(t, es0);
      EveryRunIsSound(t, es0);
      UploadsAreDetached(t, c);
      StaysDetached(t, c, e);
      StepUnparsed(t, c, e);
      SuffixExtends(Unparsed(Step(t, c, e)), Unparsed(c), Wire(es0), if e.Data? then e.chunk else []);
    }
  }

  lemma NothingUnparsed(t: Table)
    ensures Unparsed(Run(t, [])) == []
  {
  }

  lemma UploadsAreDetached(t: Table, c: Conn)
    requires Sound(t, c)
    ensures c.mode.Uploading? ==> !Parsed(c)
  {
    hide Guarded, Passes, Audited;
  }

  lemma SuffixExtends(u: seq<byte>, v: seq<byte>, w: seq<byte>, more: seq<byte>)
    ensures Suffix(v, w) && Suffix(u, v + more) ==> Suffix(u, w + more)
  {
    if Suffix(v, w) {
      assert (w + more)[|w| - |v|..] == v + more;
    }
  }

  lemma StaysDetached(t: Table, c: Conn, e: Event)
    requires Enabled(c, e)
    ensures Parsed(Step(t, c, e)) ==> Parsed(c)
  {
    hide UploadRead, ReleaseUpload, Drop;
    if !Parsed(c) {
      if c.mode.Uploading? {
        if e.Data? {
          ReadKeepsDetached(c.(recv := c.recv + e.chunk), e.a.writerOk);
        } else if e.LoopEnd? {
          ReadKeepsDetached(c.(loop := Resting), e.a.writerOk);
        }
        ReleaseKeepsDetached(c);
        ReleaseKeepsDetached(Log(c, CloseSeen));
        ReleaseKeepsDetached(c.(loop := Resting));
      }
    }
  }

  lemma ReleaseKeepsDetached(c: Conn)
    requires c.mode.Uploading?
    ensures ReleaseUpload(c).loop == c.loop && ReleaseUpload(c).parser == c.parser
  {
  }

  // ---------------------------------------------------- the body, and what is written

  /** A run that comes to the headers of upload `r`. */
  predicate Begun(t: Table, pre: seq<Event>, r: Request, a: Answers) {
    Legal(t, pre) && Starts(t, Run(t, pre), r, a)
  }

  function Outcome(t: Table, pre: seq<Event>, r: Request, a: Answers, es: seq<Event>): Conn {
    Run(t, pre + [Headers(r, a)] + es)
  }

  /** What the writer has been given of request `r`. */
  function Given(t: Table, pre: seq<Event>, r: Request, a: Answers, es: seq<Event>): seq<byte> {
    Upload.Written(WriterCalls(Outcome(t, pre, r, a, es).log, r.id))
  }

  /** The bytes behind the headers of `r`, as far as they have arrived. */
  function Body(t: Table, pre: seq<Event>, r: Request, es: seq<Event>): seq<byte> {
    Drop(Unparsed(Run(t, pre)), r.headLen) + Wire(es)
  }

  lemma HeadersAddNothing(pre: seq<Event>, r: Request, a: Answers)
    ensures Wire(pre + [Headers(r, a)]) == Wire(pre)
  {
    assert (pre + [Headers(r, a)])[..|pre|] == pre;
    assert Wire(pre) + [] == Wire(pre);
  }

  lemma DropIsSuffix(v: seq<byte>, n: nat, more: seq<byte>)
    requires n <= |v|
    ensures Suffix(Drop(v, n) + more, v + more)
  {
    assert (v + more)[n..] == v[n..] + more;
  }

  /** They are the last part of what has arrived on the connection. */
  lemma BodyIsOnTheWire(t: Table, pre: seq<Event>, r: Request, a: Answers, es: seq<Event>)
    requires Begun(t, pre, r, a)
    ensures Suffix(Body(t, pre, r, es), Wire(pre + [Headers(r, a)] + es))
  {
    hide Starts, Run, Wire, Suffix, Legal;
    BegunIsParsing(t, Run(t, pre), r, a);
    UnparsedIsOnTheWire(t, pre);
    WireAppend(pre + [Headers(r, a)], es);
    HeadersAddNothing(pre, r, a);
    var v := Unparsed(Run(t, pre));
    DropIsSuffix(v, r.headLen, Wire(es));
    SuffixExtends(Drop(v, r.headLen) + Wire(es), v, Wire(pre), Wire(es));
  }

  lemma BegunIsParsing(t: Table, c: Conn, r: Request, a: Answers)
    requires Starts(t, c, r, a)
    ensures c.loop.Parsing? && c.loop.ofs + r.headLen <= |c.recv|
  {
  }

  lemma {:induction false} WireAppend(es: seq<Event>, more: seq<Event>)
    ensures Wire(es + more) == Wire(es) + Wire(more)
    decreases |more|
  {
    if more == [] {
      assert es + more == es;
    } else {
      assert (es + more)[..|es + more| - 1] == es + more[..|more| - 1];
      WireAppend(es, more[..|more| - 1]);
    }
  }

  lemma NoWritesYet(t: Table, pre: seq<Event>, r: Request, a: Answers)
    requires Begun(t, pre, r, a)
    ensures WriterCalls(Run(t, pre).log, r.id) == []
  {
    hide Run, Guarded, Passes, FindHandler;
    EveryRunTallies(t, pre, r.id);
    NoPrivilegeNoWrite(Run(t, pre).log, r.id);
  }

  lemma {:induction false} NoPrivilegeNoWrite(log: seq<Effect>, id: nat)
    ensures Privileges(log, id) == 0 ==> WriterCalls(log, id) == []
    decreases |log|
  {
    if log != [] {
      NoPrivilegeNoWrite(log[..|log| - 1], id);
    }
  }

  lemma {:induction false} StreamBytes(t: Table, c: Conn, r: Request, a: Answers, es: seq<Event>)
    requires c.loop.Parsing?
    ensures Upload.Arrived(Stream(t, c, r, a, es)) == Drop(c.recv, r.headLen) + Wire(es)
    decreases |es|
  {
    hide OnHeaders, Deliver, Drop, Upload.Run, Upload.Arrived;
    if es == [] {
      var first := [Upload.Arrival(Drop(c.recv, r.headLen), a.writerOk)];
      assert Stream(t, c, r, a, []) == first;
      ArrivedOf(first);
    } else {
      StreamBytes(t, c, r, a, es[..|es| - 1]);
      StreamSnoc(t, c, r, a, es);
      var xs := Stream(t, c, r, a, es[..|es| - 1]);
      var ys := Arrival(Deliver(t, OnHeaders(t, c, r, a), es[..|es| - 1]), es[|es| - 1]);
      ArrivedMore(xs, ys);
    }
  }

  lemma ArrivedOf(xs: seq<Upload.Arrival>)
    requires |xs| == 1
    ensures Upload.Arrived(xs) == xs[0].chunk
  {
    Upload.ArrivedSnoc(xs);
    assert xs[..0] == [];
  }

  lemma ArrivedMore(xs: seq<Upload.Arrival>, ys: seq<Upload.Arrival>)
    requires |ys| <= 1
    ensures Upload.Arrived(xs + ys) == Upload.Arrived(xs) + if ys == [] then [] else ys[0].chunk
  {
    hide Upload.Arrived;
    if ys == [] {
      assert xs + ys == xs;
    } else {
      Upload.ArrivedSnoc(xs + ys);
      assert (xs + ys)[..|xs|] == xs;
    }
  }

  /** The completed messages that are still in the buffer make the re-chunker start too early:
      it is given that many bytes, and then the body. */
  lemma StreamIsTheBodyIff(t: Table, pre: seq<Event>, r: Request, a: Answers, es: seq<Event>)
    requires Begun(t, pre, r, a)
    ensures var c := Run(t, pre); var s, b := Upload.Arrived(Stream(t, c, r, a, es)), Body(t, pre, r, es);
      && |s| == c.loop.ofs + |b| && s[c.loop.ofs..] == b
      && (s == b <==> c.loop.ofs == 0)
  {
    hide Run, Guarded, Passes, FindHandler, Upload.Arrived, OnHeaders, Legal;
    var c := Run(t, pre);
    StreamBytes(t, c, r, a, es);
    assert c.recv[r.headLen..][c.loop.ofs..] == c.recv[c.loop.ofs..][r.headLen..];
  }

  lemma OutcomeTracks(t: Table, pre: seq<Event>, r: Request, a: Answers, es: seq<Event>)
    requires Begun(t, pre, r, a) && Traffic(es)
    ensures Tracks(Outcome(t, pre, r, a, es), r, Upload.Run(r.bodyLen, Stream(t, Run(t, pre), r, a, es)))
  {
    hide Run, Starts, OnHeaders, Tracks, Stream, Traffic, Upload.Run;
    NoWritesYet(t, pre, r, a);
    RunDelivers(t, pre + [Headers(r, a)], es);
    RunDelivers(t, pre, [Headers(r, a)]);
    DeliverOne(t, Run(t, pre), r, a);
    ConnectionFollowsRun(t, Run(t, pre), r, a, es);
  }

  lemma DeliverOne(t: Table, c: Conn, r: Request, a: Answers)
    requires Starts(t, c, r, a)
    ensures Deliver(t, c, [Headers(r, a)]) == OnHeaders(t, c, r, a)
  {
    hide OnHeaders, Guarded, Passes, FindHandler;
    assert Deliver(t, c, []) == c;
  }

  /** From any legal run: when no completed message is left in the buffer at the headers, the
      writer gets exactly the body, in whatever pieces it arrives. */
  lemma TheBodyIsWritten(t: Table, pre: seq<Event>, r: Request, a: Answers, es: seq<Event>)
    requires Begun(t, pre, r, a) && Traffic(es) && Run(t, pre).loop.ofs == 0
    requires Upload.LeavesRoom(r.bodyLen) && Upload.Smooth(r.bodyLen, Stream(t, Run(t, pre), r, a, es))
    requires |Body(t, pre, r, es)| == r.bodyLen
    ensures Given(t, pre, r, a, es) == Body(t, pre, r, es)
    ensures var u := Outcome(t, pre, r, a, es); u.mode == Idle && u.draining
  {
    hide Run, Guarded, Passes, FindHandler, Stream, Traffic, Upload.Run, Upload.Smooth, Upload.Arrived, Upload.Written,
      Body, WriterCalls, Outcome;
    OutcomeTracks(t, pre, r, a, es);
    StreamIsTheBodyIff(t, pre, r, a, es);
    Upload.DoneMeansAllWritten(r.bodyLen, Stream(t, Run(t, pre), r, a, es));
  }

  /** Two connections that receive the same body, however the network cuts it up and however
      polls interleave, give the writer the same bytes. */
  lemma UploadsAgree(t: Table, pre1: seq<Event>, r1: Request, a1: Answers, es1: seq<Event>,
                     pre2: seq<Event>, r2: Request, a2: Answers, es2: seq<Event>)
    requires Begun(t, pre1, r1, a1) && Traffic(es1) && Run(t, pre1).loop.ofs == 0
    requires Begun(t, pre2, r2, a2) && Traffic(es2) && Run(t, pre2).loop.ofs == 0
    requires r1.bodyLen == r2.bodyLen && Upload.LeavesRoom(r1.bodyLen)
    requires Upload.Smooth(r1.bodyLen, Stream(t, Run(t, pre1), r1, a1, es1))
    requires Upload.Smooth(r2.bodyLen, Stream(t, Run(t, pre2), r2, a2, es2))
    requires Body(t, pre1, r1, es1) == Body(t, pre2, r2, es2) && |Body(t, pre1, r1, es1)| == r1.bodyLen
    ensures Given(t, pre1, r1, a1, es1) == Given(t, pre2, r2, a2, es2) == Body(t, pre1, r1, es1)
  {
    hide Run, Guarded, Passes, FindHandler, Stream, Traffic, Body, Given, Outcome, Upload.Smooth;
    TheBodyIsWritten(t, pre1, r1, a1, es1);
    TheBodyIsWritten(t, pre2, r2, a2, es2);
  }

  // --------------------------------------------------------- how an upload is answered

  function AnswerOf(o: Upload.Outcome): seq<nat> {
    match o
    case Running => []
    case Done => [200]
    case Failed => [400]
  }

  lemma EndIsAnswered(c: Conn, code: nat)
    requires c.mode.Uploading?
    ensures Codes(EndUpload(c, code).log, c.mode.req.id) == Codes(c.log, c.mode.req.id) + [code]
  {
    hide Codes;
    var id := c.mode.req.id;
    CodesSnoc(c.log, Replied(code, id), id);
    CodesSnoc(c.log + [Replied(code, id)], Released(id), id);
  }

  lemma PassOnIsUnanswered(c: Conn, u: Upload.Step)
    requires c.mode.Uploading?
    ensures var d := PassOnBytes(c, u);
            Codes(d.log, c.mode.req.id) == Codes(c.log, c.mode.req.id) && d.mode.Uploading? && d.mode.req == c.mode.req
  {
    hide Codes;
    if u.write.Some? {
      CodesSnoc(c.log, Written(c.mode.req, c.mode.held, u.write.value), c.mode.req.id);
    }
  }

  lemma ReadIsAnswered(c: Conn, ok: bool)
    requires c.mode.Uploading?
    ensures var o := Upload.ReadStep(c.mode.received, c.mode.req.bodyLen, c.recv, ok).outcome;
            Codes(UploadRead(c, ok).log, c.mode.req.id) == Codes(c.log, c.mode.req.id) + AnswerOf(o)
  {
    hide Codes, EndUpload, PassOnBytes, Upload.ReadStep;
    var s := Upload.ReadStep(c.mode.received, c.mode.req.bodyLen, c.recv, ok);
    PassOnIsUnanswered(c, s);
    EndIsAnswered(PassOnBytes(c, s), if s.outcome == Upload.Done then 200 else 400);
  }

  lemma FeedOutcome(s: Upload.Session, expected: nat, chunk: seq<byte>, ok: bool)
    requires s.outcome == Upload.Running
    ensures Upload.Feed(s, expected, chunk, ok).outcome == Upload.ReadStep(s.received, expected, s.recv + chunk, ok).outcome
  {
    hide Upload.ReadStep;
  }

  lemma BeginIsUnanswered(t: Table, c: Conn, r: Request, a: Answers)
    requires Starts(t, c, r, a)
    ensures var p := Prepared(t, c, r, a);
            Codes(p.log, r.id) == Codes(c.log, r.id)
            && p.mode == Uploading(p.mode.ota, r, 0, a.granted) && p.recv == Drop(c.recv, r.headLen)
  {
    hide Codes, Guarded, Passes, FindHandler, Drop;
    CodesSnoc(c.log, Admitted(r), r.id);
    CodesSnoc(if Guarded(t, r.uri) then c.log + [Admitted(r)] else c.log, Opened(r.id), r.id);
  }

  lemma HeadersAreAnswered(t: Table, c: Conn, r: Request, a: Answers)
    requires Starts(t, c, r, a)
    ensures Codes(OnHeaders(t, c, r, a).log, r.id)
            == Codes(c.log, r.id) + AnswerOf(Upload.Run(r.bodyLen, Stream(t, c, r, a, [])).outcome)
  {
    hide OnHeaders, Codes, UploadRead, Guarded, Passes, FindHandler, Upload.ReadStep, Prepared, Drop, Upload.Feed, AnswerOf;
    var first := Upload.Arrival(Drop(c.recv, r.headLen), a.writerOk);
    assert Stream(t, c, r, a, []) == [first] && [first][..0] == [];
    var s := Upload.Session(Upload.Running, 0, [], []);
    assert Upload.Run(r.bodyLen, [first]) == Upload.Feed(s, r.bodyLen, first.chunk, first.writerOk);
    assert s.recv + first.chunk == first.chunk;
    HeadersPrepare(t, c, r, a);
    BeginIsUnanswered(t, c, r, a);
    ReadIsAnswered(Prepared(t, c, r, a), a.writerOk);
    FeedOutcome(s, r.bodyLen, first.chunk, a.writerOk);
  }

  /** One more event: it answers what ends with it. */
  lemma EventIsAnswered(t: Table, c: Conn, r: Request, s: Upload.Session, e: Event)
    requires Tracks(c, r, s) && (e.Data? || e.Poll? || e.LoopEnd?)
    requires !c.loop.Resting? ==> !c.loop.cause.ForClose?
    ensures Codes(Step(t, c, e).log, r.id)
            == Codes(c.log, r.id)
               + if s.outcome == Upload.Running then AnswerOf(Fed(s, r.bodyLen, Arrival(c, e)).outcome) else []
  {
    hide Codes, WriterCalls, Upload.ReadStep, UploadRead, Upload.Feed;
    if s.outcome == Upload.Running {
      if e.Data? {
        ReadIsAnswered(c.(recv := c.recv + e.chunk), e.a.writerOk);
        FeedOutcome(s, r.bodyLen, e.chunk, e.a.writerOk);
      } else if e.LoopEnd? {
        assert s.recv + [] == s.recv;
        ReadIsAnswered(c.(loop := Resting), e.a.writerOk);
        FeedOutcome(s, r.bodyLen, [], e.a.writerOk);
      }
    }
  }

  lemma FedOnlyEndsOnce(s: Upload.Session, expected: nat, xs: seq<Upload.Arrival>)
    ensures s.outcome != Upload.Running ==> Fed(s, expected, xs).outcome == s.outcome
  {
  }

  lemma {:induction false} ConnectionAnswers(t: Table, c: Conn, r: Request, a: Answers, es: seq<Event>)
    requires Starts(t, c, r, a) && WriterCalls(c.log, r.id) == [] && Traffic(es)
    ensures Codes(Deliver(t, OnHeaders(t, c, r, a), es).log, r.id)
            == Codes(c.log, r.id) + AnswerOf(Upload.Run(r.bodyLen, Stream(t, c, r, a, es)).outcome)
    decreases |es|
  {
    hide Tracks, OnHeaders, Step, Arrival, Codes, Upload.Run, Fed, Stream;
    if es == [] {
      HeadersAreAnswered(t, c, r, a);
    } else {
      var es0, e := es[..|es| - 1], es[|es| - 1];
      var d, s := Deliver(t, OnHeaders(t, c, r, a), es0), Upload.Run(r.bodyLen, Stream(t, c, r, a, es0));
      ConnectionAnswers(t, c, r, a, es0);
      ConnectionFollowsRun(t, c, r, a, es0);
      EventIsAnswered(t, d, r, s, e);
      StreamSnoc(t, c, r, a, es);
      FedOnlyEndsOnce(s, r.bodyLen, Arrival(d, e));
      assert Codes(c.log, r.id) + [] == Codes(c.log, r.id);
    }
  }

  /** What the writer answered, call by call: the answers of those events after which the log
      shows one call more. */
  function WriterAnswers(t: Table, pre: seq<Event>, r: Request, a: Answers, es: seq<Event>): seq<bool>
    decreases |es|
  {
    if es == [] then
      if |WriterCalls(Outcome(t, pre, r, a, []).log, r.id)| > 0 then [a.writerOk] else []
    else
      var es0, e := es[..|es| - 1], es[|es| - 1];
      WriterAnswers(t, pre, r, a, es0)
      + if |WriterCalls(Outcome(t, pre, r, a, es).log, r.id)| > |WriterCalls(Outcome(t, pre, r, a, es0).log, r.id)|
        then [if e.Data? || e.Poll? || e.LoopEnd? then e.a.writerOk else true] else []
  }

  lemma CallsSnoc(expected: nat, xs: seq<Upload.Arrival>, ys: seq<Upload.Arrival>)
    requires |ys| <= 1
    ensures Upload.Calls(expected, xs + ys)
            == Upload.Calls(expected, xs)
               + if ys != [] && |Upload.Run(expected, xs + ys).writes| > |Upload.Run(expected, xs).writes|
                 then [ys[0].writerOk] else []
  {
    if ys == [] {
      assert xs + ys == xs;
    } else {
      assert (xs + ys)[..|xs|] == xs;
    }
  }

  lemma OneCall(expected: nat, x: Upload.Arrival)
    ensures Upload.Calls(expected, [x]) == if |Upload.Run(expected, [x]).writes| > 0 then [x.writerOk] else []
  {
    assert [x][..0] == [];
  }

  lemma TracksWrites(c: Conn, r: Request, s: Upload.Session)
    requires Tracks(c, r, s)
    ensures WriterCalls(c.log, r.id) == s.writes
    ensures s.outcome != Upload.Running ==> c.mode == Idle && c.draining
  {
  }

  lemma {:induction false} WriterAnswersAreCalls(t: Table, pre: seq<Event>, r: Request, a: Answers, es: seq<Event>)
    requires Begun(t, pre, r, a) && Traffic(es)
    ensures WriterAnswers(t, pre, r, a, es) == Upload.Calls(r.bodyLen, Stream(t, Run(t, pre), r, a, es))
    decreases |es|
  {
    hide Run, Starts, OnHeaders, Tracks, Upload.Run, Upload.Calls, WriterCalls, Step, Deliver, Outcome;
    var c := Run(t, pre);
    BegunIsParsing(t, c, r, a);
    OutcomeTracks(t, pre, r, a, es);
    TracksWrites(Outcome(t, pre, r, a, es), r, Upload.Run(r.bodyLen, Stream(t, c, r, a, es)));
    if es == [] {
      var first := Upload.Arrival(Drop(c.recv, r.headLen), a.writerOk);
      assert Stream(t, c, r, a, []) == [first];
      OneCall(r.bodyLen, first);
    } else {
      var es0, e := es[..|es| - 1], es[|es| - 1];
      WriterAnswersAreCalls(t, pre, r, a, es0);
      OutcomeTracks(t, pre, r, a, es0);
      TracksWrites(Outcome(t, pre, r, a, es0), r, Upload.Run(r.bodyLen, Stream(t, c, r, a, es0)));
      StreamSnoc(t, c, r, a, es);
      var d := Deliver(t, OnHeaders(t, c, r, a), es0);
      var xs, ys := Stream(t, c, r, a, es0), Arrival(d, e);
      CallsSnoc(r.bodyLen, xs, ys);
    }
  }

  /** The codes with which `r` has been answered since its headers. */
  function CodesSince(t: Table, pre: seq<Event>, r: Request, a: Answers, es: seq<Event>): seq<nat> {
    var before, after := Codes(Run(t, pre).log, r.id), Codes(Outcome(t, pre, r, a, es).log, r.id);
    if |before| <= |after| then after[|before|..] else []
  }

  lemma AnswersFollowRun(t: Table, pre: seq<Event>, r: Request, a: Answers, es: seq<Event>)
    requires Begun(t, pre, r, a) && Traffic(es)
    ensures Run(t, pre).loop.Parsing?
    ensures CodesSince(t, pre, r, a, es) == AnswerOf(Upload.Run(r.bodyLen, Stream(t, Run(t, pre), r, a, es)).outcome)
  {
    hide Run, Starts, OnHeaders, Stream, Traffic, Upload.Run, Codes;
    BegunIsParsing(t, Run(t, pre), r, a);
    NoWritesYet(t, pre, r, a);
    RunDelivers(t, pre + [Headers(r, a)], es);
    RunDelivers(t, pre, [Headers(r, a)]);
    DeliverOne(t, Run(t, pre), r, a);
    ConnectionAnswers(t, Run(t, pre), r, a, es);
  }

  /** How an upload is answered, from any legal run on: not at all while it goes on; with one 400
      as soon as a call of its writer fails, which is then the last call; otherwise with one 200.
      With its answer it is over, and the connection drains. */
  lemma UploadIsAnswered(t: Table, pre: seq<Event>, r: Request, a: Answers, es: seq<Event>)
    requires Begun(t, pre, r, a) && Traffic(es)
    ensures var u, codes, calls := Outcome(t, pre, r, a, es), CodesSince(t, pre, r, a, es), WriterAnswers(t, pre, r, a, es);
      && |calls| == |WriterCalls(u.log, r.id)|
      && (forall k :: 0 <= k < |calls| - 1 ==> calls[k])
      && (codes == [400] <==> calls != [] && !calls[|calls| - 1])
      && (codes == [] || codes == [200] || codes == [400])
      && (codes != [] ==> u.mode == Idle && u.draining)
  {
    hide Run, Starts, Stream, Traffic, Upload.Run, Upload.Calls, WriterCalls, Outcome, CodesSince, WriterAnswers;
    BegunIsParsing(t, Run(t, pre), r, a);
    var xs := Stream(t, Run(t, pre), r, a, es);
    OutcomeTracks(t, pre, r, a, es);
    TracksWrites(Outcome(t, pre, r, a, es), r, Upload.Run(r.bodyLen, xs));
    AnswersFollowRun(t, pre, r, a, es);
    WriterAnswersAreCalls(t, pre, r, a, es);
    Upload.FirstFailureIsTheLast(r.bodyLen, xs);
    var calls := Upload.Calls(r.bodyLen, xs);
    assert forall k :: 0 <= k < |calls| - 1 ==> calls[k] == calls[..|calls| - 1][k];
  }

  /** The call that fails is answered in the event in which it is made. */
  lemma FailureIsAnsweredAtOnce(t: Table, pre: seq<Event>, r: Request, a: Answers, es: seq<Event>, e: Event)
    requires Begun(t, pre, r, a) && Traffic(es + [e])
    requires WriterAnswers(t, pre, r, a, es + [e]) == WriterAnswers(t, pre, r, a, es) + [false]
    ensures Codes(Outcome(t, pre, r, a, es + [e]).log, r.id) == Codes(Outcome(t, pre, r, a, es).log, r.id) + [400]
  {
    hide Run, Starts, Stream, Upload.Run, Upload.Calls, WriterCalls, Outcome, WriterAnswers, Codes;
    TrafficBefore(es, e);
    assert (es + [e])[..|es|] == es;
    FailsHere(t, pre, r, a, es, e);
  }

  lemma TrafficBefore(es: seq<Event>, e: Event)
    requires Traffic(es + [e])
    ensures Traffic(es)
  {
    assert forall x :: x in es ==> x in es + [e];
  }

  lemma FailsHere(t: Table, pre: seq<Event>, r: Request, a: Answers, es: seq<Event>, e: Event)
    requires Begun(t, pre, r, a) && Traffic(es + [e]) && Traffic(es)
    requires WriterAnswers(t, pre, r, a, es + [e]) == WriterAnswers(t, pre, r, a, es) + [false]
    ensures Codes(Outcome(t, pre, r, a, es + [e]).log, r.id) == Codes(Outcome(t, pre, r, a, es).log, r.id) + [400]
  {
    hide Run, Starts, Stream, Upload.Run, Upload.Calls, WriterCalls, WriterAnswers, Codes, Traffic, OnHeaders, Fed, Deliver, Arrival;
    var c := Run(t, pre);
    BegunIsParsing(t, c, r, a);
    var xs, ys := Stream(t, c, r, a, es), Stream(t, c, r, a, es + [e]);
    WriterAnswersAreCalls(t, pre, r, a, es);
    WriterAnswersAreCalls(t, pre, r, a, es + [e]);
    Upload.FirstFailureIsTheLast(r.bodyLen, xs);
    Upload.FirstFailureIsTheLast(r.bodyLen, ys);
    var calls := Upload.Calls(r.bodyLen, ys);
    assert !calls[|calls| - 1] && calls[..|calls| - 1] == Upload.Calls(r.bodyLen, xs);
    assert (es + [e])[..|es|] == es;
    StreamSnoc(t, c, r, a, es + [e]);
    FedOnlyEndsOnce(Upload.Run(r.bodyLen, xs), r.bodyLen, Arrival(Deliver(t, OnHeaders(t, c, r, a), es), e));
    NoWritesYet(t, pre, r, a);
    RunDelivers(t, pre + [Headers(r, a)], es);
    RunDelivers(t, pre + [Headers(r, a)], es + [e]);
    RunDelivers(t, pre, [Headers(r, a)]);
    DeliverOne(t, c, r, a);
    ConnectionAnswers(t, c, r, a, es);
    ConnectionAnswers(t, c, r, a, es + [e]);
  }

  /** The upload is answered with 200 if and only if every call of its writer succeeded and the
      declared bytes have arrived: those of the body, behind what is left of completed messages. */
  lemma UploadSucceedsIff(t: Table, pre: seq<Event>, r: Request, a: Answers, es: seq<Event>)
    requires Begun(t, pre, r, a) && Traffic(es)
    requires Upload.LeavesRoom(r.bodyLen) && Upload.Bounded(r.bodyLen, Stream(t, Run(t, pre), r, a, es))
    ensures CodesSince(t, pre, r, a, es) == [200] <==>
              && (forall k :: 0 <= k < |WriterAnswers(t, pre, r, a, es)| ==> WriterAnswers(t, pre, r, a, es)[k])
              && Run(t, pre).loop.ofs + |Body(t, pre, r, es)| >= r.bodyLen
  {
    hide Run, Starts, Stream, Traffic, Upload.Run, Upload.Calls, CodesSince, WriterAnswers, Body, Upload.Bounded, Upload.Arrived;
    AnswersFollowRun(t, pre, r, a, es);
    WriterAnswersAreCalls(t, pre, r, a, es);
    StreamIsTheBodyIff(t, pre, r, a, es);
    Upload.DoneIff(r.bodyLen, Stream(t, Run(t, pre), r, a, es));
  }
}
