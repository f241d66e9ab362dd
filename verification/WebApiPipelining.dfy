/**
 Uploads behind other requests in one packet. The parser removes completed messages only
 when its loop is over, but an upload deletes its headers from the front of the buffer at
 once: what is left of the messages before it is taken for the start of the file.
 */
module WebApiPipelining {
  import opened Common
  import opened Routing
  import opened Glob
  import opened WebApi
  import opened WebApiRuns
  import opened WebApiUploads
  import Upload

  /** The parser's last loop ends, and bytes arrive one by one. */
  function Trickle(a: Answers, more: seq<byte>): seq<Event> {
    if more == [] then [LoopEnd(a)]
    else Trickle(a, more[..|more| - 1]) + [Event.Data([more[|more| - 1]], a)]
  }

  lemma {:induction false} TrickleBytes(a: Answers, more: seq<byte>)
    ensures Wire(Trickle(a, more)) == more && Traffic(Trickle(a, more)) && Trickle(a, more) != []
    decreases |more|
  {
    if more == [] {
      assert Wire([]) == [];
    } else {
      var before := Trickle(a, more[..|more| - 1]);
      TrickleBytes(a, more[..|more| - 1]);
      var d := Event.Data([more[|more| - 1]], a);
      assert (before + [d])[..|before|] == before;
    }
  }

  /** An upload that has begun on `c` has no parser, and stays so. */
  predicate Detached(c: Conn) {
    !c.parser && !c.closed && !c.loop.Parsing?
  }

  lemma PreparedIsDetached(t: Table, c: Conn, r: Request, a: Answers)
    requires c.loop.Parsing? && !c.closed && FindHandler(t.handlers, r.uri).Some?
    ensures var p := Prepared(t, c, r, a); p.mode.Uploading? && Detached(p) && p.loop == Returned(c.loop.cause)
  {
    hide Guarded, Passes, FindHandler;
  }

  lemma HandlerStaysDetached(c: Conn, cause: Cause, a: Answers)
    requires Detached(c) && !cause.ForClose?
    ensures Detached(HandlerEvent(c, cause, a)) && HandlerEvent(c, cause, a).loop == c.loop
  {
    hide UploadRead;
    if c.mode.Uploading? {
      ReadKeepsDetached(c, a.writerOk);
    }
  }

  lemma RestingAfterLoop(t: Table, c: Conn, r: Request, a: Answers)
    requires Starts(t, c, r, a) && !c.closed
    ensures Enabled(OnHeaders(t, c, r, a), LoopEnd(a))
    ensures var u := Step(t, OnHeaders(t, c, r, a), LoopEnd(a)); u.loop.Resting? && !u.closed && !u.parser
  {
    hide UploadRead, Guarded, Passes, FindHandler, Prepared, OnHeaders, HandlerEvent, Drop;
    HeadersPrepare(t, c, r, a);
    PreparedIsDetached(t, c, r, a);
    ReadKeepsDetached(Prepared(t, c, r, a), a.writerOk);
    HandlerStaysDetached(OnHeaders(t, c, r, a).(loop := Resting), c.loop.cause, a);
  }

  lemma DataRests(t: Table, c: Conn, chunk: seq<byte>, a: Answers)
    requires c.loop.Resting? && !c.closed && !c.parser
    ensures Enabled(c, Event.Data(chunk, a))
    ensures var u := Step(t, c, Event.Data(chunk, a)); u.loop.Resting? && !u.closed && !u.parser
  {
    hide HandlerEvent;
    HandlerStaysDetached(c.(recv := c.recv + chunk), ForRead, a);
  }

  lemma OpenWhileParsing(t: Table, es: seq<Event>)
    requires Legal(t, es)
    ensures Run(t, es).loop.Parsing? ==> !Run(t, es).closed
  {
    EveryRunIsSound(t, es);
    hide Run, Guarded, Passes, Audited;
  }

  lemma {:induction false} TrickleIsLegal(t: Table, pre: seq<Event>, r: Request, a: Answers, more: seq<byte>)
    requires Begun(t, pre, r, a)
    ensures Legal(t, pre + [Headers(r, a)] + Trickle(a, more))
    ensures var u := Outcome(t, pre, r, a, Trickle(a, more)); u.loop.Resting? && !u.closed && !u.parser
    decreases |more|
  {
    hide Starts, Step, OnHeaders, Enabled;
    var c, es := Run(t, pre), pre + [Headers(r, a)];
    BegunIsParsing(t, c, r, a);
    OpenWhileParsing(t, pre);
    HeadersStep(t, c, r, a);
    assert es[..|es| - 1] == pre;
    if more == [] {
      RestingAfterLoop(t, c, r, a);
      assert (es + [LoopEnd(a)])[..|es + [LoopEnd(a)]| - 1] == es;
    } else {
      var before, d := Trickle(a, more[..|more| - 1]), Event.Data([more[|more| - 1]], a);
      TrickleIsLegal(t, pre, r, a, more[..|more| - 1]);
      DataRests(t, Run(t, es + before), d.chunk, a);
      assert es + Trickle(a, more) == es + before + [d];
      assert (es + before + [d])[..|es + before|] == es + before;
    }
  }

  lemma HeadersStep(t: Table, c: Conn, r: Request, a: Answers)
    requires Starts(t, c, r, a)
    ensures Enabled(c, Headers(r, a)) && Step(t, c, Headers(r, a)) == OnHeaders(t, c, r, a)
  {
    hide OnHeaders, Guarded, Passes, FindHandler;
  }

  /** Before an upload has been given far more than it expects, its buffer is small. */
  lemma BufferBound(expected: nat, xs: seq<Upload.Arrival>)
    requires Upload.LeavesRoom(expected) && Upload.Smooth(expected, xs)
    requires |Upload.Arrived(xs)| < expected + Upload.MAX_RECV
    ensures |Upload.Run(expected, xs).recv| < Upload.MAX_RECV
  {
    hide Upload.Run, Upload.Smooth, Upload.Arrived, Upload.Written, Upload.OffsetsAreSums, Upload.AllAligned;
    Upload.DoneExactlyWhenArrived(expected, xs);
    Upload.BytesAreConserved(expected, xs);
    Upload.EveryRunKeeps(expected, xs);
    if |Upload.Arrived(xs)| >= expected {
      Upload.DoneMeansAllWritten(expected, xs);
    }
  }

  lemma SmoothMore(expected: nat, xs: seq<Upload.Arrival>, chunk: seq<byte>)
    requires Upload.LeavesRoom(expected) && Upload.Smooth(expected, xs) && |chunk| <= 1
    requires |Upload.Arrived(xs)| < expected + Upload.MAX_RECV
    ensures Upload.Smooth(expected, xs + [Upload.Arrival(chunk, true)])
  {
    hide Upload.Run, Upload.Arrived;
    BufferBound(expected, xs);
    assert (xs + [Upload.Arrival(chunk, true)])[..|xs|] == xs;
  }

  lemma SmoothFirst(expected: nat, x: Upload.Arrival)
    requires x.writerOk && |x.chunk| <= Upload.MAX_RECV
    ensures Upload.Smooth(expected, [x])
  {
    assert [x][..0] == [];
    assert [] + x.chunk == x.chunk;
  }

  lemma {:induction false} TrickleIsSmooth(t: Table, c: Conn, r: Request, a: Answers, more: seq<byte>)
    requires c.loop.Parsing? && a.writerOk && Upload.LeavesRoom(r.bodyLen) && |c.recv| <= Upload.MAX_RECV
    requires |Drop(c.recv, r.headLen)| + |more| < r.bodyLen + Upload.MAX_RECV
    ensures Upload.Smooth(r.bodyLen, Stream(t, c, r, a, Trickle(a, more)))
    decreases |more|
  {
    hide Upload.Smooth, Upload.Arrived, OnHeaders, Deliver, Stream;
    var es := Trickle(a, more);
    TrickleBytes(a, more);
    StreamSnoc(t, c, r, a, es);
    var es0 := es[..|es| - 1];
    if more == [] {
      assert es0 == [];
      FirstOfStream(t, c, r, a);
      SmoothFirst(r.bodyLen, Upload.Arrival(Drop(c.recv, r.headLen), true));
    } else {
      assert es0 == Trickle(a, more[..|more| - 1]);
      TrickleIsSmooth(t, c, r, a, more[..|more| - 1]);
      TrickleBytes(a, more[..|more| - 1]);
    }
    StreamBytes(t, c, r, a, es0);
    var ys := Arrival(Deliver(t, OnHeaders(t, c, r, a), es0), es[|es| - 1]);
    if ys == [] {
      assert Stream(t, c, r, a, es0) + ys == Stream(t, c, r, a, es0);
    } else {
      SmoothMore(r.bodyLen, Stream(t, c, r, a, es0), ys[0].chunk);
    }
  }

  lemma FirstOfStream(t: Table, c: Conn, r: Request, a: Answers)
    requires c.loop.Parsing?
    ensures Stream(t, c, r, a, []) == [Upload.Arrival(Drop(c.recv, r.headLen), a.writerOk)]
  {
  }

  /** The rest of the run carries the whole body, and nothing behind it. */
  predicate Whole(t: Table, pre: seq<Event>, r: Request, a: Answers, es: seq<Event>)
    requires Begun(t, pre, r, a)
  {
    && Traffic(es) && Legal(t, pre + [Headers(r, a)] + es)
    && Upload.Smooth(r.bodyLen, Stream(t, Run(t, pre), r, a, es))
    && |Body(t, pre, r, es)| == r.bodyLen
  }

  ghost predicate AlwaysTheBody(t: Table, pre: seq<Event>, r: Request, a: Answers)
    requires Begun(t, pre, r, a)
  {
    forall es :: Whole(t, pre, r, a, es) ==> Given(t, pre, r, a, es) == Body(t, pre, r, es)
  }

  function Other(b: byte): byte {
    if b == 0 then 1 else 0
  }

  /** Bytes that make the body differ from what the re-chunker is given in its place. */
  function Telling(front: seq<byte>, need: nat, expected: nat): (more: seq<byte>)
    requires 0 < expected < |front| + need
    ensures |more| == need
  {
    if need == 0 then []
    else
      var p := front + Zeros(need - 1);
      Zeros(need - 1) + [Other(p[expected - 1])]
  }

  lemma TellingTells(front: seq<byte>, need: nat, expected: nat)
    requires 0 < need <= expected < |front| + need
    ensures var s := front + Telling(front, need, expected); s[expected - 1] != s[|s| - 1]
  {
    var p := front + Zeros(need - 1);
    assert front + Telling(front, need, expected) == p + [Other(p[expected - 1])];
  }

  lemma FirstTakesAll(expected: nat, x: Upload.Arrival)
    requires 0 < expected <= |x.chunk| < WORD && x.writerOk
    ensures var s := Upload.Run(expected, [x]); s.recv == [] && s.outcome == Upload.Done
    ensures var s := Upload.Run(expected, [x, Upload.Arrival([], true)]); s.recv == []
  {
    assert [x][..0] == [] && [] + x.chunk == x.chunk;
    assert [x, Upload.Arrival([], true)][..1] == [x];
  }

  lemma BodyComesWithTheHeaders(t: Table, c: Conn, r: Request, a: Answers)
    requires c.loop.Parsing? && a.writerOk && 0 < r.bodyLen <= |Drop(c.recv, r.headLen)| < WORD
    ensures Upload.Run(r.bodyLen, Stream(t, c, r, a, Trickle(a, []))).recv == []
  {
    hide OnHeaders, Drop, Upload.Run, Upload.Feed, Step, Deliver;
    var x := Upload.Arrival(Drop(c.recv, r.headLen), true);
    FirstOfStream(t, c, r, a);
    StreamSnoc(t, c, r, a, [LoopEnd(a)]);
    assert [LoopEnd(a)][..0] == [];
    FirstTakesAll(r.bodyLen, x);
    assert [x] + [] == [x] && [x] + [Upload.Arrival([], true)] == [x, Upload.Arrival([], true)];
  }

  /** What has been given to the writer, told from the stream. */
  lemma GivenFollows(t: Table, pre: seq<Event>, r: Request, a: Answers, es: seq<Event>)
    requires Begun(t, pre, r, a) && Whole(t, pre, r, a, es) && Upload.LeavesRoom(r.bodyLen)
    ensures var xs := Stream(t, Run(t, pre), r, a, es); var s, g := Upload.Arrived(xs), Given(t, pre, r, a, es);
      && |g| >= r.bodyLen && |s| >= r.bodyLen && g[..r.bodyLen] == s[..r.bodyLen]
      && g + Upload.Run(r.bodyLen, xs).recv == s
  {
    hide Run, Guarded, Passes, FindHandler, Stream, Traffic, Upload.Run, Upload.Smooth, Upload.Arrived, Upload.Written,
      Body, WriterCalls, Outcome;
    OutcomeTracks(t, pre, r, a, es);
    StreamIsTheBodyIff(t, pre, r, a, es);
    Upload.DoneMeansAllWritten(r.bodyLen, Stream(t, Run(t, pre), r, a, es));
    Upload.BytesAreConserved(r.bodyLen, Stream(t, Run(t, pre), r, a, es));
  }

  /** What is in the buffer of a begun upload fits what can be uploaded. */
  predicate Uploadable(t: Table, pre: seq<Event>, r: Request, a: Answers)
    requires Begun(t, pre, r, a)
  {
    Upload.LeavesRoom(r.bodyLen) && a.writerOk && |Run(t, pre).recv| <= Upload.MAX_RECV && |Body(t, pre, r, [])| <= r.bodyLen
  }

  function Continuation(t: Table, pre: seq<Event>, r: Request, a: Answers): seq<byte>
    requires Begun(t, pre, r, a) && Uploadable(t, pre, r, a) && Run(t, pre).loop.ofs > 0
  {
    BodyLengths(t, pre, r, a, []);
    Telling(Drop(Run(t, pre).recv, r.headLen), r.bodyLen - |Body(t, pre, r, [])|, r.bodyLen)
  }

  lemma BodyLengths(t: Table, pre: seq<Event>, r: Request, a: Answers, es: seq<Event>)
    requires Begun(t, pre, r, a)
    ensures |Drop(Run(t, pre).recv, r.headLen)| == Run(t, pre).loop.ofs + |Body(t, pre, r, [])|
    ensures Run(t, pre).loop.ofs < |Run(t, pre).recv|
    ensures Body(t, pre, r, es) == Body(t, pre, r, []) + Wire(es)
  {
    hide Run, Guarded, Passes, FindHandler;
    BegunIsParsing(t, Run(t, pre), r, a);
    assert Wire([]) == [];
  }

  lemma ContinuationIsWhole(t: Table, pre: seq<Event>, r: Request, a: Answers)
    requires Begun(t, pre, r, a) && Uploadable(t, pre, r, a) && Run(t, pre).loop.ofs > 0
    ensures Whole(t, pre, r, a, Trickle(a, Continuation(t, pre, r, a)))
  {
    hide Run, Guarded, Passes, FindHandler, Body, Upload.Smooth, Stream, Drop, Traffic, Legal, Telling;
    var more := Continuation(t, pre, r, a);
    BodyLengths(t, pre, r, a, Trickle(a, more));
    TrickleBytes(a, more);
    TrickleIsLegal(t, pre, r, a, more);
    TrickleIsSmooth(t, Run(t, pre), r, a, more);
  }

  lemma ContinuationTells(t: Table, pre: seq<Event>, r: Request, a: Answers)
    requires Begun(t, pre, r, a) && Uploadable(t, pre, r, a) && Run(t, pre).loop.ofs > 0
    ensures var es := Trickle(a, Continuation(t, pre, r, a)); Given(t, pre, r, a, es) != Body(t, pre, r, es)
  {
    hide Run, Guarded, Passes, FindHandler, Body, Upload.Smooth, Stream, Drop, Traffic, Legal, Telling, Given, Whole,
      Upload.Arrived, Upload.Run;
    var c, more := Run(t, pre), Continuation(t, pre, r, a);
    var es, front, need := Trickle(a, more), Drop(c.recv, r.headLen), r.bodyLen - |Body(t, pre, r, [])|;
    ContinuationIsWhole(t, pre, r, a);
    GivenFollows(t, pre, r, a, es);
    StreamBytes(t, c, r, a, es);
    TrickleBytes(a, more);
    BodyLengths(t, pre, r, a, es);
    var g, b, s := Given(t, pre, r, a, es), Body(t, pre, r, es), front + more;
    if need == 0 {
      assert more == [];
      BodyComesWithTheHeaders(t, c, r, a);
      assert g == s;
    } else {
      TellingTells(front, need, r.bodyLen);
      assert b[r.bodyLen - 1] == more[need - 1] == s[|s| - 1];
      assert g[..r.bodyLen][r.bodyLen - 1] == s[r.bodyLen - 1];
    }
  }

  /** The writer gets the body that was sent, whatever it is and however it arrives, if and
      only if no completed message is still in the buffer at the headers event. */
  lemma TheBodyIsWrittenIff(t: Table, pre: seq<Event>, r: Request, a: Answers)
    requires Begun(t, pre, r, a) && Uploadable(t, pre, r, a)
    ensures AlwaysTheBody(t, pre, r, a) <==> Run(t, pre).loop.ofs == 0
  {
    hide Run, Guarded, Passes, FindHandler, Body, Given, Whole, Continuation;
    if Run(t, pre).loop.ofs == 0 {
      forall es | Whole(t, pre, r, a, es)
        ensures Given(t, pre, r, a, es) == Body(t, pre, r, es)
      {
        WholeIsWritten(t, pre, r, a, es);
      }
    } else {
      ContinuationIsWhole(t, pre, r, a);
      ContinuationTells(t, pre, r, a);
    }
  }

  lemma WholeIsWritten(t: Table, pre: seq<Event>, r: Request, a: Answers, es: seq<Event>)
    requires Begun(t, pre, r, a) && Whole(t, pre, r, a, es) && Upload.LeavesRoom(r.bodyLen) && Run(t, pre).loop.ofs == 0
    ensures Given(t, pre, r, a, es) == Body(t, pre, r, es)
  {
    hide Run, Guarded, Passes, FindHandler, Body, Given, Upload.Smooth, Stream, Traffic, Legal, Outcome;
    TheBodyIsWritten(t, pre, r, a, es);
  }

  // ------------------------------------------------------------- the failing input

  /** The parser is about to report the next request, `ofs` bytes into the buffer. */
  predicate Next(c: Conn, cause: Cause, served: nat, ofs: nat, recv: seq<byte>) {
    && c.mode == Idle && c.owner == HttpHandler && c.parser && !c.websocket && !c.responding && !c.draining && !c.closed
    && c.request == None && c.served == served && c.recv == recv && c.loop == Parsing(cause, ofs, false)
  }

  /** A request for `/api/ok`, whose user passes the check. */
  predicate Ok(t: Table, r: Request, id: nat, headLen: nat) {
    r.id == id && r.uri == "/api/ok" && !r.isPost && r.headLen == headLen > 0 && r.bodyLen == 0 && !r.chunked && Passes(t, r)
  }

  /** A file of `size` bytes to upload, by a user who may. */
  predicate Put(t: Table, r: Request, id: nat, headLen: nat, size: nat) {
    && r.id == id && r.isPost && r.headLen == headLen > 0 && r.bodyLen == size && Passes(t, r)
    && (var h := FindHandler(t.handlers, r.uri); h.Some? && h.value.kind == File)
  }

  lemma FirstPacket(t: Table, p: seq<byte>, a: Answers)
    ensures Legal(t, [Event.Data(p, a)]) && Next(Run(t, [Event.Data(p, a)]), ForRead, 0, 0, p)
  {
    var e := Event.Data(p, a);
    assert [e][..0] == [] && Run(t, []) == Accepted();
    assert [] + p == p;
  }

  /** The headers of `r` are let through, and no upload begins. */
  predicate LetThrough(t: Table, r: Request, a: Answers) {
    var h := FindHandler(t.handlers, r.uri);
    Passes(t, r) && !(r.isPost && h.Some? && (h.value.kind == File || (h.value.kind == Ota && a.granted)))
  }

  lemma LetThroughIsReported(t: Table, c: Conn, cause: Cause, r: Request, ofs: nat, recv: seq<byte>, a: Answers)
    requires Next(c, cause, r.id, ofs, recv) && LetThrough(t, r, a) && 0 < r.headLen && ofs + r.headLen <= |recv|
    ensures Enabled(c, Headers(r, a))
    ensures var u := Step(t, c, Headers(r, a));
      && u == c.(request := Some(r), loop := Parsing(cause, ofs, true), log := u.log, draining := u.draining)
      && (!r.isPost ==> !u.draining) && (CloseSeen in u.log <==> CloseSeen in c.log)
  {
    hide Guarded, Passes, FindHandler;
  }

  lemma OkIsServed(t: Table, c: Conn, r: Request, ofs: nat, a: Answers)
    requires c.loop == Parsing(ForRead, ofs, true) && c.request == Some(r) && ofs + r.headLen <= |c.recv|
    requires c.mode == Idle && c.owner == HttpHandler && !c.websocket && Ok(t, r, c.served, r.headLen)
    ensures var m := Delivery(0, r.headLen, c.recv);
      && Enabled(c, Message(r, m, a))
      && var u := Step(t, c, Message(r, m, a));
         u == Taken(c, m).(responding := false, log := u.log)
  {
    hide Guarded, Passes, FindHandler, FindRoute, MgMatch, Taken;
    OkIsItself();
  }

  lemma OkIsItself()
    ensures !MgMatch("/api/ok", "/api/login") && !MgMatch("/api/ok", "/api/logout") && MgMatch("/api/ok", "/api/ok")
  {
    LiteralMatch("/api/ok", "/api/login");
    LiteralMatch("/api/ok", "/api/logout");
    LiteralMatch("/api/ok", "/api/ok");
    assert |"/api/ok"| != |"/api/login"| && |"/api/ok"| != |"/api/logout"|;
    hide MgMatch;
  }

  /** A page and an upload that arrive with all their bytes in `packet`. */
  function Served(r1: Request, packet: seq<byte>, a: Answers): seq<Event> {
    [Event.Data(packet, a), Headers(r1, a), Message(r1, Delivery(0, r1.headLen, packet), a)]
  }

  lemma OkInAPacket(t: Table, r1: Request, packet: seq<byte>, a: Answers)
    requires Ok(t, r1, 0, r1.headLen) && r1.headLen <= |packet|
    ensures Legal(t, Served(r1, packet, a)) && Next(Run(t, Served(r1, packet, a)), ForRead, 1, r1.headLen, packet)
  {
    hide Step, Enabled, Passes;
    var es := Served(r1, packet, a);
    assert es[..1] == [es[0]] && es[..2][..1] == es[..1] && es[..2] == [es[0], es[1]] && es[..3] == es;
    FirstPacket(t, packet, a);
    LetThroughIsReported(t, Run(t, es[..1]), ForRead, r1, 0, packet, a);
    assert Run(t, es[..2]) == Step(t, Run(t, es[..1]), es[1]) && Legal(t, es[..2]);
    OkIsServed(t, Run(t, es[..2]), r1, 0, a);
    assert Run(t, es) == Step(t, Run(t, es[..2]), es[2]) && Legal(t, es);
  }

  lemma PutStarts(t: Table, c: Conn, r: Request, ofs: nat, recv: seq<byte>, a: Answers)
    requires Next(c, ForRead, r.id, ofs, recv) && Put(t, r, r.id, r.headLen, r.bodyLen) && ofs + r.headLen <= |recv|
    ensures Starts(t, c, r, a)
  {
    hide Guarded, Passes, FindHandler;
  }

  /** When everything is in the buffer at the headers, the writer is given all of it at once. */
  lemma AllAtOnce(t: Table, pre: seq<Event>, r: Request, a: Answers)
    requires Begun(t, pre, r, a) && a.writerOk && 0 < r.bodyLen
    requires r.bodyLen <= |Drop(Run(t, pre).recv, r.headLen)| <= Upload.MAX_RECV
    ensures Given(t, pre, r, a, []) == Drop(Run(t, pre).recv, r.headLen)
  {
    hide Run, Guarded, Passes, FindHandler, Upload.Run, Upload.Written, Upload.Arrived, WriterCalls, Drop, Stream;
    var x := Upload.Arrival(Drop(Run(t, pre).recv, r.headLen), true);
    OutcomeTracks(t, pre, r, a, []);
    FirstOfStream(t, Run(t, pre), r, a);
    FirstTakesAll(r.bodyLen, x);
    Upload.BytesAreConserved(r.bodyLen, [x]);
    ArrivedOf([x]);
    var w := Given(t, pre, r, a, []);
    assert w + [] == w;
  }

  /** A page and an upload in one packet: the last bytes of the page's request and of the
      upload's headers are written as the start of the file. */
  lemma OnePacketIsCorrupted(t: Table, r1: Request, r2: Request, p1: seq<byte>, h2: seq<byte>, b2: seq<byte>, a: Answers)
    requires Ok(t, r1, 0, |p1|) && Put(t, r2, 1, |h2|, |b2|) && a.writerOk
    requires |b2| > 0 && |p1 + h2 + b2| <= Upload.MAX_RECV
    ensures var pre := Served(r1, p1 + h2 + b2, a);
      && Begun(t, pre, r2, a) && Run(t, pre).loop.ofs == |p1|
      && Body(t, pre, r2, []) == b2
      && Given(t, pre, r2, a, []) == (p1 + h2)[|h2|..] + b2 != b2
  {
    hide Legal, Run, Guarded, Passes, FindHandler, Given, Next, Starts;
    var packet := p1 + h2 + b2;
    var pre := Served(r1, packet, a);
    OkInAPacket(t, r1, packet, a);
    NextIs(Run(t, pre), 1, |p1|, packet);
    PutStarts(t, Run(t, pre), r2, |p1|, packet, a);
    AllAtOnce(t, pre, r2, a);
    assert packet[|h2|..] == (p1 + h2)[|h2|..] + b2;
    assert packet[|p1|..][|h2|..] == b2;
  }

  lemma NextIs(c: Conn, served: nat, ofs: nat, recv: seq<byte>)
    requires Next(c, ForRead, served, ofs, recv)
    ensures c.recv == recv && c.loop == Parsing(ForRead, ofs, false)
  {
  }

  /** The same page and upload in two packets. */
  function Apart(r1: Request, p1: seq<byte>, packet: seq<byte>, a: Answers): seq<Event> {
    Served(r1, p1, a) + [LoopEnd(a), Event.Data(packet, a)]
  }

  lemma LoopIsOver(t: Table, c: Conn, served: nat, recv: seq<byte>, packet: seq<byte>, a: Answers)
    requires Next(c, ForRead, served, |recv|, recv)
    ensures Enabled(c, LoopEnd(a))
    ensures var d := Step(t, c, LoopEnd(a));
            Enabled(d, Event.Data(packet, a)) && Next(Step(t, d, Event.Data(packet, a)), ForRead, served, 0, packet)
  {
    assert recv[|recv|..] == [] && [] + packet == packet;
  }

  lemma TwoPacketsAreFine(t: Table, r1: Request, r2: Request, p1: seq<byte>, h2: seq<byte>, b2: seq<byte>, a: Answers)
    requires Ok(t, r1, 0, |p1|) && Put(t, r2, 1, |h2|, |b2|) && a.writerOk
    requires |b2| > 0 && |h2 + b2| <= Upload.MAX_RECV
    ensures var pre := Apart(r1, p1, h2 + b2, a);
      && Begun(t, pre, r2, a) && Run(t, pre).loop.ofs == 0
      && Given(t, pre, r2, a, []) == Body(t, pre, r2, []) == b2
  {
    hide Step, Enabled, Guarded, Passes, FindHandler, Given, Next, Starts;
    var es := Served(r1, p1, a);
    var pre := Apart(r1, p1, h2 + b2, a);
    OkInAPacket(t, r1, p1, a);
    LoopIsOver(t, Run(t, es), 1, p1, h2 + b2, a);
    assert pre[..4][..3] == es && pre[..4] == es + [LoopEnd(a)] && pre[..5] == pre;
    assert Run(t, pre[..4]) == Step(t, Run(t, es), LoopEnd(a)) && Legal(t, pre[..4]);
    assert Run(t, pre) == Step(t, Run(t, pre[..4]), pre[4]) && Legal(t, pre);
    NextIs(Run(t, pre), 1, 0, h2 + b2);
    PutStarts(t, Run(t, pre), r2, 0, h2 + b2, a);
    AllAtOnce(t, pre, r2, a);
    assert (h2 + b2)[|h2|..] == b2 && (h2 + b2)[0..] == h2 + b2;
  }
}
