/**
 The check of the write level is made on the headers event, with the body length known by
 then. A chunked request declares no length, and at a close the body is whatever is left:
 its message can bring a body that no check has seen.
 */
module WebApiBodies {
  import opened Common
  import opened Routing
  import opened Glob
  import opened WebApi
  import opened WebApiRuns
  import opened WebApiRefusals
  import opened WebApiAnswers
  import opened WebApiUploads
  import opened WebApiPipelining
  import Upload

  /** Effects that hand a body to the firmware. */
  predicate Carries(e: Effect) {
    e.SetterRan? || e.StarterRan? || e.CustomRan?
  }

  lemma LengthIsKnown(t: Table, log: seq<Effect>, k: nat)
    requires Audited(t, log).ok && k < |log| && Carries(log[k])
    ensures LengthKnown(Audited(t, log[..k]), log[k].req, log[k].body)
  {
    hide Passes;
    OkEarlier(t, log, k + 1);
    assert log[..k + 1][..k] == log[..k];
  }

  lemma {:induction false} EndingIsLogged(t: Table, log: seq<Effect>)
    requires Audited(t, log).ending
    ensures CloseSeen in log
    decreases |log|
  {
    hide Passes;
    if log[|log| - 1] != CloseSeen {
      EndingIsLogged(t, log[..|log| - 1]);
    }
  }

  /** In every run, whatever handed a body to the firmware did so for a user whose level
      reaches the write level, unless the headers had declared no body, and the request was
      chunked or the connection being closed. */
  lemma BodiesAreChecked(t: Table, es: seq<Event>, k: nat)
    requires Legal(t, es) && k < |Run(t, es).log| && Carries(Run(t, es).log[k])
    ensures var log := Run(t, es).log; var e := log[k];
      || PassesWith(t, e.req, e.body)
      || (e.req.bodyLen == 0 < e.body && (e.req.chunked || CloseSeen in log[..k]))
  {
    hide Run, Audited, PassesWith;
    var log := Run(t, es).log;
    SoundMeansOk(t, es);
    EffectsAreAuthorised(t, es, k);
    LengthIsKnown(t, log, k);
    LevelsAreMonotone(t, log[k].req, log[k].body);
    LevelsAreMonotone(t, log[k].req, log[k].req.bodyLen);
    if Audited(t, log[..k]).ending {
      EndingIsLogged(t, log[..k]);
    }
  }

  /** A user who may write may send any body; the check of a declared body is that check. */
  lemma LevelsAreMonotone(t: Table, r: Request, n: nat)
    ensures PassesWith(t, r, 1) ==> PassesWith(t, r, n)
    ensures n > 0 ==> PassesWith(t, r, n) == PassesWith(t, r, 1)
  {
    hide FindHandler, FindRoute;
  }

  /** Every byte that an upload's writer was given had passed the check of the write level:
      a body of unknown length is never uploaded. */
  lemma UploadsAreChecked(t: Table, es: seq<Event>, k: nat)
    requires Legal(t, es) && k < |Run(t, es).log| && Run(t, es).log[k].Written?
    ensures PassesWith(t, Run(t, es).log[k].req, 1)
  {
    hide Run, Audited, PassesWith;
    var log := Run(t, es).log;
    SoundMeansOk(t, es);
    EffectsAreAuthorised(t, es, k);
    WrittenIsDeclared(t, log, k);
    LevelsAreMonotone(t, log[k].req, log[k].req.bodyLen);
  }

  lemma WrittenIsDeclared(t: Table, log: seq<Effect>, k: nat)
    requires Audited(t, log).ok && k < |log| && log[k].Written?
    ensures log[k].req.bodyLen > 0
  {
    hide Passes;
    OkEarlier(t, log, k + 1);
    assert log[..k + 1][..k] == log[..k];
  }

  // ------------------------------------------------------- exactly when it is checked

  /** The handler serves the messages that come on `c`. */
  predicate Attended(c: Conn) {
    Attends(c) && c.mode == Idle
  }

  /** The last event of the run is a message of `r`, whatever its number, that is served;
      the connection is being closed by then, or not. */
  predicate ServesLast(t: Table, es: seq<Event>, r: Request, closing: bool) {
    && es != [] && Legal(t, es)
    && var e, c := es[|es| - 1], Run(t, es[..|es| - 1]);
       e.Message? && e.req.(id := r.id) == r && Attended(c) && (CloseSeen in c.log <==> closing)
  }

  /** Every message of `r` that is served has a body that the level of its user suffices for. */
  ghost predicate AlwaysChecked(t: Table, r: Request, closing: bool) {
    forall es: seq<Event> :: ServesLast(t, es, r, closing) ==> PassesWith(t, r, es[|es| - 1].m.body)
  }

  /** A file upload takes the buffer over at its headers; it never gets to a message. */
  predicate TakesOver(t: Table, r: Request) {
    var h := FindHandler(t.handlers, r.uri);
    r.isPost && h.Some? && h.value.kind == File
  }

  /** The part of the condition that does not depend on how the body comes. */
  predicate Secured(t: Table, r: Request) {
    r.bodyLen > 0 || PassesWith(t, r, 1) || TakesOver(t, r)
  }

  lemma HandlerKeepsLoop(c: Conn, cause: Cause, a: Answers)
    ensures HandlerEvent(c, cause, a).loop == c.loop
  {
    hide UploadRead;
    if c.mode.Uploading? {
      ReadKeepsDetached(c, a.writerOk);
      ReleaseKeepsDetached(c);
    }
  }

  /** A message comes right after the headers of its request. */
  lemma HeadersComeFirst(t: Table, es: seq<Event>)
    requires Legal(t, es) && Run(t, es).loop.Parsing? && Run(t, es).loop.reported
    ensures es != [] && es[|es| - 1].Headers? && Run(t, es).request == Some(es[|es| - 1].req)
  {
    hide OnMessage, HandlerEvent, OnHeaders, Drop;
    if es != [] {
      var c, e := Run(t, es[..|es| - 1]), es[|es| - 1];
      match e
      case Headers(r, a) =>
        HeadersName(t, c, r, a);
      case Message(r, m, a) =>
        MessageBuffers(t, c, r, m, a);
      case Data(chunk, a) =>
        HandlerKeepsLoop(c.(recv := c.recv + chunk), ForRead, a);
      case Poll(a) =>
        HandlerKeepsLoop(c, ForPoll, a);
      case Close(a) =>
        HandlerKeepsLoop(Log(c, CloseSeen), ForClose, a);
      case LoopEnd(a) =>
        HandlerKeepsLoop(c.(loop := Resting, recv := if c.loop.Parsing? then Drop(c.recv, c.loop.ofs) else c.recv),
                         c.loop.cause, a);
    }
  }

  lemma HeadersName(t: Table, c: Conn, r: Request, a: Answers)
    requires c.loop.Parsing?
    ensures OnHeaders(t, c, r, a).request == Some(r)
  {
    hide Guarded, Passes, StartUpload;
    var c0 := Reported(c, r);
    if c.mode == Idle {
      UploadNames(t, if Guarded(t, r.uri) then Log(c0, Admitted(r)) else c0, r, a);
    }
  }

  lemma UploadNames(t: Table, c: Conn, r: Request, a: Answers)
    requires c.loop.Parsing? && c.mode == Idle
    ensures StartUpload(t, c, r, a).request == c.request
  {
    hide StartUpload, Answered, Executed, Firmware, Open;
    StartUploadBegins(t, c, r, a, 0);
  }

  lemma FileLeavesTheLoop(t: Table, c: Conn, r: Request, a: Answers)
    requires c.loop.Parsing? && TakesOver(t, r)
    ensures !StartUpload(t, c, r, a).loop.Parsing?
  {
    hide FindHandler, UploadRead;
    ReadKeepsDetached(BeginUpload(c, false, r, a.granted), a.writerOk);
  }

  lemma TakenOverIsNotServed(t: Table, c: Conn, r: Request, a: Answers)
    requires c.loop.Parsing? && TakesOver(t, r)
    ensures var u := OnHeaders(t, c, r, a); !(u.loop.Parsing? && Attended(u))
  {
    hide Guarded, Passes, TakesOver, StartUpload;
    var c0 := Reported(c, r);
    FileLeavesTheLoop(t, if Guarded(t, r.uri) then Log(c0, Admitted(r)) else c0, r, a);
  }

  lemma ServedWasReported(t: Table, es: seq<Event>, r: Request, closing: bool)
    requires ServesLast(t, es, r, closing)
    ensures !TakesOver(t, r)
  {
    hide OnMessage, OnHeaders, Deliverable, FindHandler;
    var es0 := es[..|es| - 1];
    HeadersComeFirst(t, es0);
    if TakesOver(t, r) {
      TakenOverIsNotServed(t, Run(t, es0[..|es0| - 1]), es[|es| - 1].req, es0[|es0| - 1].a);
    }
  }

  lemma ClosingIsLogged(t: Table, es: seq<Event>)
    requires Legal(t, es)
    ensures Run(t, es).loop.Parsing? && Run(t, es).loop.cause.ForClose? ==> CloseSeen in Run(t, es).log
  {
    EveryRunIsSound(t, es);
    hide Run, Guarded, Passes, Audited;
    if Audited(t, Run(t, es).log).ending {
      EndingIsLogged(t, Run(t, es).log);
    }
  }

  lemma SameUser(t: Table, q: Request, r: Request, n: nat)
    requires q.(id := r.id) == r
    ensures PassesWith(t, q, n) == PassesWith(t, r, n)
  {
    hide FindHandler, FindRoute;
  }

  lemma LengthOfServed(t: Table, es: seq<Event>, r: Request)
    requires ServesLast(t, es, r, false) && !r.chunked
    ensures es[|es| - 1].m.body == r.bodyLen
  {
    ClosingIsLogged(t, es[..|es| - 1]);
    hide Run;
  }

  lemma SecuredIsChecked(t: Table, r: Request, closing: bool)
    requires Passes(t, r) && (Secured(t, r) || (!closing && !r.chunked))
    ensures AlwaysChecked(t, r, closing)
  {
    forall es: seq<Event> | ServesLast(t, es, r, closing)
      ensures PassesWith(t, r, es[|es| - 1].m.body)
    {
      ServedWasReported(t, es, r, closing);
      LevelsAreMonotone(t, r, es[|es| - 1].m.body);
      LevelsAreMonotone(t, r, r.bodyLen);
      if !closing && !r.chunked {
        LengthOfServed(t, es, r);
      }
      hide ServesLast, PassesWith, TakesOver;
    }
  }

  // ------------------------------------------------------------------ the witnesses

  /** A packet with the head of `r` and `n` bytes of chunks, and what the parser makes of it. */
  function Unseen(r: Request, n: nat, a: Answers): seq<Event> {
    var packet := Zeros(r.headLen + n);
    [Event.Data(packet, a), Headers(r, a), Message(r, Delivery(n, r.headLen + n, packet), a)]
  }

  /** The opener turns firmware down, so that its message is served too. */
  lemma LetThroughIfDeclined(t: Table, r: Request, a: Answers)
    requires Passes(t, r) && !TakesOver(t, r) && (Firmware(t, r) ==> !a.granted)
    ensures LetThrough(t, r, a)
  {
    hide Passes, FindHandler;
  }

  lemma UnseenIsServed(t: Table, r: Request, n: nat, a: Answers)
    requires Passes(t, r) && r.id == 0 && r.headLen > 0 && !TakesOver(t, r) && (Firmware(t, r) ==> !a.granted)
    requires r.chunked || n == r.bodyLen
    ensures ServesLast(t, Unseen(r, n, a), r, false)
  {
    hide Step, Passes, TakesOver, Firmware, LetThrough;
    var es, packet := Unseen(r, n, a), Zeros(r.headLen + n);
    assert es[..1] == [es[0]] && es[..2] == [es[0], es[1]] && es[..2][..1] == es[..1] && es[..3] == es;
    FirstPacket(t, packet, a);
    LetThroughIfDeclined(t, r, a);
    var c1 := Run(t, es[..1]);
    LetThroughIsReported(t, c1, ForRead, r, 0, packet, a);
    var c2 := Step(t, c1, es[1]);
    assert Run(t, es[..2]) == c2 && Legal(t, es[..2]);
    assert Legal(t, es) && Attended(c2);
    PacketNoClose(t, packet, a);
  }

  lemma PacketNoClose(t: Table, packet: seq<byte>, a: Answers)
    ensures Run(t, [Event.Data(packet, a)]).log == []
  {
    var es := [Event.Data(packet, a)];
    assert es[..0] == [] && Run(t, []) == Accepted();
  }

  /** Before any close: the body of every message that is served has been checked if and only
      if the headers declared one, or the request is not chunked, or its user may write (or it
      is a file upload, which has no message). */
  lemma WriteLevelIsCheckedIff(t: Table, r: Request)
    requires Passes(t, r) && r.headLen > 0
    ensures AlwaysChecked(t, r, false) <==> Secured(t, r) || !r.chunked
  {
    hide Passes, Guarded, ServesLast, TakesOver, PassesWith;
    if Secured(t, r) || !r.chunked {
      SecuredIsChecked(t, r, false);
    } else {
      var a := Answers(false, true, true, true, true);
      var q := r.(id := 0);
      SameUser(t, q, r, r.bodyLen);
      SameTarget(t, q, r);
      UnseenIsServed(t, q, 1, a);
      var es := Unseen(q, 1, a);
      ServedAlike(t, es, q, r, false);
      assert es[|es| - 1].m.body == 1;
    }
  }

  lemma SameTarget(t: Table, q: Request, r: Request)
    requires q.(id := r.id) == r
    ensures TakesOver(t, q) == TakesOver(t, r) && Passes(t, q) == Passes(t, r)
  {
    hide FindHandler, FindRoute;
  }

  lemma ServedAlike(t: Table, es: seq<Event>, q: Request, r: Request, closing: bool)
    requires ServesLast(t, es, q, closing) && q.(id := r.id) == r
    ensures ServesLast(t, es, r, closing)
  {
    hide Run, Legal, Attended;
  }

  // ---------------------------------------------------------------------- at a close

  /** An action that `first` may start, as the first request of a connection. */
  predicate Starter(t: Table, first: Request, headLen: nat, bodyLen: nat) {
    && first.id == 0 && !first.isPost && !first.chunked && first.headLen == headLen > 0 && first.bodyLen == bodyLen > 0
    && Passes(t, first) && !BuiltIn(first.uri) && FindRoute(t.routes, first.uri).None?
    && (var h := FindHandler(t.handlers, first.uri); h.Some? && h.value.kind == Action)
  }

  lemma ActionIsStarted(t: Table, c: Conn, r: Request, a: Answers)
    requires c.loop == Parsing(ForRead, 0, true) && c.request == Some(r) && r.headLen + r.bodyLen <= |c.recv|
    requires c.mode == Idle && c.owner == HttpHandler && !c.websocket && Starter(t, r, r.headLen, r.bodyLen) && a.running
    ensures var m := Delivery(r.bodyLen, r.headLen + r.bodyLen, c.recv);
      && Enabled(c, Message(r, m, a))
      && var u := Step(t, c, Message(r, m, a));
         u == Taken(c, m).(mode := ActionPending(r.id), log := u.log)
  {
    hide Guarded, Passes, FindHandler, FindRoute, MgMatch, Taken;
    BuiltInsMatchThemselves(r.uri);
  }

  /** The connection waits for the action of its first request, with `rest` in the buffer. */
  predicate Waits(c: Conn, rest: seq<byte>) {
    && c.mode == ActionPending(0) && c.owner == HttpHandler && c.parser && !c.websocket && c.responding && !c.draining
    && !c.closed && c.request == None && c.served == 1 && c.recv == rest && c.loop == Resting
  }

  lemma ActionLoopEnds(t: Table, c: Conn, m: Delivery, d: Conn, rest: seq<byte>, a: Answers)
    requires c.loop == Parsing(ForRead, 0, true) && c.owner == HttpHandler && c.parser
    requires !c.websocket && !c.draining && !c.closed && c.served == 0
    requires d == Taken(c, m).(mode := ActionPending(0), log := d.log) && m.used <= |m.buffer| && m.buffer[m.used..] == rest
    ensures Enabled(d, LoopEnd(a)) && Waits(Step(t, d, LoopEnd(a)), rest)
  {
  }

  lemma PollAnswers(t: Table, c: Conn, rest: seq<byte>, a: Answers)
    requires Waits(c, rest) && !a.running
    ensures Enabled(c, Poll(a))
    ensures var d := Step(t, c, Poll(a)); var u := Step(t, d, LoopEnd(a)); var v := Step(t, u, Close(a));
      Enabled(d, LoopEnd(a)) && Enabled(u, Close(a)) && Next(v, ForClose, 1, 0, rest) && CloseSeen in v.log
  {
    assert rest[0..] == rest;
  }

  /** `first` and the head of `r` with one byte more arrive together; the action of `first`
      keeps the parser waiting, and the connection closes when it is over. */
  function Leftover(first: Request, r: Request, a: Answers): seq<Event> {
    var packet := Zeros(first.headLen + first.bodyLen) + Zeros(r.headLen + 1);
    var done := a.(running := false);
    [Event.Data(packet, a), Headers(first, a), Message(first, Delivery(first.bodyLen, first.headLen + first.bodyLen, packet), a),
     LoopEnd(a), Poll(done), LoopEnd(done), Close(done),
     Headers(r, done), Message(r, Delivery(1, r.headLen + 1, Zeros(r.headLen + 1)), done)]
  }

  lemma LeftoverWaits(t: Table, first: Request, r: Request, a: Answers)
    requires Starter(t, first, first.headLen, first.bodyLen) && a.running
    ensures var es := Leftover(first, r, a)[..4];
            Legal(t, es) && Waits(Run(t, es), Zeros(r.headLen + 1))
  {
    hide Step, Passes, LetThrough, Waits;
    var es := Leftover(first, r, a);
    var rest := Zeros(r.headLen + 1);
    var packet := Zeros(first.headLen + first.bodyLen) + rest;
    assert es[..1] == [es[0]] && es[..2][..1] == es[..1] && es[..3][..2] == es[..2] && es[..4][..3] == es[..3];
    FirstPacket(t, packet, a);
    StarterIsLetThrough(t, first, a);
    var c1 := Run(t, es[..1]);
    LetThroughIsReported(t, c1, ForRead, first, 0, packet, a);
    var c2 := Step(t, c1, es[1]);
    assert Run(t, es[..2]) == c2 && Legal(t, es[..2]);
    ActionIsStarted(t, c2, first, a);
    var c3 := Step(t, c2, es[2]);
    assert Run(t, es[..3]) == c3 && Legal(t, es[..3]);
    ActionLoopEnds(t, c2, es[2].m, c3, rest, a);
    assert Run(t, es[..4]) == Step(t, c3, es[3]) && Legal(t, es[..4]);
  }

  lemma StarterIsLetThrough(t: Table, first: Request, a: Answers)
    requires Starter(t, first, first.headLen, first.bodyLen)
    ensures LetThrough(t, first, a)
  {
    hide Passes, FindHandler, FindRoute, BuiltIn;
  }

  lemma LeftoverCloses(t: Table, first: Request, r: Request, a: Answers)
    requires Starter(t, first, first.headLen, first.bodyLen) && a.running
    ensures var es, rest := Leftover(first, r, a)[..7], Zeros(r.headLen + 1);
            Legal(t, es) && Next(Run(t, es), ForClose, 1, 0, rest) && CloseSeen in Run(t, es).log
  {
    hide Step, Passes, Waits, Starter, Next;
    var es, done, rest := Leftover(first, r, a), a.(running := false), Zeros(r.headLen + 1);
    assert es[..5][..4] == es[..4] && es[..6][..5] == es[..5] && es[..7][..6] == es[..6];
    LeftoverWaits(t, first, r, a);
    var c4 := Run(t, es[..4]);
    PollAnswers(t, c4, rest, done);
    var c5 := Step(t, c4, es[4]);
    assert Run(t, es[..5]) == c5 && Legal(t, es[..5]);
    var c6 := Step(t, c5, es[5]);
    assert Run(t, es[..6]) == c6 && Legal(t, es[..6]);
    assert Run(t, es[..7]) == Step(t, c6, es[6]) && Legal(t, es[..7]);
  }

  lemma LeftoverIsServed(t: Table, first: Request, r: Request, a: Answers)
    requires Starter(t, first, first.headLen, first.bodyLen) && a.running
    requires Passes(t, r) && r.id == 1 && r.headLen > 0 && !TakesOver(t, r) && (Firmware(t, r) ==> !a.granted)
    ensures ServesLast(t, Leftover(first, r, a), r, true)
  {
    hide Step, Passes, TakesOver, Firmware, LetThrough, Starter;
    var es, done, rest := Leftover(first, r, a), a.(running := false), Zeros(r.headLen + 1);
    assert es[..8][..7] == es[..7] && es[..9] == es;
    LeftoverCloses(t, first, r, a);
    var c7 := Run(t, es[..7]);
    LetThroughIfDeclined(t, r, done);
    LetThroughIsReported(t, c7, ForClose, r, 0, rest, done);
    var c8 := Step(t, c7, es[7]);
    assert Run(t, es[..8]) == c8 && Legal(t, es[..8]);
    assert Legal(t, es) && Attended(c8);
  }

  /** At a close, where a request that was held up behind an action is taken to own all that
      is left in the buffer: its body has been checked if and only if the headers declared
      one, or its user may write (or it is a file upload). */
  lemma WriteLevelAtCloseIff(t: Table, r: Request, first: Request)
    requires Passes(t, r) && r.headLen > 0 && Starter(t, first, first.headLen, first.bodyLen)
    ensures AlwaysChecked(t, r, true) <==> Secured(t, r)
  {
    hide Passes, ServesLast, TakesOver, PassesWith, Starter;
    if Secured(t, r) {
      SecuredIsChecked(t, r, true);
    } else {
      var a := Answers(false, true, true, true, true);
      var q := r.(id := 1);
      SameUser(t, q, r, r.bodyLen);
      SameTarget(t, q, r);
      LeftoverIsServed(t, first, q, a);
      var es := Leftover(first, q, a);
      ServedAlike(t, es, q, r, true);
      assert es[|es| - 1].m.body == 1;
    }
  }

  // ------------------------------------------------------------------ what gets done

  /** A chunked request that asks for something to be done has it done, though its user may
      only read. */
  lemma ReaderWrites(t: Table, r: Request, n: nat, a: Answers)
    requires Passes(t, r) && r.id == 0 && r.headLen > 0 && r.chunked && r.bodyLen == 0 < n
    requires Runs(t, r, n, a.itemExists) && !PassesWith(t, r, 1) && !TakesOver(t, r) && !Firmware(t, r)
    ensures var es := Unseen(r, n, a);
            Legal(t, es) && Executed(Run(t, es).log, 0) == 1 && !PassesWith(t, r, n)
  {
    hide Passes, Step, Enabled, TakesOver, Firmware, Runs, Run, Executed;
    var es := Unseen(r, n, a);
    UnseenIsServed(t, r, n, a);
    LevelsAreMonotone(t, r, n);
    assert es[..2] == es[..|es| - 1];
    UnseenFinishes(t, r, n, a);
  }

  lemma UnseenFinishes(t: Table, r: Request, n: nat, a: Answers)
    requires ServesLast(t, Unseen(r, n, a), r, false) && Passes(t, r) && r.id == 0
    ensures Executed(Run(t, Unseen(r, n, a)).log, 0) == if Runs(t, r, n, a.itemExists) then 1 else 0
  {
    hide Passes, Step, Runs, Executed, Answered, Firmware, Guarded;
    var es := Unseen(r, n, a);
    AnsweredAndDoneOnce(t, es[..|es| - 1], r, es[2].m, a);
  }

  /** The device's settings of the network: level 3 reads them, level 7 writes them. */
  function NetworkTable(): Table {
    Table([Handler("network_settings", Kind.Data, 3, 7, true)], [])
  }

  /** An ordinary user, of level 3, sends settings in chunks. */
  function ByReader(headLen: nat): Request {
    Request(0, false, "/api/network_settings", headLen, 0, true, Some(3))
  }

  /** The settings are stored, though the user's level falls short. */
  lemma NetworkSettingsAreWritten(headLen: nat, n: nat, a: Answers)
    requires headLen > 0 && n > 0
    ensures var t, r := NetworkTable(), ByReader(headLen); var es := Unseen(r, n, a);
      && Passes(t, r) && !PassesWith(t, r, n)
      && Legal(t, es) && Executed(Run(t, es).log, 0) == 1
  {
    var t, r := NetworkTable(), ByReader(headLen);
    assert "/api/network_settings"[5..] == "network_settings" && "/api/network_settings"[..5] == "/api/";
    assert "network_settings"[..|"network_settings"|] == "network_settings";
    assert FindHandler(t.handlers, r.uri) == Some(t.handlers[0]);
    assert |r.uri| > |"/api/heartbeat"|;
    hide FindHandler, FindRoute, Unseen, Run, Legal;
    ReaderWrites(t, r, n, a);
  }
}
