/**
 The upload re-chunker: `do_upload` on MG_EV_READ.

 The network appends to the receive buffer in pieces of any size; the writer is
 given aligned pieces, except for the last one. `ReadStep` is one event; `Run` a
 whole upload under an arbitrary fragmentation.
 */
module Upload {
  import opened Common

  const ALIGNMENT := 512
  const MAX_RECV := 3 * 1024 * 1024

  function RoundDown(x: nat, a: nat): nat {
    if a == 0 then x else x / a * a
  }

  datatype Outcome = Running | Failed | Done

  /** A call of the writer: the offset that file writers are given, and the data. */
  datatype Write = Write(ofs: nat, data: seq<byte>)

  datatype Step = Step(outcome: Outcome, received: nat, recv: seq<byte>, write: Option<Write>)

  /** How much of `len` buffered bytes is passed on. `received + len` is a
      `size_t` sum and wraps. */
  function ChunkLen(received: nat, len: nat, expected: nat): (n: nat)
    ensures n <= len
  {
    if (received + len) % WORD < expected then RoundDown(len, ALIGNMENT) else len
  }

  /** One MG_EV_READ. `ok` is the writer's answer, should it be called. */
  function ReadStep(received: nat, expected: nat, recv: seq<byte>, ok: bool): Step {
    if expected == 0 || recv == [] then Step(Running, received, recv, None)
    else
      var n := ChunkLen(received, |recv|, expected);
      var received' := (received + n) % WORD;
      Step(
        if n > 0 && !ok then Failed else if received' >= expected then Done else Running,
        received', recv[n..],
        if n > 0 then Some(Write(received, recv[..n])) else None)
  }

  // ------------------------------------------------------------- whole uploads

  /** An upload with the calls of its writer so far. */
  datatype Session = Session(outcome: Outcome, received: nat, recv: seq<byte>, writes: seq<Write>)

  /** Bytes arrive: `MG_EV_READ` after the network has appended `chunk`. Once the
      upload is over the handler state is cleared and bytes only pile up. */
  function Feed(s: Session, expected: nat, chunk: seq<byte>, ok: bool): Session {
    var recv := s.recv + chunk;
    if s.outcome != Running then s.(recv := recv)
    else
      var t := ReadStep(s.received, expected, recv, ok);
      Session(t.outcome, t.received, t.recv,
              if t.write.Some? then s.writes + [t.write.value] else s.writes)
  }

  datatype Arrival = Arrival(chunk: seq<byte>, writerOk: bool)

  function Run(expected: nat, es: seq<Arrival>): Session {
    if es == [] then Session(Running, 0, [], [])
    else Feed(Run(expected, es[..|es| - 1]), expected, es[|es| - 1].chunk, es[|es| - 1].writerOk)
  }

  function Chunks(es: seq<Arrival>): seq<seq<byte>> {
    seq(|es|, i requires 0 <= i < |es| => es[i].chunk)
  }

  function Datas(ws: seq<Write>): seq<seq<byte>> {
    seq(|ws|, i requires 0 <= i < |ws| => ws[i].data)
  }

  function Arrived(es: seq<Arrival>): seq<byte> {
    Flatten(Chunks(es))
  }

  function Written(ws: seq<Write>): seq<byte> {
    Flatten(Datas(ws))
  }

  lemma ArrivedSnoc(es: seq<Arrival>)
    requires es != []
    ensures Arrived(es) == Arrived(es[..|es| - 1]) + es[|es| - 1].chunk
  {
    assert Chunks(es) == Chunks(es[..|es| - 1]) + [es[|es| - 1].chunk];
    FlattenSnoc(Chunks(es[..|es| - 1]), es[|es| - 1].chunk);
  }

  lemma WrittenSnoc(ws: seq<Write>, w: Write)
    ensures Written(ws + [w]) == Written(ws) + w.data
  {
    assert Datas(ws + [w]) == Datas(ws) + [w.data];
    FlattenSnoc(Datas(ws), w.data);
  }

  // -------------------------------------------------------------- conservation

  /** No byte is lost, duplicated or reordered: what the writer was given,
      followed by what is still buffered, is what arrived. This holds in every
      run, whether the writer succeeds or fails, and past the end. */
  lemma {:induction false} BytesAreConserved(expected: nat, es: seq<Arrival>)
    ensures var s := Run(expected, es); Written(s.writes) + s.recv == Arrived(es)
    decreases |es|
  {
    if es != [] {
      BytesAreConserved(expected, es[..|es| - 1]);
      ArrivedSnoc(es);
      FeedConserves(Run(expected, es[..|es| - 1]), expected, es[|es| - 1]);
    }
  }

  lemma StepConserves(received: nat, expected: nat, recv: seq<byte>, ok: bool)
    ensures var t := ReadStep(received, expected, recv, ok);
            (if t.write.Some? then t.write.value.data else []) + t.recv == recv
  {
    hide ChunkLen;
  }

  lemma FeedConserves(s: Session, expected: nat, e: Arrival)
    ensures var u := Feed(s, expected, e.chunk, e.writerOk);
            Written(u.writes) + u.recv == Written(s.writes) + s.recv + e.chunk
  {
    hide ReadStep, Written;
    var recv := s.recv + e.chunk;
    assert Written(s.writes) + recv == Written(s.writes) + s.recv + e.chunk;
    if s.outcome == Running {
      var t := ReadStep(s.received, expected, recv, e.writerOk);
      StepConserves(s.received, expected, recv, e.writerOk);
      if t.write.Some? {
        WrittenSnoc(s.writes, t.write.value);
        assert Written(s.writes) + t.write.value.data + t.recv == Written(s.writes) + (t.write.value.data + t.recv);
      } else {
        assert [] + t.recv == t.recv;
      }
    }
  }

  // ------------------------------------------------------ offsets and alignment

  predicate OffsetsAreSums(ws: seq<Write>) {
    forall k :: 0 <= k < |ws| ==> ws[k].ofs == |Written(ws[..k])| % WORD
  }

  predicate AllAligned(ws: seq<Write>) {
    forall k :: 0 <= k < |ws| ==> |ws[k].data| % ALIGNMENT == 0
  }

  /** What every run keeps about the writer's calls: the offset passed is the sum
      of the earlier lengths, every call but a final one has an aligned length, and
      less than one block stays behind after a non-final step. */
  predicate Kept(s: Session, expected: nat) {
    && OffsetsAreSums(s.writes)
    && s.received == |Written(s.writes)| % WORD
    && (s.outcome == Running ==> s.received < expected && AllAligned(s.writes) && |s.recv| < ALIGNMENT)
    && (s.outcome != Running ==> s.writes != [] && AllAligned(s.writes[..|s.writes| - 1]))
  }

  lemma {:induction false} EveryRunKeeps(expected: nat, es: seq<Arrival>)
    requires expected > 0
    ensures Kept(Run(expected, es), expected)
    decreases |es|
  {
    if es != [] {
      EveryRunKeeps(expected, es[..|es| - 1]);
      FeedKeeps(Run(expected, es[..|es| - 1]), expected, es[|es| - 1]);
    }
  }

  /** In every run, all offsets given to the writer and all lengths but the last
      one of a finished upload are multiples of 512. */
  lemma WritesAreAligned(expected: nat, es: seq<Arrival>, k: nat)
    requires expected > 0
    requires k < |Run(expected, es).writes|
    ensures var s := Run(expected, es);
            && s.writes[k].ofs == |Written(s.writes[..k])| % WORD
            && s.writes[k].ofs % ALIGNMENT == 0
            && (k < |s.writes| - 1 || s.outcome == Running ==> |s.writes[k].data| % ALIGNMENT == 0)
  {
    hide Run, Written, RoundDown;
    EveryRunKeeps(expected, es);
    var s := Run(expected, es);
    var ws := if s.outcome == Running then s.writes else s.writes[..|s.writes| - 1];
    assert ws[..k] == s.writes[..k];
    assert k < |ws| ==> ws[k] == s.writes[k];
    AlignedTotal(ws[..k]);
    WordIsAligned(|Written(ws[..k])|);
  }

  lemma {:induction false} AlignedTotal(ws: seq<Write>)
    requires AllAligned(ws)
    ensures |Written(ws)| % ALIGNMENT == 0
    decreases |ws|
  {
    if ws != [] {
      var ws0, w := ws[..|ws| - 1], ws[|ws| - 1];
      AlignedTotal(ws0);
      assert ws == ws0 + [w];
      WrittenSnoc(ws0, w);
      AlignedSum(|Written(ws0)|, |w.data|);
    }
  }

  lemma WordIsAligned(x: nat)
    ensures x % ALIGNMENT == 0 ==> x % WORD % ALIGNMENT == 0
  {
  }

  lemma AlignedSum(x: nat, y: nat)
    requires x % ALIGNMENT == 0 && y % ALIGNMENT == 0
    ensures (x + y) % ALIGNMENT == 0
  {
  }

  lemma FeedKeeps(s: Session, expected: nat, e: Arrival)
    requires expected > 0 && Kept(s, expected)
    ensures Kept(Feed(s, expected, e.chunk, e.writerOk), expected)
  {
    var recv := s.recv + e.chunk;
    if s.outcome == Running && recv != [] {
      var n := ChunkLen(s.received, |recv|, expected);
      ChunkIsAligned(s.received, |recv|, expected);
      if n > 0 {
        FeedCalls(s, expected, e, n);
        CallKeeps(s, Feed(s, expected, e.chunk, e.writerOk), expected, recv[..n]);
      } else {
        assert Feed(s, expected, e.chunk, e.writerOk) == s.(recv := recv);
      }
    }
  }

  lemma ChunkIsAligned(received: nat, len: nat, expected: nat)
    requires len > 0 && received < expected
    ensures var n := ChunkLen(received, len, expected);
            (received + n) % WORD < expected ==> n % ALIGNMENT == 0 && len - n < ALIGNMENT
    ensures ChunkLen(received, len, expected) == 0 ==> len < ALIGNMENT
  {
  }

  lemma FeedCalls(s: Session, expected: nat, e: Arrival, n: nat)
    requires expected > 0 && s.outcome == Running && s.recv + e.chunk != []
    requires n == ChunkLen(s.received, |s.recv + e.chunk|, expected) > 0
    ensures var u := Feed(s, expected, e.chunk, e.writerOk);
            && u.writes == s.writes + [Write(s.received, (s.recv + e.chunk)[..n])]
            && u.recv == (s.recv + e.chunk)[n..] && u.received == (s.received + n) % WORD
            && (u.outcome == Running ==> u.received < expected)
  {
  }

  lemma CallKeeps(s: Session, u: Session, expected: nat, data: seq<byte>)
    requires Kept(s, expected) && s.outcome == Running
    requires u.writes == s.writes + [Write(s.received, data)]
    requires u.received == (s.received + |data|) % WORD
    requires u.outcome == Running ==>
               u.received < expected && |data| % ALIGNMENT == 0 && |u.recv| < ALIGNMENT
    ensures Kept(u, expected)
  {
    OffsetsSnoc(s.writes, Write(s.received, data));
    WrittenSnoc(s.writes, Write(s.received, data));
    OffsetWraps(|Written(s.writes)|, |data|);
    assert u.writes[..|u.writes| - 1] == s.writes;
  }

  lemma OffsetsSnoc(ws: seq<Write>, w: Write)
    requires OffsetsAreSums(ws) && w.ofs == |Written(ws)| % WORD
    ensures OffsetsAreSums(ws + [w])
  {
    forall k | 0 <= k < |ws + [w]|
      ensures (ws + [w])[k].ofs == |Written((ws + [w])[..k])| % WORD
    {
      assert (ws + [w])[..k] == ws[..k];
      assert k == |ws| ==> ws[..k] == ws;
    }
  }

  lemma OffsetWraps(total: nat, n: nat)
    ensures (total % WORD + n) % WORD == (total + n) % WORD
  {
  }

  // ------------------------------------------ completion, and fragmentation

  /** The declared length leaves room for a full receive buffer below 2^32. */
  predicate LeavesRoom(expected: nat) {
    0 < expected <= WORD - MAX_RECV
  }

  /** The receive buffer never grows beyond its documented maximum, and the writer succeeds. */
  predicate Smooth(expected: nat, es: seq<Arrival>)
    decreases |es|
  {
    es == [] ||
    (var es0, e := es[..|es| - 1], es[|es| - 1];
     && Smooth(expected, es0) && e.writerOk
     && |Run(expected, es0).recv + e.chunk| <= MAX_RECV)
  }

  /** The upload is over as soon as, and not before, the declared number of bytes has arrived. */
  lemma {:induction false} DoneExactlyWhenArrived(expected: nat, es: seq<Arrival>)
    requires LeavesRoom(expected) && Smooth(expected, es)
    ensures var s := Run(expected, es);
            && s.outcome == (if |Arrived(es)| >= expected then Done else Running)
            && (s.outcome == Running ==> s.received == |Written(s.writes)|)
    decreases |es|
  {
    if es != [] {
      var es0, e := es[..|es| - 1], es[|es| - 1];
      DoneExactlyWhenArrived(expected, es0);
      ArrivedSnoc(es);
      BytesAreConserved(expected, es0);
      var s := Run(expected, es0);
      if s.outcome == Running {
        EveryRunKeeps(expected, es0);
        FeedCompletes(s, expected, e);
      }
    }
  }

  lemma FeedCompletes(s: Session, expected: nat, e: Arrival)
    requires LeavesRoom(expected) && s.outcome == Running && s.received == |Written(s.writes)| < expected
    requires e.writerOk && |s.recv + e.chunk| <= MAX_RECV
    ensures var u := Feed(s, expected, e.chunk, e.writerOk);
            && u.outcome == (if s.received + |s.recv + e.chunk| >= expected then Done else Running)
            && (u.outcome == Running ==> u.received == |Written(u.writes)|)
  {
    var recv := s.recv + e.chunk;
    NoWrap(s.received, expected, |recv|);
    var u := Feed(s, expected, e.chunk, e.writerOk);
    if u.writes != s.writes {
      WrittenSnoc(s.writes, u.writes[|u.writes| - 1]);
    }
  }

  lemma NoWrap(received: nat, expected: nat, len: nat)
    requires LeavesRoom(expected) && received < expected && len <= MAX_RECV
    ensures var n := ChunkLen(received, len, expected);
            && received + n < WORD
            && (received + n < expected <==> received + len < expected)
  {
  }

  /** The state of an unfinished upload depends on the number of bytes that have
      arrived alone. */
  lemma RunningStateIsCanonical(expected: nat, es: seq<Arrival>)
    requires LeavesRoom(expected) && Smooth(expected, es) && |Arrived(es)| < expected
    ensures var s := Run(expected, es); var all := Arrived(es);
            var n := RoundDown(|all|, ALIGNMENT);
            s.outcome == Running && s.received == n
            && Written(s.writes) == all[..n] && s.recv == all[n..]
  {
    DoneExactlyWhenArrived(expected, es);
    BytesAreConserved(expected, es);
    EveryRunKeeps(expected, es);
    var s := Run(expected, es);
    var all := Arrived(es);
    AlignedTotal(s.writes);
    AlignedPrefix(|Written(s.writes)|, |s.recv|);
    assert all[..|Written(s.writes)|] == Written(s.writes);
    assert all[|Written(s.writes)|..] == s.recv;
  }

  lemma AlignedPrefix(w: nat, r: nat)
    requires w % ALIGNMENT == 0 && r < ALIGNMENT
    ensures RoundDown(w + r, ALIGNMENT) == w
  {
  }

  /** A finished upload has written the declared bytes, and nothing else when the
      stream ends there. */
  lemma DoneMeansAllWritten(expected: nat, es: seq<Arrival>)
    requires LeavesRoom(expected) && Smooth(expected, es) && |Arrived(es)| >= expected
    ensures var s := Run(expected, es);
            && s.outcome == Done && |Written(s.writes)| >= expected
            && Written(s.writes)[..expected] == Arrived(es)[..expected]
            && (|Arrived(es)| == expected ==> Written(s.writes) == Arrived(es) && s.recv == [])
  {
    DoneExactlyWhenArrived(expected, es);
    BytesAreConserved(expected, es);
    DoneHasWritten(expected, es);
  }

  lemma {:induction false} DoneHasWritten(expected: nat, es: seq<Arrival>)
    requires expected > 0
    ensures var s := Run(expected, es); s.outcome == Done ==> |Written(s.writes)| >= expected
    decreases |es|
  {
    hide Kept;
    if es != [] {
      var es0 := es[..|es| - 1];
      DoneHasWritten(expected, es0);
      TotalAtMost(expected, es);
      if Run(expected, es0).outcome == Running {
        FeedDone(Run(expected, es0), expected, es[|es| - 1]);
      }
    }
  }

  lemma TotalAtMost(expected: nat, es: seq<Arrival>)
    requires expected > 0
    ensures Run(expected, es).received <= |Written(Run(expected, es).writes)|
  {
    EveryRunKeeps(expected, es);
  }

  lemma FeedDone(s: Session, expected: nat, e: Arrival)
    requires expected > 0 && s.outcome == Running
    ensures var u := Feed(s, expected, e.chunk, e.writerOk); u.outcome == Done ==> u.received >= expected
  {
  }

  /** The result of an upload does not depend on how the network fragments it. */
  lemma FragmentationIsIrrelevant(expected: nat, body: seq<byte>, ds: seq<Arrival>, es: seq<Arrival>)
    requires LeavesRoom(expected) && Smooth(expected, ds) && Smooth(expected, es)
    requires Arrived(ds) == Arrived(es) == body
    ensures Run(expected, ds).outcome == Run(expected, es).outcome
    ensures |body| <= expected ==>
              && Run(expected, ds).recv == Run(expected, es).recv
              && Written(Run(expected, ds).writes) == Written(Run(expected, es).writes)
    ensures |body| >= expected ==>
              && |Written(Run(expected, ds).writes)| >= expected
              && |Written(Run(expected, es).writes)| >= expected
              && Written(Run(expected, ds).writes)[..expected] == body[..expected]
              && Written(Run(expected, es).writes)[..expected] == body[..expected]
  {
    if |body| < expected {
      RunningStateIsCanonical(expected, ds);
      RunningStateIsCanonical(expected, es);
    } else {
      DoneMeansAllWritten(expected, ds);
      DoneMeansAllWritten(expected, es);
    }
  }

  // ------------------------------------------------- when the writer does not succeed

  /** What the writer answered, call by call: the answer of each event that called it. */
  function Calls(expected: nat, es: seq<Arrival>): seq<bool> {
    if es == [] then []
    else
      var es0, e := es[..|es| - 1], es[|es| - 1];
      Calls(expected, es0)
      + if |Run(expected, es).writes| > |Run(expected, es0).writes| then [e.writerOk] else []
  }

  predicate AllOk(calls: seq<bool>) {
    forall k :: 0 <= k < |calls| ==> calls[k]
  }

  lemma FeedAnswers(s: Session, expected: nat, e: Arrival)
    ensures var u := Feed(s, expected, e.chunk, e.writerOk); var called := |u.writes| > |s.writes|;
      && |u.writes| == |s.writes| + (if called then 1 else 0)
      && (s.outcome != Running ==> u.outcome == s.outcome && !called)
      && (s.outcome == Running ==> (u.outcome == Failed <==> called && !e.writerOk))
      && (u.outcome != Failed ==> u == Feed(s, expected, e.chunk, true))
  {
  }

  lemma CallsSnoc(expected: nat, es: seq<Arrival>)
    requires es != []
    ensures var es0, e := es[..|es| - 1], es[|es| - 1];
      && Run(expected, es) == Feed(Run(expected, es0), expected, e.chunk, e.writerOk)
      && Calls(expected, es) == Calls(expected, es0)
           + if |Run(expected, es).writes| > |Run(expected, es0).writes| then [e.writerOk] else []
  {
    hide Feed;
  }

  lemma AllOkSnoc(calls: seq<bool>, ok: bool)
    ensures (calls + [ok])[..|calls + [ok]| - 1] == calls
    ensures AllOk(calls + [ok]) <==> AllOk(calls) && ok
  {
    if AllOk(calls + [ok]) {
      assert forall k :: 0 <= k < |calls| ==> (calls + [ok])[k];
      assert (calls + [ok])[|calls|];
    }
  }

  /** A call that fails is the last one, and fails the upload; nothing else does. */
  lemma {:induction false} FirstFailureIsTheLast(expected: nat, es: seq<Arrival>)
    ensures var s, calls := Run(expected, es), Calls(expected, es);
      && |calls| == |s.writes|
      && (s.outcome == Failed <==> !AllOk(calls))
      && (calls != [] ==> AllOk(calls[..|calls| - 1]))
    decreases |es|
  {
    if es != [] {
      hide Feed, Run, Calls, AllOk;
      var es0, e := es[..|es| - 1], es[|es| - 1];
      FirstFailureIsTheLast(expected, es0);
      CallsSnoc(expected, es);
      FeedAnswers(Run(expected, es0), expected, e);
      AllOkSnoc(Calls(expected, es0), e.writerOk);
      assert Calls(expected, es0) + [] == Calls(expected, es0);
    }
  }

  /** While the upload runs, the receive buffer stays within its documented maximum. */
  predicate Bounded(expected: nat, es: seq<Arrival>)
    decreases |es|
  {
    es == [] ||
    (var es0, e := es[..|es| - 1], es[|es| - 1];
     && Bounded(expected, es0)
     && (Run(expected, es0).outcome == Running ==> |Run(expected, es0).recv + e.chunk| <= MAX_RECV))
  }

  lemma {:induction false} RunningUntilArrived(expected: nat, es: seq<Arrival>)
    requires LeavesRoom(expected) && Bounded(expected, es)
    ensures var s := Run(expected, es);
      && (s.outcome == Running ==> |Arrived(es)| < expected && s.received == |Written(s.writes)|)
      && (s.outcome == Done ==> |Arrived(es)| >= expected)
    decreases |es|
  {
    hide Feed, Written, Arrived;
    if es == [] {
      ArrivedNothing();
    } else {
      var es0, e := es[..|es| - 1], es[|es| - 1];
      var s := Run(expected, es0);
      RunningUntilArrived(expected, es0);
      ArrivedSnoc(es);
      FeedAnswers(s, expected, e);
      if s.outcome == Running {
        BytesAreConserved(expected, es0);
        EveryRunKeeps(expected, es0);
        FeedCompletes(s, expected, e.(writerOk := true));
      }
    }
  }

  lemma ArrivedNothing()
    ensures Arrived([]) == [] && Written([]) == []
  {
  }

  /** The upload succeeds if and only if every call of the writer has, and the declared number of
      bytes has arrived. */
  lemma DoneIff(expected: nat, es: seq<Arrival>)
    requires LeavesRoom(expected) && Bounded(expected, es)
    ensures Run(expected, es).outcome == Done <==> AllOk(Calls(expected, es)) && |Arrived(es)| >= expected
  {
    hide Run, Arrived, Calls;
    FirstFailureIsTheLast(expected, es);
    RunningUntilArrived(expected, es);
  }

  // ----------------------------------------- declared lengths close to 2^32

  /** A packet of `k` blocks. */
  function Packet(k: nat): (e: Arrival)
    ensures |e.chunk| == 512 * k && e.writerOk
  {
    Arrival(Zeros(512 * k), true)
  }

  function Packets(n: nat): seq<Arrival> {
    if n == 0 then [] else Packets(n - 1) + [Packet(1)]
  }

  /** `total` bytes have arrived in whole blocks, all written, and the upload goes on. */
  predicate InBlocks(expected: nat, es: seq<Arrival>, total: nat) {
    && Smooth(expected, es) && |Arrived(es)| == total
    && Run(expected, es).outcome == Running && Run(expected, es).recv == []
    && Run(expected, es).received == total % WORD
  }

  /** A buffer of whole blocks that leaves the wrapped sum short is written out entirely. */
  lemma WholeBlocks(received: nat, expected: nat, k: nat)
    requires received < WORD && (received + 512 * k) % WORD < expected
    ensures var t := ReadStep(received, expected, Packet(k).chunk, true);
            t.outcome == Running && t.received == (received + 512 * k) % WORD && t.recv == []
  {
    hide ChunkLen;
    ChunkOfBlocks(received, expected, k);
  }

  lemma ChunkOfBlocks(received: nat, expected: nat, k: nat)
    ensures ChunkLen(received, 512 * k, expected) == 512 * k
  {
  }

  lemma OneMorePacket(expected: nat, es: seq<Arrival>, total: nat, k: nat)
    requires InBlocks(expected, es, total) && 512 * k <= MAX_RECV
    requires (total + 512 * k) % WORD < expected
    ensures InBlocks(expected, es + [Packet(k)], total + 512 * k)
  {
    var s, e := Run(expected, es), Packet(k);
    var es' := es + [e];
    assert es'[..|es'| - 1] == es && es'[|es'| - 1] == e;
    assert s.recv + e.chunk == e.chunk;
    OffsetWraps(total, 512 * k);
    WholeBlocks(s.received, expected, k);
    ArrivedSnoc(es');
  }

  lemma NoPacket(expected: nat)
    ensures InBlocks(expected, [], 0)
  {
  }

  lemma BelowWord(x: nat)
    requires x < WORD
    ensures x % WORD == x
  {
  }

  lemma {:induction false} PacketsRun(expected: nat, n: nat)
    requires 512 * n < expected < WORD
    ensures InBlocks(expected, Packets(n), 512 * n)
  {
    hide InBlocks;
    if n == 0 {
      NoPacket(expected);
    } else {
      PacketsRun(expected, n - 1);
      var total := 512 * (n - 1);
      assert total + 512 * 1 == 512 * n;
      BelowWord(total + 512 * 1);
      OneMorePacket(expected, Packets(n - 1), total, 1);
    }
  }

  /** The bound of `LeavesRoom` is exact: for every larger declared length a full
      receive buffer can wrap the sum, and the upload goes on although all the
      declared bytes have arrived. */
  lemma WithoutRoomTheSumWraps(expected: nat)
    returns (es: seq<Arrival>)
    requires WORD - MAX_RECV < expected < WORD
    ensures Smooth(expected, es)
    ensures |Arrived(es)| >= expected && Run(expected, es).outcome == Running
  {
    var n := 8382464;
    assert 512 * n == WORD - MAX_RECV && 512 * 6144 == MAX_RECV;
    PacketsRun(expected, n);
    OneMorePacket(expected, Packets(n), 512 * n, 6144);
    es := Packets(n) + [Packet(6144)];
  }

  /** An empty declared length is never completed: nothing is written at all. */
  lemma {:induction false} EmptyUploadNeverEnds(es: seq<Arrival>)
    ensures Run(0, es) == Session(Running, 0, Arrived(es), [])
    decreases |es|
  {
    if es != [] {
      EmptyUploadNeverEnds(es[..|es| - 1]);
      ArrivedSnoc(es);
    }
  }
}
