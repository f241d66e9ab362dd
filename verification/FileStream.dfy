/**
 Streaming a file over a connection whose handler has been replaced by
 `file_ev_handler`: the file is read in small pieces whenever the send buffer is low.
 */
module FileStream {
  import opened Common

  /** `MG_IO_SIZE`, below which more is read, and the size of one read. */
  const LOW_WATER := 256
  const PIECE := 512

  const REPLY := "HTTP/1.1 200 OK\r\n\r\n"

  /** `path` is the duplicated file name; `freed` counts how often a name was freed,
      `wire` is what the network has taken. */
  datatype Stream = Stream(path: Option<string>, ofs: nat, end: nat, send: seq<byte>, wire: seq<byte>,
                           draining: bool, freed: nat)

  /** `Ready` is a POLL or WRITE event on which the reader returns at most `take` bytes,
      but none only at the end of the file; `Network` takes bytes from the send buffer. */
  datatype Event = Ready(take: nat) | Network(taken: nat) | Close | Unrelated

  /** A reader that may read short. */
  function Read(file: seq<byte>, ofs: nat, size: nat, take: nat): (r: seq<byte>)
    requires size > 0
    ensures |r| <= size && (r == [] <==> ofs >= |file|)
    ensures ofs + |r| <= Max(ofs, |file|)
  {
    if ofs >= |file| then [] else file[ofs..ofs + Min(Max(take, 1), Min(size, |file| - ofs))]
  }

  /** The reader may return any number of the bytes asked for, but none only at the end. */
  lemma AnyReadIsPossible(file: seq<byte>, ofs: nat, size: nat, n: nat)
    requires ofs < |file| && 1 <= n <= Min(size, |file| - ofs)
    ensures Read(file, ofs, size, n) == file[ofs..ofs + n]
  {
  }

  /** The bytes that a request for `ofs` to `end` asks for. */
  function Requested(file: seq<byte>, ofs: nat, end: nat): seq<byte> {
    if ofs < Min(end, |file|) then file[ofs..Min(end, |file|)] else []
  }

  function Bytes(s: string): seq<byte> {
    seq(|s|, k requires 0 <= k < |s| => s[k] as int % 256)
  }

  /** `handle_file`: an empty name is not duplicated, `mg_strdup` gives NULL for it. */
  function Started(name: string, ofs: nat, end: nat, send: seq<byte>): Stream {
    Stream(if name == "" then None else Some(name), ofs, end, send + Bytes(REPLY), [], false, 0)
  }

  function Freed(s: Stream): Stream {
    s.(path := None, ofs := 0, end := 0, freed := if s.path.Some? then s.freed + 1 else s.freed)
  }

  function OnReady(s: Stream, file: seq<byte>, take: nat): Stream {
    if |s.send| >= LOW_WATER || s.path.None? then s
    else
      var r := if s.ofs < s.end then Read(file, s.ofs, Min(s.end - s.ofs, PIECE), take) else [];
      if r == [] then Freed(s).(draining := true)
      else s.(ofs := s.ofs + |r|, send := s.send + r)
  }

  function Step(s: Stream, file: seq<byte>, e: Event): Stream {
    match e
    case Ready(take) => OnReady(s, file, take)
    case Network(taken) => var n := Min(taken, |s.send|); s.(send := s.send[n..], wire := s.wire + s.send[..n])
    case Close => Freed(s)
    case Unrelated => s
  }

  function Run(s: Stream, file: seq<byte>, evs: seq<Event>): Stream {
    if evs == [] then s else Step(Run(s, file, evs[..|evs| - 1]), file, evs[|evs| - 1])
  }

  /** The connection as the handler updates it. */
  class FileConnection {
    var path: Option<string>
    var ofs: nat
    var end: nat
    var send: seq<byte>
    var wire: seq<byte>
    var draining: bool
    var freed: nat

    ghost function State(): Stream
      reads this
    {
      Stream(path, ofs, end, send, wire, draining, freed)
    }

    constructor (name: string, ofs: nat, end: nat, send: seq<byte>)
      ensures State() == Started(name, ofs, end, send)
    {
      this.ofs, this.end := ofs, end;
      this.path := if |name| == 0 then None else Some(name);
      this.send, this.wire := send + Bytes(REPLY), [];
      this.draining, this.freed := false, 0;
    }

    method FreeName()
      modifies this
      ensures State() == Freed(old(State()))
    {
      if path.Some? {
        freed := freed + 1;
      }
      path, ofs, end := None, 0, 0;
    }

    method Handle(file: seq<byte>, e: Event)
      modifies this
      ensures State() == Step(old(State()), file, e)
    {
      if |send| < LOW_WATER && path.Some? && e.Ready? {
        var buf: seq<byte> := [];
        if ofs < end {
          var size := end - ofs;
          if size > PIECE {
            size := PIECE;
          }
          buf := Read(file, ofs, size, e.take);
        }
        if |buf| == 0 {
          FreeName();
          draining := true;
        } else {
          ofs := ofs + |buf|;
          send := send + buf;
        }
      } else if e.Close? {
        FreeName();
      } else if e.Network? {
        var n := Min(e.taken, |send|);
        wire, send := wire + send[..n], send[n..];
      }
    }
  }

  // ------------------------------------------------------------------- whole runs

  predicate NoClose(evs: seq<Event>) {
    forall k :: 0 <= k < |evs| ==> !evs[k].Close?
  }

  /** What the connection carries in all: on the wire and still to send. */
  function Carried(s: Stream): seq<byte> {
    s.wire + s.send
  }

  /** How the state relates to what has been read so far. */
  predicate Reading(s: Stream, s0: Stream, file: seq<byte>) {
    && (s.path.Some? ==>
          && s.path == s0.path && s.end == s0.end && !s.draining && s.freed == s0.freed
          && s0.ofs <= s.ofs <= Max(s0.ofs, Min(s0.end, |file|))
          && Carried(s) == Carried(s0) + Requested(file, s0.ofs, s.ofs))
    && (s.path.None? ==>
          s.freed == s0.freed + 1 && (s.draining ==> Carried(s) == Carried(s0) + Requested(file, s0.ofs, s0.end)))
  }

  lemma ReadingStep(s: Stream, s0: Stream, file: seq<byte>, e: Event)
    requires s0.path.Some? && Reading(s, s0, file)
    ensures Reading(Step(s, file, e), s0, file)
  {
    match e {
      case Ready(take) =>
        ReadingReady(s, s0, file, take);
      case Network(taken) =>
        NetworkConserves(s, file, taken);
        hide Carried, Requested;
      case Close =>
      case Unrelated =>
    }
  }

  lemma NetworkConserves(s: Stream, file: seq<byte>, taken: nat)
    ensures Carried(Step(s, file, Network(taken))) == Carried(s)
  {
  }

  lemma ReadingReady(s: Stream, s0: Stream, file: seq<byte>, take: nat)
    requires s0.path.Some? && Reading(s, s0, file)
    ensures Reading(OnReady(s, file, take), s0, file)
  {
    hide Read, Requested, Reading, Carried;
    if |s.send| < LOW_WATER && s.path.Some? {
      var r := if s.ofs < s.end then Read(file, s.ofs, Min(s.end - s.ofs, PIECE), take) else [];
      if r == [] {
        ReadingEnds(s, s0, file);
      } else {
        ReadIsASlice(file, s.ofs, Min(s.end - s.ofs, PIECE), take);
        ReadingGoesOn(s, s0, file, r);
      }
    }
  }

  lemma ReadIsASlice(file: seq<byte>, ofs: nat, size: nat, take: nat)
    requires size > 0
    ensures var r := Read(file, ofs, size, take);
            |r| <= size && (r != [] ==> ofs + |r| <= |file| && r == file[ofs..ofs + |r|])
  {
  }

  lemma ReadingGoesOn(s: Stream, s0: Stream, file: seq<byte>, r: seq<byte>)
    requires s0.path.Some? && Reading(s, s0, file) && s.path.Some?
    requires r != [] && s.ofs + |r| <= Min(s.end, |file|) && r == file[s.ofs..s.ofs + |r|]
    ensures Reading(s.(ofs := s.ofs + |r|, send := s.send + r), s0, file)
  {
    hide Requested;
    Extends(file, s0.ofs, s.ofs, r);
    assert s.wire + (s.send + r) == Carried(s) + r;
  }

  lemma ReadingEnds(s: Stream, s0: Stream, file: seq<byte>)
    requires s0.path.Some? && Reading(s, s0, file) && s.path.Some?
    requires s.ofs >= s.end || s.ofs >= |file|
    ensures Reading(Freed(s).(draining := true), s0, file)
  {
  }

  lemma Extends(file: seq<byte>, from: nat, ofs: nat, r: seq<byte>)
    requires from <= ofs && r != [] && ofs + |r| <= |file| && r == file[ofs..ofs + |r|]
    ensures Requested(file, from, ofs + |r|) == Requested(file, from, ofs) + r
  {
  }

  lemma {:induction false} EveryRunReads(s0: Stream, file: seq<byte>, evs: seq<Event>)
    requires s0.path.Some? && !s0.draining
    ensures Reading(Run(s0, file, evs), s0, file)
    decreases |evs|
  {
    if evs == [] {
      assert Carried(s0) == Carried(s0) + [];
    } else {
      EveryRunReads(s0, file, evs[..|evs| - 1]);
      ReadingStep(Run(s0, file, evs[..|evs| - 1]), s0, file, evs[|evs| - 1]);
    }
  }

  /** A stream as `handle_file` starts it. */
  predicate Fresh(s: Stream) {
    s.path.Some? && !s.draining && s.freed == 0 && s.wire == []
  }

  /** For every pattern of short reads and of network progress: what the connection carries
      is always its first reply followed by the start of the requested bytes, and once it
      drains, by all of them; and the file name is freed exactly once. */
  lemma ExactlyTheRequestedBytes(s0: Stream, file: seq<byte>, evs: seq<Event>)
    requires Fresh(s0)
    ensures var s := Run(s0, file, evs);
      && (s.path.Some? ==> Carried(s) == s0.send + Requested(file, s0.ofs, s.ofs) && s.freed == 0)
      && (s.draining ==> Carried(s) == s0.send + Requested(file, s0.ofs, s0.end))
      && (s.path.None? <==> s.freed == 1) && s.freed <= 1
      && (evs != [] && evs[|evs| - 1].Close? ==> s.freed == 1)
      && (s.draining && s.send == [] ==> s.wire == s0.send + Requested(file, s0.ofs, s0.end))
  {
    EveryRunReads(s0, file, evs);
    hide Requested;
    assert Carried(s0) == s0.send;
    var s := Run(s0, file, evs);
    assert s.send == [] ==> Carried(s) == s.wire;
  }

  /** For the request itself: whatever the schedule, a stream of `name` from `ofs` to `end` that
      has drained and been sent carried the reply and then that part of the file. */
  lemma RequestIsServed(name: string, ofs: nat, end: nat, send: seq<byte>, file: seq<byte>, evs: seq<Event>)
    requires name != ""
    ensures var s := Run(Started(name, ofs, end, send), file, evs);
            s.draining && s.send == [] ==>
              s.wire == send + Bytes(REPLY)
                        + if ofs < end && ofs < |file| then file[ofs..if end < |file| then end else |file|] else []
  {
    ExactlyTheRequestedBytes(Started(name, ofs, end, send), file, evs);
    hide Run, Bytes;
  }

  /** The send buffer never holds more than one piece above the low-water mark, or what
      was in it at the start. */
  lemma {:induction false} SendBufferIsBounded(s0: Stream, file: seq<byte>, evs: seq<Event>)
    ensures |Run(s0, file, evs).send| <= Max(|s0.send|, LOW_WATER - 1 + PIECE)
    decreases |evs|
  {
    if evs != [] {
      SendBufferIsBounded(s0, file, evs[..|evs| - 1]);
      BoundedStep(Run(s0, file, evs[..|evs| - 1]), file, evs[|evs| - 1]);
    }
  }

  lemma BoundedStep(s: Stream, file: seq<byte>, e: Event)
    ensures |Step(s, file, e).send| <= Max(|s.send|, LOW_WATER - 1 + PIECE)
  {
  }

  /** The ready events that find the send buffer low while the stream is running. */
  function Effective(s0: Stream, file: seq<byte>, evs: seq<Event>): nat {
    if evs == [] then 0
    else
      var s := Run(s0, file, evs[..|evs| - 1]);
      Effective(s0, file, evs[..|evs| - 1])
      + if evs[|evs| - 1].Ready? && s.path.Some? && |s.send| < LOW_WATER then 1 else 0
  }

  /** Every effective event but the last carries at least one byte, so the stream ends on
      the first effective event after the requested bytes, at the latest. */
  lemma {:induction false} EveryReadMakesProgress(s0: Stream, file: seq<byte>, evs: seq<Event>)
    requires Fresh(s0) && NoClose(evs)
    ensures var s := Run(s0, file, evs); var n := Effective(s0, file, evs);
      && (s.path.Some? ==> s0.ofs + n <= s.ofs)
      && (s.path.None? ==> s.draining)
      && n <= |Requested(file, s0.ofs, s0.end)| + 1
      && (n == |Requested(file, s0.ofs, s0.end)| + 1 ==> s.draining)
    decreases |evs|
  {
    if evs != [] {
      var e, rest := evs[|evs| - 1], evs[..|evs| - 1];
      EveryReadMakesProgress(s0, file, rest);
      EveryRunReads(s0, file, rest);
      EveryRunReads(s0, file, evs);
      ProgressStep(Run(s0, file, rest), file, e);
      RequestedLength(file, s0.ofs, s0.end);
      hide Step, Requested, Carried;
    }
  }

  lemma RequestedLength(file: seq<byte>, ofs: nat, end: nat)
    ensures |Requested(file, ofs, end)| == Max(ofs, Min(end, |file|)) - ofs
  {
  }

  lemma ProgressStep(s: Stream, file: seq<byte>, e: Event)
    requires !e.Close?
    ensures var s' := Step(s, file, e);
      && (s'.path.Some? ==> s.path.Some? && s'.ofs >= s.ofs + if e.Ready? && |s.send| < LOW_WATER then 1 else 0)
      && (s'.path.None? ==> s'.draining == (s.draining || s.path.Some?))
  {
  }

  /** A request for the empty name never ends: there is no name to read from, so nothing
      is sent after the reply and the connection does not drain. */
  lemma {:induction false} EmptyNameStreamsNothing(ofs: nat, end: nat, send: seq<byte>, file: seq<byte>, evs: seq<Event>)
    ensures var s := Run(Started("", ofs, end, send), file, evs);
            !s.draining && s.path.None? && s.freed == 0 && Carried(s) == send + Bytes(REPLY)
    decreases |evs|
  {
    var s0 := Started("", ofs, end, send);
    if evs == [] {
      assert Carried(s0) == s0.send;
    } else {
      EmptyNameStreamsNothing(ofs, end, send, file, evs[..|evs| - 1]);
      var s := Run(s0, file, evs[..|evs| - 1]);
      if evs[|evs| - 1].Network? {
        NetworkConserves(s, file, evs[|evs| - 1].taken);
      }
      hide Started, Bytes;
    }
  }

  /** `n` times the network takes what there is to send, and the reader gets its turn. */
  function Turns(n: nat, room: nat): (evs: seq<Event>)
    ensures NoClose(evs)
  {
    if n == 0 then [] else Turns(n - 1, room) + [Network(room), Ready(1)]
  }

  /** Each turn is effective until the stream drains. */
  lemma {:induction false} TurnsAreEffective(s0: Stream, file: seq<byte>, n: nat)
    requires Fresh(s0)
    ensures var evs := Turns(n, Max(|s0.send|, LOW_WATER + PIECE));
            Run(s0, file, evs).draining || Effective(s0, file, evs) == n
    decreases n
  {
    if n > 0 {
      var room := Max(|s0.send|, LOW_WATER + PIECE);
      var before := Turns(n - 1, room);
      TurnsAreEffective(s0, file, n - 1);
      EveryReadMakesProgress(s0, file, before);
      SendBufferIsBounded(s0, file, before);
      OneTurn(s0, file, before, room);
    }
  }

  lemma OneTurn(s0: Stream, file: seq<byte>, before: seq<Event>, room: nat)
    requires |Run(s0, file, before).send| <= room
    ensures var s, evs := Run(s0, file, before), before + [Network(room), Ready(1)];
      && (s.draining ==> Run(s0, file, evs).draining)
      && (s.path.Some? ==> Effective(s0, file, evs) == Effective(s0, file, before) + 1)
  {
    var mid, evs := before + [Network(room)], before + [Network(room), Ready(1)];
    assert mid[..|mid| - 1] == before && evs[..|evs| - 1] == mid;
    hide Read, Freed;
  }

  /** A request for a file that nobody closes can drain if and only if it names the file. */
  lemma DrainsIffNamed(name: string, ofs: nat, end: nat, send: seq<byte>, file: seq<byte>)
    ensures (exists evs | NoClose(evs) :: Run(Started(name, ofs, end, send), file, evs).draining) <==> name != ""
  {
    hide Run, Effective;
    var s0 := Started(name, ofs, end, send);
    if name == "" {
      forall evs | NoClose(evs)
        ensures !Run(s0, file, evs).draining
      {
        EmptyNameStreamsNothing(ofs, end, send, file, evs);
      }
    } else {
      var n := |Requested(file, ofs, end)| + 1;
      var evs := Turns(n, Max(|s0.send|, LOW_WATER + PIECE));
      TurnsAreEffective(s0, file, n);
      EveryReadMakesProgress(s0, file, evs);
      assert NoClose(evs) && Run(s0, file, evs).draining;
    }
  }
}
