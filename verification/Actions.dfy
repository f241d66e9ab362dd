/**
 An action that takes a second, such as a reboot: one deadline shared by all connections,
 and connections that wait for the action's end in their own scratch area.
 */
module Actions {
  import opened Common

  /** How long the default action lasts, in milliseconds. */
  const DURATION := 1000

  datatype Reply = Completed(conn: nat, at: nat) | Answer(conn: nat, busy: bool, at: nat)

  /** `waiting` maps each connection whose marker says "action pending" to the time its
      action was started. */
  datatype Shared = Shared(deadline: nat, waiting: map<nat, nat>, replies: seq<Reply>)

  /** The clock is read when the action is started and again when it is checked. */
  datatype Event =
    | Start(conn: nat, t: nat, checked: nat)
    | Query(conn: nat, t: nat)
    | Poll(conn: nat, t: nat)
    | Close(conn: nat, t: nat)

  function Time(e: Event): nat {
    if e.Start? then e.checked else e.t
  }

  function Step(s: Shared, e: Event): Shared {
    match e
    case Start(c, t, checked) =>
      var deadline := t + DURATION;
      if c in s.waiting then s
      else if deadline > checked then s.(deadline := deadline, waiting := s.waiting[c := t])
      else s.(deadline := deadline, replies := s.replies + [Answer(c, false, checked)])
    case Query(c, t) =>
      if c in s.waiting then s else s.(replies := s.replies + [Answer(c, s.deadline > t, t)])
    case Poll(c, t) =>
      if c in s.waiting && s.deadline <= t
      then s.(waiting := s.waiting - {c}, replies := s.replies + [Completed(c, t)])
      else s
    case Close(c, t) => s.(waiting := s.waiting - {c})
  }

  function Run(s: Shared, evs: seq<Event>): Shared {
    if evs == [] then s else Step(Run(s, evs[..|evs| - 1]), evs[|evs| - 1])
  }

  /** The static deadline and the connections' scratch areas as the handlers update them. */
  class Action {
    var deadline: nat
    var waiting: map<nat, nat>
    var replies: seq<Reply>

    ghost function State(): Shared
      reads this
    {
      Shared(deadline, waiting, replies)
    }

    method StartAction(now: nat)
      modifies this`deadline
      ensures deadline == now + DURATION
    {
      deadline := now + DURATION;
    }

    method Check(now: nat) returns (busy: bool)
      ensures busy == (deadline > now)
    {
      busy := deadline > now;
    }

    method HandleAction(conn: nat, params: bool, t: nat, checked: nat)
      modifies this
      ensures State() == Step(old(State()), if params then Start(conn, t, checked) else Query(conn, t))
    {
      if conn in waiting {
        return;
      }
      if params {
        StartAction(t);
        var busy := Check(checked);
        if busy {
          waiting := waiting[conn := t];
        } else {
          replies := replies + [Answer(conn, false, checked)];
        }
      } else {
        var busy := Check(t);
        replies := replies + [Answer(conn, busy, t)];
      }
    }

    method OnPoll(conn: nat, t: nat)
      modifies this
      ensures State() == Step(old(State()), Poll(conn, t))
    {
      if conn in waiting {
        var busy := Check(t);
        if !busy {
          replies := replies + [Completed(conn, t)];
          waiting := waiting - {conn};
        }
      }
    }
  }

  // ------------------------------------------------------------------- whole runs

  /** The clock does not run backwards, and a connection that waits gets no new request. */
  predicate Legal(s: Shared, since: nat, evs: seq<Event>) {
    if evs == [] then true
    else
      var e, rest := evs[|evs| - 1], evs[..|evs| - 1];
      && Legal(s, since, rest) && Last(since, rest) <= e.t <= Time(e)
      && (e.Start? ==> e.conn !in Run(s, rest).waiting)
  }

  function Last(since: nat, evs: seq<Event>): nat {
    if evs == [] then since else Time(evs[|evs| - 1])
  }

  /** A second after the last start, told from the events alone. */
  function DeadlineAfter(d: nat, evs: seq<Event>): nat {
    if evs == [] then d
    else if evs[|evs| - 1].Start? then evs[|evs| - 1].t + DURATION
    else DeadlineAfter(d, evs[..|evs| - 1])
  }

  /** The first poll of a connection that comes when the latest start is over. */
  function FirstDue(d: nat, evs: seq<Event>, c: nat): (r: Option<nat>)
    ensures r.Some? ==> r.value < |evs| && evs[r.value].Poll?
  {
    if evs == [] then None
    else
      var e, rest := evs[|evs| - 1], evs[..|evs| - 1];
      var r := FirstDue(d, rest, c);
      if r.Some? then r
      else if e.Poll? && e.conn == c && DeadlineAfter(d, rest) <= e.t then Some(|rest|)
      else None
  }

  /** The times of a connection's completion replies. */
  function Completions(rs: seq<Reply>, c: nat): seq<nat> {
    if rs == [] then []
    else
      var r := rs[|rs| - 1];
      Completions(rs[..|rs| - 1], c) + if r.Completed? && r.conn == c then [r.at] else []
  }

  lemma CompletionsSnoc(rs: seq<Reply>, r: Reply, c: nat)
    ensures Completions(rs + [r], c) == Completions(rs, c) + if r.Completed? && r.conn == c then [r.at] else []
  {
  }

  /** The deadline is past the start of every connection that waits by a full second. */
  predicate Sound(s: Shared, since: nat) {
    && s.deadline <= since + DURATION
    && forall c :: c in s.waiting ==> s.waiting[c] + DURATION <= s.deadline
  }

  lemma {:induction false} SoundRun(s: Shared, since: nat, evs: seq<Event>)
    requires Sound(s, since) && Legal(s, since, evs)
    ensures Sound(Run(s, evs), Last(since, evs))
    ensures Run(s, evs).deadline == DeadlineAfter(s.deadline, evs)
    decreases |evs|
  {
    if evs != [] {
      SoundRun(s, since, evs[..|evs| - 1]);
    }
  }

  /** A query is answered truly: busy while less than a second has passed since the latest start
      on any connection, told from the events alone. */
  lemma QueriesTellTheTruth(s: Shared, since: nat, evs: seq<Event>, c: nat, t: nat)
    requires Sound(s, since) && Legal(s, since, evs) && c !in Run(s, evs).waiting
    ensures var r := Run(s, evs + [Query(c, t)]);
            r.replies == Run(s, evs).replies + [Answer(c, DeadlineAfter(s.deadline, evs) > t, t)]
            && r.waiting == Run(s, evs).waiting
  {
    SoundRun(s, since, evs);
    assert (evs + [Query(c, t)])[..|evs|] == evs;
  }

  /** A start that is over by the time of its check is answered at once, as not busy. */
  lemma LateStartIsAnswered(s: Shared, evs: seq<Event>, c: nat, t: nat, checked: nat)
    requires c !in Run(s, evs).waiting
    ensures var r := Run(s, evs + [Start(c, t, checked)]);
            if checked < t + DURATION then c in r.waiting && r.waiting[c] == t && r.replies == Run(s, evs).replies
            else c !in r.waiting && r.replies == Run(s, evs).replies + [Answer(c, false, checked)]
  {
    assert (evs + [Start(c, t, checked)])[..|evs|] == evs;
  }

  predicate LeavesAlone(evs: seq<Event>, c: nat) {
    forall k :: 0 <= k < |evs| ==> evs[k].conn == c ==> evs[k].Poll? || evs[k].Query?
  }

  /** A connection that waits and stays open, whatever the other connections start
      meanwhile: it gets exactly one completion reply, at its first poll after the shared
      deadline and no earlier than a second after its own start; until then it gets none. */
  lemma {:induction false} ExactlyOneCompletion(s: Shared, since: nat, evs: seq<Event>, c: nat)
    requires Sound(s, since) && Legal(s, since, evs)
    requires c in s.waiting && LeavesAlone(evs, c)
    ensures var r, due := Run(s, evs), FirstDue(s.deadline, evs, c);
      match due
      case None => c in r.waiting && r.waiting[c] == s.waiting[c] && Completions(r.replies, c) == Completions(s.replies, c)
      case Some(k) =>
        && c !in r.waiting
        && Completions(r.replies, c) == Completions(s.replies, c) + [evs[k].t]
        && s.waiting[c] + DURATION <= evs[k].t
    decreases |evs|
  {
    if evs != [] {
      var e, rest := evs[|evs| - 1], evs[..|evs| - 1];
      assert e.conn == c ==> e.Poll? || e.Query?;
      ExactlyOneCompletion(s, since, rest, c);
      SoundRun(s, since, rest);
      OneStep(Run(s, rest), e, c);
      hide Step, Completions;
    }
  }

  lemma OneStep(s: Shared, e: Event, c: nat)
    requires e.conn == c ==> e.Poll? || e.Query?
    ensures var r := Step(s, e); var done := e.Poll? && e.conn == c && c in s.waiting && s.deadline <= e.t;
      && (c in r.waiting <==> c in s.waiting && !done)
      && (c in r.waiting ==> r.waiting[c] == s.waiting[c])
      && Completions(r.replies, c) == Completions(s.replies, c) + if done then [e.t] else []
  {
    var r := Step(s, e);
    if |r.replies| > |s.replies| {
      CompletionsSnoc(s.replies, r.replies[|s.replies|], c);
    }
  }

  // -------------------------------------------------------------- counting replies

  /** Starts of a connection that made it wait, and waits that a close cut short. */
  function Accepted(s: Shared, evs: seq<Event>, c: nat): nat {
    if evs == [] then 0
    else
      var e, rest := evs[|evs| - 1], evs[..|evs| - 1];
      Accepted(s, rest, c)
      + if e.Start? && e.conn == c && c !in Run(s, rest).waiting && e.t + DURATION > e.checked then 1 else 0
  }

  function CutShort(s: Shared, evs: seq<Event>, c: nat): nat {
    if evs == [] then 0
    else
      var e, rest := evs[|evs| - 1], evs[..|evs| - 1];
      CutShort(s, rest, c) + if e.Close? && e.conn == c && c in Run(s, rest).waiting then 1 else 0
  }

  /** Over any run, in whatever order the clock reads come: every start that was accepted
      is completed once, cut short by a close, or still waiting. */
  lemma {:induction false} CompletionsMatchStarts(s: Shared, evs: seq<Event>, c: nat)
    requires c !in s.waiting
    ensures var r := Run(s, evs);
            Accepted(s, evs, c) + |Completions(s.replies, c)|
            == |Completions(r.replies, c)| + CutShort(s, evs, c) + if c in r.waiting then 1 else 0
    decreases |evs|
  {
    if evs != [] {
      CompletionsMatchStarts(s, evs[..|evs| - 1], c);
      BalanceStep(Run(s, evs[..|evs| - 1]), evs[|evs| - 1], c);
      hide Step, Completions;
    }
  }

  lemma BalanceStep(s: Shared, e: Event, c: nat)
    ensures var r := Step(s, e);
      var accepted := if e.Start? && e.conn == c && c !in s.waiting && e.t + DURATION > e.checked then 1 else 0;
      var cut := if e.Close? && e.conn == c && c in s.waiting then 1 else 0;
      accepted + |Completions(s.replies, c)| + (if c in s.waiting then 1 else 0)
      == |Completions(r.replies, c)| + cut + if c in r.waiting then 1 else 0
  {
    var r := Step(s, e);
    if |r.replies| > |s.replies| {
      CompletionsSnoc(s.replies, r.replies[|s.replies|], c);
    }
  }
}
