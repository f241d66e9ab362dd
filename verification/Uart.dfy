/**
 UART reception: an interrupt handler that puts bytes into a queue of 256, and a task that
 receives from it against a wrapping tick counter, or flushes it. The handler puts each byte
 at the FRONT of the queue.
 */
module Uart {
  import opened Common

  const CAPACITY := 256

  /** A delivered byte, told apart from equal ones by the order of its delivery. */
  datatype Item = Item(id: nat, value: byte)

  /** The queue, front first, and the history of every byte that was ever delivered. */
  datatype Port = Port(queue: seq<Item>, delivered: seq<Item>, returned: seq<Item>, flushed: seq<Item>, dropped: seq<Item>)

  /** What happens around one turn of the receive loop: the bytes that arrive before the
      queue is asked, and the ticks that pass, besides the one a vain wait takes. */
  datatype Turn = Turn(arrivals: seq<byte>, ticks: nat)

  datatype Event = Interrupt(bytes: seq<byte>) | Receive(len: nat, timeout: nat, turns: nat -> Turn) | Flush

  function DeliverOne(p: Port, b: byte): Port {
    var x := Item(|p.delivered|, b);
    if |p.queue| < CAPACITY then p.(queue := [x] + p.queue, delivered := p.delivered + [x])
    else p.(dropped := p.dropped + [x], delivered := p.delivered + [x])
  }

  function Deliver(p: Port, bs: seq<byte>): Port {
    if bs == [] then p else DeliverOne(Deliver(p, bs[..|bs| - 1]), bs[|bs| - 1])
  }

  function Popped(p: Port): Port {
    if p.queue == [] then p else p.(queue := p.queue[1..], returned := p.returned + [p.queue[0]])
  }

  function Flushed(p: Port): Port {
    p.(queue := [], flushed := p.flushed + p.queue)
  }

  /** Fewer ticks pass between two looks at the clock than it takes to wrap past the timeout. */
  ghost predicate Prompt(turns: nat -> Turn, timeout: nat) {
    timeout < WORD && forall k :: turns(k).ticks + 1 <= WORD - timeout
  }

  /** The receive loop from turn `k` on, with `i` bytes received and `e` ticks gone. */
  function Receiving(p: Port, len: nat, timeout: nat, turns: nat -> Turn, k: nat, i: nat, e: nat): (Port, nat)
    requires i == 0 || i < len
    decreases Max(len, 1) - i + if e < timeout then timeout - e else 0
  {
    if e >= timeout then (p, i)
    else
      var q := Deliver(p, turns(k).arrivals);
      if q.queue == [] then Receiving(q, len, timeout, turns, k + 1, i, e + turns(k).ticks + 1)
      else if i + 1 >= len then (Popped(q), i + 1)
      else Receiving(Popped(q), len, timeout, turns, k + 1, i + 1, e + turns(k).ticks)
  }

  function Step(p: Port, e: Event): Port {
    match e
    case Interrupt(bs) => Deliver(p, bs)
    case Receive(len, timeout, turns) => Receiving(p, len, timeout, turns, 0, 0, 0).0
    case Flush => Flushed(p)
  }

  function Run(p: Port, evs: seq<Event>): Port {
    if evs == [] then p else Step(Run(p, evs[..|evs| - 1]), evs[|evs| - 1])
  }

  function Idle(): Port {
    Port([], [], [], [], [])
  }

  function Values(xs: seq<Item>): (r: seq<byte>)
    ensures |r| == |xs|
  {
    seq(|xs|, k requires 0 <= k < |xs| => xs[k].value)
  }

  // ---------------------------------------------------------------- the driver

  class Driver {
    var queue: seq<Item>
    ghost var delivered: seq<Item>
    ghost var returned: seq<Item>
    ghost var flushed: seq<Item>
    ghost var dropped: seq<Item>
    var serial: nat

    ghost predicate Valid()
      reads this
    {
      serial == |delivered|
    }

    ghost function State(): Port
      reads this
    {
      Port(queue, delivered, returned, flushed, dropped)
    }

    constructor ()
      ensures Valid() && State() == Idle()
    {
      queue, serial := [], 0;
      delivered, returned, flushed, dropped := [], [], [], [];
    }

    /** `bsp_uart_rx_cb` */
    method RxCallback(buf: seq<byte>)
      requires Valid()
      modifies this
      ensures Valid() && State() == Deliver(old(State()), buf)
    {
      var i := 0;
      while i < |buf|
        invariant 0 <= i <= |buf| && Valid()
        invariant State() == Deliver(old(State()), buf[..i])
      {
        var x := Item(serial, buf[i]);
        assert buf[..i + 1][..i] == buf[..i];
        if |queue| < CAPACITY {
          queue := [x] + queue;
        } else {
          dropped := dropped + [x];
        }
        delivered := delivered + [x];
        serial := serial + 1;
        i := i + 1;
      }
      assert buf[..i] == buf;
    }

    /** `xQueueReceive`, when nothing arrives while it waits. */
    method TakeFront() returns (x: Option<Item>)
      requires Valid()
      modifies this
      ensures Valid() && State() == Popped(old(State()))
      ensures if old(queue) == [] then x == None && State() == old(State())
              else x == Some(old(queue)[0]) && returned == old(returned) + [old(queue)[0]]
    {
      x := None;
      if |queue| > 0 {
        x := Some(queue[0]);
        returned := returned + [queue[0]];
        queue := queue[1..];
      }
    }

    /** One look at the queue, after what has arrived by then. */
    method Poll(arrivals: seq<byte>, buff: array<byte>, i: nat) returns (taken: bool)
      requires Valid() && i < buff.Length
      modifies this, buff
      ensures Valid()
      ensures var q := Deliver(old(State()), arrivals);
        && taken == (q.queue != [])
        && State() == (if taken then Popped(q) else q)
        && returned == (if taken then old(returned) + [q.queue[0]] else old(returned))
        && buff[..] == (if taken then old(buff[..])[i := q.queue[0].value] else old(buff[..]))
    {
      hide Deliver, Popped;
      RxCallback(arrivals);
      DeliverReturnsNothing(old(State()), arrivals);
      var x := TakeFront();
      taken := x.Some?;
      if taken {
        buff[i] := x.value.value;
      }
    }

    /** `bsp_uart_receive`: the tick counter is at `start` when it is first read. */
    method ReceiveBytes(buff: array<byte>, len: nat, timeout: nat, start: nat, turns: nat -> Turn) returns (n: nat)
      requires Valid() && buff.Length >= Max(len, 1)
      requires start < WORD && Prompt(turns, timeout)
      modifies this, buff
      ensures Valid()
      ensures (State(), n) == Receiving(old(State()), len, timeout, turns, 0, 0, 0)
      ensures n <= buff.Length && |returned| == |old(returned)| + n && old(returned) <= returned
      ensures buff[..] == Values(returned[|old(returned)|..]) + old(buff[..])[n..]
    {
      hide Receiving, Deliver, Popped, Clock, Prompt, Filled;
      ClockStarts(start);
      FilledNothing(buff[..]);
      var time: nat, now: nat, i: nat, k: nat := start, start, 0, 0;
      ghost var e: nat := 0;
      ghost var got: seq<Item> := [];
      while (now - time) % WORD < timeout
        invariant Valid() && (i == 0 || i < len) && Clock(start, e, now)
        invariant Receiving(State(), len, timeout, turns, k, i, e) == Receiving(old(State()), len, timeout, turns, 0, 0, 0)
        invariant returned == old(returned) + got && |got| == i
        invariant Filled(buff[..], got, old(buff[..]))
        decreases Max(len, 1) - i + if e < timeout then timeout - e else 0
      {
        ghost var q := Deliver(State(), turns(k).arrivals);
        Elapsed(start, e, now);
        NextTurn(State(), len, timeout, turns, k, i, e);
        if q.queue != [] {
          FilledSnoc(buff[..], got, old(buff[..]), q.queue[0]);
        }
        var spent := turns(k).ticks;
        var taken := Poll(turns(k).arrivals, buff, i);
        if taken {
          got := got + [q.queue[0]];
          i := i + 1;
          if i >= len {
            break;
          }
        } else {
          spent := spent + 1;
        }
        ClockAdvances(start, e, now, turns, timeout, k, spent);
        now := (now + spent) % WORD;
        e := e + spent;
        k := k + 1;
      }
      Elapsed(start, e, now);
      LastTurn(State(), len, timeout, turns, k, i, e);
      FilledIs(buff[..], got, old(buff[..]), old(returned), returned);
      return i;
    }

    method FlushQueue()
      requires Valid()
      modifies this
      ensures Valid() && State() == Flushed(old(State()))
    {
      flushed := flushed + queue;
      queue := [];
    }

    method Available() returns (n: nat)
      ensures n == |State().queue|
    {
      n := |queue|;
    }
  }

  /** The tick counter `e` ticks after it stood at `start`, before it has come around. */
  predicate Clock(start: nat, e: nat, now: nat) {
    start < WORD && e < WORD && now == (start + e) % WORD
  }

  lemma ClockStarts(start: nat)
    requires start < WORD
    ensures Clock(start, 0, start)
  {
  }

  /** The wrapping difference is the time that has passed. */
  lemma Elapsed(start: nat, e: nat, now: nat)
    requires Clock(start, e, now)
    ensures (now - start) % WORD == e
  {
  }

  lemma ClockAdvances(start: nat, e: nat, now: nat, turns: nat -> Turn, timeout: nat, k: nat, spent: nat)
    requires Clock(start, e, now) && Prompt(turns, timeout) && e < timeout && spent <= turns(k).ticks + 1
    ensures Clock(start, e + spent, (now + spent) % WORD)
  {
  }

  /** The buffer holds the bytes received so far, and behind them what it held before. */
  predicate Filled(buff: seq<byte>, got: seq<Item>, was: seq<byte>) {
    |got| <= |was| && buff == Values(got) + was[|got|..]
  }

  lemma FilledNothing(was: seq<byte>)
    ensures Filled(was, [], was)
  {
  }

  lemma FilledSnoc(buff: seq<byte>, got: seq<Item>, was: seq<byte>, x: Item)
    requires Filled(buff, got, was) && |got| < |was|
    ensures |buff| == |was| && Filled(buff[|got| := x.value], got + [x], was)
  {
  }

  lemma FilledIs(buff: seq<byte>, got: seq<Item>, was: seq<byte>, before: seq<Item>, after: seq<Item>)
    requires Filled(buff, got, was) && after == before + got
    ensures before <= after && |got| <= |was| && buff == Values(after[|before|..]) + was[|got|..]
  {
  }

  lemma NextTurn(p: Port, len: nat, timeout: nat, turns: nat -> Turn, k: nat, i: nat, e: nat)
    requires (i == 0 || i < len) && e < timeout
    ensures var q := Deliver(p, turns(k).arrivals); var spent := turns(k).ticks;
            Receiving(p, len, timeout, turns, k, i, e)
            == if q.queue == [] then Receiving(q, len, timeout, turns, k + 1, i, e + spent + 1)
               else if i + 1 >= len then (Popped(q), i + 1)
               else Receiving(Popped(q), len, timeout, turns, k + 1, i + 1, e + spent)
  {
  }

  lemma LastTurn(p: Port, len: nat, timeout: nat, turns: nat -> Turn, k: nat, i: nat, e: nat)
    ensures (i == 0 || i < len) && e >= timeout ==> Receiving(p, len, timeout, turns, k, i, e) == (p, i)
  {
  }

  lemma {:induction false} DeliverReturnsNothing(p: Port, bs: seq<byte>)
    ensures var q := Deliver(p, bs); q.returned == p.returned && q.flushed == p.flushed
    decreases |bs|
  {
    if bs != [] {
      DeliverReturnsNothing(p, bs[..|bs| - 1]);
    }
  }

  /** A flush discards all that is pending, and touches nothing else. */
  lemma FlushDiscards(p: Port)
    ensures var q := Step(p, Flush);
            q.queue == [] && q.flushed == p.flushed + p.queue
            && q.delivered == p.delivered && q.returned == p.returned && q.dropped == p.dropped
  {
  }

  // ------------------------------------------------------------- every byte, once

  /** Delivered bytes carry their serial numbers, every one of them is in one place and
      only there, and the queue is a stack: the front is the newest. */
  predicate Accounted(p: Port) {
    && (forall k :: 0 <= k < |p.delivered| ==> p.delivered[k].id == k)
    && multiset(p.queue) + multiset(p.returned) + multiset(p.flushed) + multiset(p.dropped) == multiset(p.delivered)
    && |p.queue| <= CAPACITY
    && NewestFirst(p.queue, |p.delivered|)
  }

  predicate NewestFirst(queue: seq<Item>, bound: nat) {
    && (forall i :: 0 <= i < |queue| ==> queue[i].id < bound)
    && (forall i, j :: 0 <= i < j < |queue| ==> queue[i].id > queue[j].id)
  }

  /** A byte is dropped exactly when 256 bytes are pending. */
  lemma DeliverOneAccounts(p: Port, b: byte)
    requires Accounted(p)
    ensures var q := DeliverOne(p, b);
      && Accounted(q)
      && (q.dropped == p.dropped + [q.delivered[|p.delivered|]] <==> |p.queue| == CAPACITY)
      && (q.queue == [q.delivered[|p.delivered|]] + p.queue <==> |p.queue| < CAPACITY)
  {
    var x := Item(|p.delivered|, b);
    StackedOn(p.queue, x);
    hide NewestFirst;
    assert multiset([x] + p.queue) == multiset{x} + multiset(p.queue);
  }

  lemma StackedOn(queue: seq<Item>, x: Item)
    requires NewestFirst(queue, x.id)
    ensures NewestFirst([x] + queue, x.id + 1) && NewestFirst(queue, x.id + 1)
  {
  }

  lemma {:induction false} DeliverAccounts(p: Port, bs: seq<byte>)
    requires Accounted(p)
    ensures Accounted(Deliver(p, bs))
    decreases |bs|
  {
    hide Accounted, DeliverOne;
    if bs != [] {
      DeliverAccounts(p, bs[..|bs| - 1]);
      DeliverOneAccounts(Deliver(p, bs[..|bs| - 1]), bs[|bs| - 1]);
    }
  }

  lemma PoppedAccounts(p: Port)
    requires Accounted(p)
    ensures Accounted(Popped(p))
  {
    if p.queue != [] {
      assert p.queue == [p.queue[0]] + p.queue[1..];
    }
  }

  lemma FlushedAccounts(p: Port)
    requires Accounted(p)
    ensures Accounted(Flushed(p))
  {
  }

  lemma {:induction false} ReceivingAccounts(p: Port, len: nat, timeout: nat, turns: nat -> Turn, k: nat, i: nat, e: nat)
    requires Accounted(p) && (i == 0 || i < len)
    ensures Accounted(Receiving(p, len, timeout, turns, k, i, e).0)
    decreases Max(len, 1) - i + if e < timeout then timeout - e else 0
  {
    hide Accounted, Receiving, Popped;
    if e >= timeout {
      LastTurn(p, len, timeout, turns, k, i, e);
    } else {
      var q := Deliver(p, turns(k).arrivals);
      NextTurn(p, len, timeout, turns, k, i, e);
      DeliverAccounts(p, turns(k).arrivals);
      if q.queue == [] {
        ReceivingAccounts(q, len, timeout, turns, k + 1, i, e + turns(k).ticks + 1);
      } else {
        PoppedAccounts(q);
        if i + 1 < len {
          ReceivingAccounts(Popped(q), len, timeout, turns, k + 1, i + 1, e + turns(k).ticks);
        }
      }
    }
  }

  /** Under every interleaving of interrupts with receives and flushes. */
  lemma {:induction false} EveryRunAccounts(p: Port, evs: seq<Event>)
    requires Accounted(p)
    ensures Accounted(Run(p, evs))
    decreases |evs|
  {
    hide Accounted, Receiving, Flushed, Deliver;
    if evs != [] {
      var q := Run(p, evs[..|evs| - 1]);
      EveryRunAccounts(p, evs[..|evs| - 1]);
      match evs[|evs| - 1] {
        case Interrupt(bs) => DeliverAccounts(q, bs);
        case Receive(len, timeout, turns) => ReceivingAccounts(q, len, timeout, turns, 0, 0, 0);
        case Flush => FlushedAccounts(q);
      }
    }
  }

  lemma {:induction false} SerialsAreDistinct(xs: seq<Item>, x: Item)
    requires forall k :: 0 <= k < |xs| ==> xs[k].id == k
    ensures multiset(xs)[x] == if x in xs then 1 else 0
    decreases |xs|
  {
    if xs != [] {
      var ys, y := xs[..|xs| - 1], xs[|xs| - 1];
      assert xs == ys + [y];
      SerialsAreDistinct(ys, x);
    }
  }

  /** In every run from an idle port, each delivered byte is exactly one of pending,
      returned, flushed or dropped, and only once. */
  lemma EachByteOnce(evs: seq<Event>, k: nat)
    requires k < |Run(Idle(), evs).delivered|
    ensures var p := Run(Idle(), evs); var x := p.delivered[k];
            multiset(p.queue)[x] + multiset(p.returned)[x] + multiset(p.flushed)[x] + multiset(p.dropped)[x] == 1
  {
    assert Accounted(Idle());
    EveryRunAccounts(Idle(), evs);
    var p := Run(Idle(), evs);
    hide Run;
    SerialsAreDistinct(p.delivered, p.delivered[k]);
    assert (multiset(p.queue) + multiset(p.returned) + multiset(p.flushed) + multiset(p.dropped))[p.delivered[k]] == 1;
  }

  // ------------------------------------------------------------ when receive returns

  /** All that arrives in the turns from `k` up to `m`. */
  function Arrivals(turns: nat -> Turn, k: nat, m: nat): seq<byte>
    requires k <= m
    decreases m - k
  {
    if k == m then [] else turns(k).arrivals + Arrivals(turns, k + 1, m)
  }

  /** The ticks that pass in those turns, besides the ones of vain waits. */
  function Ticks(turns: nat -> Turn, k: nat, m: nat): nat
    requires k <= m
    decreases m - k
  {
    if k == m then 0 else turns(k).ticks + Ticks(turns, k + 1, m)
  }

  /** A receive that had `i` bytes and `e` ticks behind it at turn `k` ends with `n` bytes
      before turn `m`. All that came in until then was delivered, in order. A turn takes
      one byte or waits one tick in vain. It ends early only when the timeout is over, and
      no turn begins once the timeout is over. */
  ghost predicate Stops(p: Port, q: Port, len: nat, timeout: nat, turns: nat -> Turn, k: nat, i: nat, e: nat, m: nat) {
    var n := i + |q.returned| - |p.returned|;
    && k <= m && i <= n <= Max(len, 1) && n - i <= m - k
    && Values(q.delivered) == Values(p.delivered) + Arrivals(turns, k, m)
    && (n < Max(len, 1) ==> e + Ticks(turns, k, m) + (m - k) - (n - i) >= timeout)
    && (m > k ==> e + Ticks(turns, k, m - 1) + (m - 1 - k) - (n - i) < timeout)
    && (m > k && n == Max(len, 1) ==> e + Ticks(turns, k, m - 1) + (m - 1 - k) - (n - 1 - i) < timeout)
  }

  lemma {:induction false} DeliveredInOrder(p: Port, bs: seq<byte>)
    ensures Values(Deliver(p, bs).delivered) == Values(p.delivered) + bs
    decreases |bs|
  {
    if bs == [] {
    } else {
      var q, b := Deliver(p, bs[..|bs| - 1]), bs[|bs| - 1];
      DeliveredInOrder(p, bs[..|bs| - 1]);
      assert Values(DeliverOne(q, b).delivered) == Values(q.delivered) + [b];
      assert bs == bs[..|bs| - 1] + [b];
    }
  }

  lemma {:induction false} ReceivingStops(p: Port, len: nat, timeout: nat, turns: nat -> Turn, k: nat, i: nat, e: nat)
    returns (m: nat)
    requires i == 0 || i < len
    ensures Stops(p, Receiving(p, len, timeout, turns, k, i, e).0, len, timeout, turns, k, i, e, m)
    decreases Max(len, 1) - i + if e < timeout then timeout - e else 0
  {
    hide Receiving, Deliver, Values;
    if e >= timeout {
      LastTurn(p, len, timeout, turns, k, i, e);
      m := k;
    } else {
      var q := Deliver(p, turns(k).arrivals);
      NextTurn(p, len, timeout, turns, k, i, e);
      DeliveredInOrder(p, turns(k).arrivals);
      DeliverReturnsNothing(p, turns(k).arrivals);
      if q.queue == [] {
        m := ReceivingStops(q, len, timeout, turns, k + 1, i, e + turns(k).ticks + 1);
      } else if i + 1 < len {
        m := ReceivingStops(Popped(q), len, timeout, turns, k + 1, i + 1, e + turns(k).ticks);
      } else {
        m := k + 1;
        assert Arrivals(turns, k, k + 1) == turns(k).arrivals;
      }
    }
  }

  /** A receive returns at its length or at its timeout, and not before. */
  lemma ReceiveStops(p: Port, len: nat, timeout: nat, turns: nat -> Turn)
    ensures var q := Step(p, Receive(len, timeout, turns));
            exists m: nat :: Stops(p, q, len, timeout, turns, 0, 0, 0, m)
  {
    hide Receiving, Stops;
    var m := ReceivingStops(p, len, timeout, turns, 0, 0, 0);
    assert Stops(p, Step(p, Receive(len, timeout, turns)), len, timeout, turns, 0, 0, 0, m);
  }

  // ------------------------------------------------------------ what receive returns

  /** A receive for at least one byte never returns more than asked for; one for no byte
      still stores and returns one byte if one comes in time. */
  lemma {:induction false} ReceiveResult(p: Port, len: nat, timeout: nat, turns: nat -> Turn, k: nat, i: nat, e: nat)
    requires i == 0 || i < len
    ensures var (q, n) := Receiving(p, len, timeout, turns, k, i, e);
            i <= n <= Max(len, 1) && |q.returned| == |p.returned| + n - i && p.returned <= q.returned
    decreases Max(len, 1) - i + if e < timeout then timeout - e else 0
  {
    hide Receiving;
    if e >= timeout {
      LastTurn(p, len, timeout, turns, k, i, e);
    } else {
      var q := Deliver(p, turns(k).arrivals);
      NextTurn(p, len, timeout, turns, k, i, e);
      DeliverReturnsNothing(p, turns(k).arrivals);
      if q.queue == [] {
        ReceiveResult(q, len, timeout, turns, k + 1, i, e + turns(k).ticks + 1);
      } else if i + 1 < len {
        ReceiveResult(Popped(q), len, timeout, turns, k + 1, i + 1, e + turns(k).ticks);
      }
    }
  }

  lemma ResultIsWithinLenIff(len: nat)
    ensures (forall p: Port, timeout: nat, turns: nat -> Turn :: Receiving(p, len, timeout, turns, 0, 0, 0).1 <= len)
            <==> len >= 1
  {
    if len >= 1 {
      forall p: Port, timeout: nat, turns: nat -> Turn
        ensures Receiving(p, len, timeout, turns, 0, 0, 0).1 <= len
      {
        ReceiveResult(p, len, timeout, turns, 0, 0, 0);
      }
    } else {
      var p := Port([Item(0, 65)], [Item(0, 65)], [], [], []);
      var turns := (k: nat) => Turn([], 0);
      NextTurn(p, 0, 1, turns, 0, 0, 0);
      assert Deliver(p, []) == p;
      assert Receiving(p, 0, 1, turns, 0, 0, 0).1 == 1;
    }
  }

  ghost predicate Quiet(turns: nat -> Turn) {
    forall k :: turns(k) == Turn([], 0)
  }

  /** Without arrivals or delays, a receive takes bytes from the front of the queue. */
  lemma {:induction false} QuietReceive(p: Port, len: nat, timeout: nat, turns: nat -> Turn, k: nat, i: nat)
    requires Quiet(turns) && timeout > 0 && i < len <= i + |p.queue|
    ensures var (q, n) := Receiving(p, len, timeout, turns, k, i, 0);
            n == len && q.returned == p.returned + p.queue[..len - i] && q.queue == p.queue[len - i..]
    decreases len - i
  {
    hide Receiving;
    NextTurn(p, len, timeout, turns, k, i, 0);
    assert Deliver(p, []) == p;
    if i + 1 < len {
      QuietReceive(Popped(p), len, timeout, turns, k + 1, i + 1);
    }
  }

  function Reversed(bs: seq<byte>): (r: seq<byte>)
    ensures |r| == |bs| && forall k :: 0 <= k < |bs| ==> r[k] == bs[|bs| - 1 - k]
  {
    if bs == [] then [] else [bs[|bs| - 1]] + Reversed(bs[..|bs| - 1])
  }

  lemma {:induction false} BurstIsStacked(p: Port, bs: seq<byte>)
    requires p.queue == [] && |bs| <= CAPACITY
    ensures Values(Deliver(p, bs).queue) == Reversed(bs)
    decreases |bs|
  {
    if bs != [] {
      BurstIsStacked(p, bs[..|bs| - 1]);
    }
  }

  /** A burst into an empty queue comes back in reverse, so a receiver gets what was sent
      if and only if the burst is a palindrome. */
  lemma BurstComesBackReversed(p: Port, bs: seq<byte>, timeout: nat, turns: nat -> Turn)
    requires p.queue == [] && 1 <= |bs| <= CAPACITY && timeout > 0 && Quiet(turns)
    ensures var q := Receiving(Deliver(p, bs), |bs|, timeout, turns, 0, 0, 0).0;
      && |q.returned| == |p.returned| + |bs|
      && Values(q.returned[|p.returned|..]) == Reversed(bs)
      && (Values(q.returned[|p.returned|..]) == bs <==> forall k :: 0 <= k < |bs| ==> bs[k] == bs[|bs| - 1 - k])
  {
    hide Deliver, Receiving;
    BurstIsStacked(p, bs);
    DeliverReturnsNothing(p, bs);
    var d := Deliver(p, bs);
    QuietReceive(d, |bs|, timeout, turns, 0, 0);
    var q := Receiving(d, |bs|, timeout, turns, 0, 0, 0).0;
    assert d.queue[..|bs|] == d.queue;
    assert q.returned[|p.returned|..] == d.queue;
  }
}
