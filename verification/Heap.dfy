/** `_sbrk`: the newlib heap between `_end` and the stack's reserve, as a bump allocator. */
module Heap {
  import opened Common

  /** The linker's symbols: where the heap starts, where RAM ends, and the stack's reserve. */
  datatype Memory = Memory(end: nat, estack: nat, reserve: nat)

  predicate Sane(m: Memory) {
    0 < m.end <= m.estack - m.reserve && m.estack < WORD
  }

  /** The returned block, or -1 with ENOMEM. */
  datatype Answer = Block(start: nat) | NoMemory

  /** `brk` is NULL (zero) before the first call. */
  class Allocator {
    const memory: Memory
    var brk: nat

    constructor (m: Memory)
      ensures memory == m && brk == 0
    {
      memory, brk := m, 0;
    }

    /** Pointers wrap at 32 bits, as the comparison sees them. */
    method Sbrk(incr: int) returns (r: Answer)
      requires Sane(memory) && brk < WORD
      modifies this
      ensures brk < WORD && (brk, r) == Bump(memory, old(brk), incr)
    {
      var maxHeap := memory.estack - memory.reserve;
      if brk == 0 {
        brk := memory.end;
      }
      if (brk + incr) % WORD > maxHeap {
        return NoMemory;
      }
      var previous := brk;
      brk := (brk + incr) % WORD;
      return Block(previous);
    }
  }

  function Start(m: Memory, brk: nat): nat {
    if brk == 0 then m.end else brk
  }

  function Bump(m: Memory, brk: nat, incr: int): (nat, Answer)
    requires Sane(m)
  {
    var b := Start(m, brk);
    var next := (b + incr) % WORD;
    if next > m.estack - m.reserve then (b, NoMemory) else (next, Block(b))
  }

  /** The heap end and the answers after a series of calls. */
  function Run(m: Memory, incrs: seq<int>): (nat, seq<Answer>)
    requires Sane(m)
  {
    if incrs == [] then (0, [])
    else
      var (brk, rs) := Run(m, incrs[..|incrs| - 1]);
      var (next, r) := Bump(m, brk, incrs[|incrs| - 1]);
      (next, rs + [r])
  }

  function HeapEnd(m: Memory, incrs: seq<int>): nat
    requires Sane(m)
  {
    Start(m, Run(m, incrs).0)
  }

  function Limit(m: Memory): nat
    requires Sane(m)
  {
    m.estack - m.reserve
  }

  predicate HasRoom(m: Memory, before: seq<int>, incr: int)
    requires Sane(m)
  {
    HeapEnd(m, before) + incr <= Limit(m)
  }

  /** The sum of the increments of the calls that succeeded. */
  function Granted(m: Memory, incrs: seq<int>): int
    requires Sane(m)
  {
    if incrs == [] then 0
    else
      var rest, x := incrs[..|incrs| - 1], incrs[|incrs| - 1];
      Granted(m, rest) + if HasRoom(m, rest, x) then x else 0
  }

  /** No call asks for an end of the heap outside the address space. */
  predicate NoWrap(m: Memory, incrs: seq<int>)
    requires Sane(m)
  {
    forall k :: 0 <= k < |incrs| ==> 0 < HeapEnd(m, incrs[..k]) + incrs[k] < WORD
  }

  lemma BumpPlain(m: Memory, brk: nat, incr: int)
    requires Sane(m) && 0 < Start(m, brk) + incr < WORD
    ensures var b := Start(m, brk);
            Bump(m, brk, incr) == if b + incr > Limit(m) then (b, NoMemory) else (b + incr, Block(b))
  {
  }

  lemma {:induction false} PrefixAnswers(m: Memory, incrs: seq<int>, k: nat)
    requires Sane(m) && k <= |incrs|
    ensures |Run(m, incrs).1| == |incrs| && |Run(m, incrs[..k]).1| == k && Run(m, incrs[..k]).1 <= Run(m, incrs).1
    decreases |incrs|
  {
    hide Bump;
    if k == |incrs| {
      assert incrs[..k] == incrs;
      if k > 0 {
        PrefixAnswers(m, incrs[..k - 1], k - 1);
      }
    } else {
      PrefixAnswers(m, incrs[..|incrs| - 1], k);
      assert incrs[..|incrs| - 1][..k] == incrs[..k];
    }
  }

  /** What call `k` answers, and where it leaves the end of the heap: a call that does not
      fit under the stack's reserve fails and changes nothing. */
  lemma CallAt(m: Memory, incrs: seq<int>, k: nat)
    requires Sane(m) && NoWrap(m, incrs) && k < |incrs|
    ensures |Run(m, incrs).1| == |incrs|
    ensures var b, r := HeapEnd(m, incrs[..k]), Run(m, incrs).1[k];
      && (r == if HasRoom(m, incrs[..k], incrs[k]) then Block(b) else NoMemory)
      && HeapEnd(m, incrs[..k + 1]) == (if r.Block? then b + incrs[k] else b)
  {
    PrefixAnswers(m, incrs, k + 1);
    PrefixAnswers(m, incrs[..k], k);
    assert incrs[..k + 1][..k] == incrs[..k];
    BumpPlain(m, Run(m, incrs[..k]).0, incrs[k]);
    hide Bump;
    assert Run(m, incrs).1[k] == Run(m, incrs[..k + 1]).1[k];
  }

  /** Without wrap-around, the end of the heap is `_end` plus what was granted, and it never
      passes the stack's reserve. */
  lemma {:induction false} EndIsTheSum(m: Memory, incrs: seq<int>, n: nat)
    requires Sane(m) && NoWrap(m, incrs) && n <= |incrs|
    ensures HeapEnd(m, incrs[..n]) == m.end + Granted(m, incrs[..n]) <= Limit(m)
    decreases n
  {
    if n == 0 {
      assert Run(m, []) == (0, []);
    } else {
      EndIsTheSum(m, incrs, n - 1);
      CallAt(m, incrs, n - 1);
      assert incrs[..n][..n - 1] == incrs[..n - 1];
      hide HeapEnd, NoWrap;
    }
  }

  /** With increments that are not negative, the blocks that were returned tile the heap in
      the order of the calls: they do not overlap, and each starts where the last one ends. */
  lemma {:induction false} BlocksTile(m: Memory, incrs: seq<int>, i: nat, j: nat)
    requires Sane(m) && NoWrap(m, incrs) && i < j < |incrs| && forall k :: 0 <= k < |incrs| ==> incrs[k] >= 0
    requires |Run(m, incrs).1| == |incrs| && Run(m, incrs).1[i].Block? && Run(m, incrs).1[j].Block?
    ensures var rs := Run(m, incrs).1;
      && rs[i].start + incrs[i] <= rs[j].start
      && ((forall k :: i < k < j ==> rs[k].NoMemory?) ==> rs[i].start + incrs[i] == rs[j].start)
      && m.end <= rs[i].start && rs[j].start + incrs[j] <= Limit(m)
  {
    hide HeapEnd, NoWrap, Run;
    CallAt(m, incrs, i);
    CallAt(m, incrs, j);
    Grows(m, incrs, 0, i);
    Grows(m, incrs, i + 1, j);
    EndIsTheSum(m, incrs, 0);
    EndIsTheSum(m, incrs, j + 1);
  }

  lemma {:induction false} Grows(m: Memory, incrs: seq<int>, i: nat, j: nat)
    requires Sane(m) && NoWrap(m, incrs) && i <= j <= |incrs| && forall k :: 0 <= k < |incrs| ==> incrs[k] >= 0
    requires |Run(m, incrs).1| == |incrs|
    ensures HeapEnd(m, incrs[..i]) <= HeapEnd(m, incrs[..j])
    ensures (forall k :: i <= k < j ==> Run(m, incrs).1[k].NoMemory?) ==> HeapEnd(m, incrs[..i]) == HeapEnd(m, incrs[..j])
    decreases j
  {
    hide HeapEnd, NoWrap, Run;
    if i < j {
      Grows(m, incrs, i, j - 1);
      CallAt(m, incrs, j - 1);
    }
  }
}
