/** A bounded first-in first-out queue as a value, and how a ring of slots
    represents one.  Both ring conventions of the system read off the same
    value: the oldest element sits at `start`, and the free slot that comes
    after the newest one is written next. */
module BoundedQueue {
  import opened Options

  /** The next slot on a ring of `cap` slots. */
  function Next(i: nat, cap: nat): (r: nat)
    requires i < cap
    ensures r < cap && r == if i + 1 == cap then 0 else i + 1
  {
    (i + 1) % cap
  }

  /** The slot `k` places after `start`. */
  function Slot(start: nat, k: nat, cap: nat): (r: nat)
    requires start < cap && k <= cap
    ensures r < cap
  {
    if start + k < cap then start + k else start + k - cap
  }

  /** The elements in the ring, oldest first. */
  function Unroll<T>(slots: seq<T>, start: nat, n: nat): (q: seq<T>)
    requires start < |slots| && n <= |slots|
    ensures |q| == n
  {
    seq(n, k requires 0 <= k < n => slots[Slot(start, k, |slots|)])
  }

  lemma SlotOfNext(start: nat, k: nat, cap: nat)
    requires start < cap && k < cap
    ensures Slot(Next(start, cap), k, cap) == Slot(start, k + 1, cap)
    ensures Next(Slot(start, k, cap), cap) == Slot(start, k + 1, cap)
  {
  }

  /** Writing the free slot appends. */
  lemma UnrollPush<T>(slots: seq<T>, start: nat, n: nat, x: T)
    requires start < |slots| && n < |slots|
    ensures Unroll(slots[Slot(start, n, |slots|) := x], start, n + 1) == Unroll(slots, start, n) + [x]
  {
    var slots' := slots[Slot(start, n, |slots|) := x];
    forall k | 0 <= k < n + 1
      ensures Unroll(slots', start, n + 1)[k] == (Unroll(slots, start, n) + [x])[k]
    {
      if k < n { assert Slot(start, k, |slots|) != Slot(start, n, |slots|); }
    }
  }

  /** Moving the start on drops the oldest. */
  lemma UnrollPop<T>(slots: seq<T>, start: nat, n: nat)
    requires start < |slots| && 0 < n <= |slots|
    ensures Unroll(slots, start, n) == [slots[start]] + Unroll(slots, Next(start, |slots|), n - 1)
  {
    forall k | 0 <= k < n
      ensures Unroll(slots, start, n)[k]
              == ([slots[start]] + Unroll(slots, Next(start, |slots|), n - 1))[k]
    {
      if k > 0 { SlotOfNext(start, k - 1, |slots|); }
    }
  }

  // ------------------------------------------------------------ specification

  datatype Op<T> = Add(item: T) | Take

  /** The history of a queue: its contents, what it accepted and what it handed out. */
  datatype Trace<T> = Trace(contents: seq<T>, accepted: seq<T>, taken: seq<T>)

  function Perform<T>(t: Trace<T>, cap: nat, op: Op<T>): Trace<T> {
    match op
    case Add(x) =>
      if |t.contents| < cap then t.(contents := t.contents + [x], accepted := t.accepted + [x]) else t
    case Take =>
      if t.contents == [] then t
      else t.(contents := t.contents[1..], taken := t.taken + [t.contents[0]])
  }

  function PerformAll<T>(t: Trace<T>, cap: nat, ops: seq<Op<T>>): Trace<T> {
    if ops == [] then t
    else Perform(PerformAll(t, cap, ops[..|ops| - 1]), cap, ops[|ops| - 1])
  }

  lemma {:induction false} PerformConcat<T>(t: Trace<T>, cap: nat, a: seq<Op<T>>, b: seq<Op<T>>)
    ensures PerformAll(t, cap, a + b) == PerformAll(PerformAll(t, cap, a), cap, b)
    decreases |b|
  {
    if b == [] {
      assert a + b == a;
    } else {
      assert (a + b)[..|a + b| - 1] == a + b[..|b| - 1];
      PerformConcat(t, cap, a, b[..|b| - 1]);
    }
  }

  /** In every interleaving: what came out, followed by what is still inside, is
      exactly what was accepted, in order, and the bound is respected. */
  lemma {:induction false} FifoConservation<T>(cap: nat, ops: seq<Op<T>>)
    ensures var t := PerformAll(Trace([], [], []), cap, ops);
      t.accepted == t.taken + t.contents && |t.contents| <= cap
    decreases |ops|
  {
    if ops != [] {
      FifoConservation(cap, ops[..|ops| - 1]);
    }
  }

  lemma TakeFirst<T>(t: Trace<T>, cap: nat, first: T, rest: seq<T>)
    requires t.contents == [first] + rest && t.accepted == t.taken + t.contents
    ensures Perform(t, cap, Take) == Trace(rest, t.accepted, t.taken + [first])
    ensures t.accepted == t.taken + [first] + rest
  {
    assert t.contents[1..] == rest;
  }

  // ------------------------------------------------------------------- rings

  /** The rings of `task_management.c`: `head` is written, `tail` is read, and a
      full or empty ring refuses at once.  `capacity` may be zero.  Used for both
      the task buffer and the result queue. */
  class AgentRing<T(0)> {
    const slots: array<T>
    var head: nat
    var tail: nat
    var count: nat
    ghost var history: Trace<T>

    ghost predicate Valid()
      reads this, slots
    {
      && count <= slots.Length
      && (slots.Length == 0 ==> head == 0 && tail == 0)
      && (slots.Length > 0 ==>
            tail < slots.Length && head == Slot(tail, count, slots.Length))
      && history.contents == Contents()
      && history.accepted == history.taken + history.contents
    }

    ghost function Contents(): seq<T>
      reads this, slots
      requires count <= slots.Length && (slots.Length > 0 ==> tail < slots.Length)
    {
      if slots.Length == 0 then [] else Unroll(slots[..], tail, count)
    }

    constructor (capacity: nat)
      ensures Valid() && fresh(slots) && slots.Length == capacity
      ensures history == Trace([], [], [])
    {
      slots := new T[capacity];
      head, tail, count, history := 0, 0, 0, Trace([], [], []);
    }

    method Put(x: T) returns (accepted: bool)
      requires Valid()
      modifies this, slots
      ensures Valid()
      ensures accepted <==> |old(history).contents| < slots.Length
      ensures history == Perform(old(history), slots.Length, Add(x))
    {
      if count >= slots.Length {
        return false;
      }
      UnrollPush(slots[..], tail, count, x);
      SlotOfNext(tail, count, slots.Length);
      hide Unroll;
      hide Slot;
      ghost var before := slots[..];
      slots[head] := x;
      assert slots[..] == before[head := x];
      head := Next(head, slots.Length);
      count := count + 1;
      history := Perform(history, slots.Length, Add(x));
      return true;
    }

    method Get() returns (x: Option<T>)
      requires Valid()
      modifies this
      ensures Valid()
      ensures x == if old(history).contents == [] then None else Some(old(history).contents[0])
      ensures history == Perform(old(history), slots.Length, Take)
    {
      if count == 0 {
        return None;
      }
      UnrollPop(slots[..], tail, count);
      SlotOfNext(tail, count - 1, slots.Length);
      TakeFirst(history, slots.Length, slots[tail], Unroll(slots[..], Next(tail, slots.Length), count - 1));
      hide Unroll;
      hide Slot;
      hide Next;
      hide Perform;
      x := Some(slots[tail]);
      tail := Next(tail, slots.Length);
      count := count - 1;
      history := Perform(history, slots.Length, Take);
    }

    method IsEmpty() returns (empty: bool)
      requires Valid()
      ensures empty <==> history.contents == []
    {
      return count == 0;
    }
  }
}
