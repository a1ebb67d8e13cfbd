/** `struct task_buffer`: the ring of eight slots under the monitor.  Here
    `tail` is written and `head` is read.  The condition variables' waiting
    queues are the four thread sets.  Each method is one mutex-held section and
    is proved to be the corresponding step of the monitor. */
module TaskBuffer {
  import opened BoundedQueue
  import M = Monitor

  class TaskBuffer<T(0)> {
    const tasks: array<T>
    var head: nat
    var tail: nat
    var count: nat
    var producersAsleep: set<M.Thread>
    var producersWoken: set<M.Thread>
    var consumersAsleep: set<M.Thread>
    var consumersWoken: set<M.Thread>
    var items: map<M.Thread, T>
    ghost var producersSignalled: set<M.Thread>
    ghost var consumersSignalled: set<M.Thread>
    ghost var enqueued: seq<T>
    ghost var dequeued: seq<T>

    ghost predicate Layout()
      reads this
    {
      && tasks.Length == M.MAX_TASKS
      && count <= M.MAX_TASKS && head < M.MAX_TASKS
      && tail == Slot(head, count, M.MAX_TASKS)
    }

    ghost function Snapshot(): M.State<T>
      requires Layout()
      reads this, tasks
    {
      M.State(Contents(), producersAsleep, producersWoken, producersSignalled,
              consumersAsleep, consumersWoken, consumersSignalled, items, enqueued, dequeued)
    }

    ghost predicate Valid()
      reads this, tasks
    {
      Layout() && M.Inv(Snapshot())
    }

    constructor ()
      ensures Valid() && fresh(tasks) && Snapshot() == M.Init()
    {
      tasks := new T[M.MAX_TASKS];
      head, tail, count := 0, 0, 0;
      producersAsleep, producersWoken, consumersAsleep, consumersWoken := {}, {}, {}, {};
      producersSignalled, consumersSignalled := {}, {};
      items, enqueued, dequeued := map[], [], [];
    }

    ghost function Contents(): seq<T>
      requires Layout()
      reads this, tasks
    {
      Unroll(tasks[..], head, count)
    }

    /** Writes the slot at `tail`. */
    method Write(x: T)
      requires Layout() && count < M.MAX_TASKS
      modifies this`tail, this`count, tasks
      ensures Layout() && count == old(count) + 1 && Contents() == old(Contents()) + [x]
    {
      UnrollPush(tasks[..], head, count, x);
      SlotOfNext(head, count, M.MAX_TASKS);
      ghost var before := tasks[..];
      tasks[tail] := x;
      assert tasks[..] == before[tail := x];
      tail := (tail + 1) % M.MAX_TASKS;
      count := count + 1;
    }

    /** Leaves the slot at `head` behind. */
    method Advance()
      requires Layout() && count > 0
      modifies this`head, this`count
      ensures Layout() && count == old(count) - 1
      ensures old(Contents()) == [tasks[old(head)]] + Contents()
    {
      UnrollPop(tasks[..], head, count);
      SlotOfNext(head, count - 1, M.MAX_TASKS);
      head := (head + 1) % M.MAX_TASKS;
      count := count - 1;
    }

    /** From acquiring the mutex, on entry or after a wakeup, to giving it up. */
    method EnqueueSection(t: M.Thread, x: T, woken: set<M.Thread>) returns (done: bool)
      requires Layout()
      modifies this, tasks
      ensures Layout() && Snapshot() == M.EnqueueSection(old(Snapshot()), t, x, woken)
      ensures done <==> old(count) < M.MAX_TASKS
    {
      hide Unroll;
      if count == M.MAX_TASKS {
        producersAsleep := producersAsleep + {t};
        items := items[t := x];
        return false;
      }
      Write(x);
      consumersAsleep, consumersWoken := consumersAsleep - woken, consumersWoken + woken;
      consumersSignalled := consumersSignalled + woken;
      enqueued := enqueued + [x];
      return true;
    }

    method DequeueSection(t: M.Thread, woken: set<M.Thread>) returns (done: bool, x: T)
      requires Layout()
      modifies this
      ensures Layout() && Snapshot() == M.DequeueSection(old(Snapshot()), t, woken)
      ensures done <==> old(count) > 0
      ensures done ==> x == old(Snapshot()).queue[0]
    {
      hide Unroll;
      x := tasks[head];
      if count == 0 {
        consumersAsleep := consumersAsleep + {t};
        return false, x;
      }
      Advance();
      producersAsleep, producersWoken := producersAsleep - woken, producersWoken + woken;
      producersSignalled := producersSignalled + woken;
      dequeued := dequeued + [x];
      return true, x;
    }

    /** A thread calls `task_buffer_enqueue`. */
    method Enqueue(t: M.Thread, x: T, woken: set<M.Thread>) returns (done: bool)
      requires Valid() && M.Enabled(Snapshot(), M.Enqueue(t, x, woken))
      modifies this, tasks
      ensures Valid() && Snapshot() == M.Apply(old(Snapshot()), M.Enqueue(t, x, woken))
      ensures done <==> old(count) < M.MAX_TASKS
      ensures enqueued == if done then old(enqueued) + [x] else old(enqueued)
      ensures !done ==> t in producersAsleep && t in items && items[t] == x
    {
      M.StepKeepsInv(Snapshot(), M.Enqueue(t, x, woken));
      done := EnqueueSection(t, x, woken);
    }

    /** A woken producer gets the mutex back and tests the buffer again. */
    method ResumeEnqueue(t: M.Thread, woken: set<M.Thread>) returns (done: bool)
      requires Valid() && M.Enabled(Snapshot(), M.ResumeEnqueue(t, woken))
      modifies this, tasks
      ensures Valid() && Snapshot() == M.Apply(old(Snapshot()), M.ResumeEnqueue(t, woken))
      ensures done <==> old(count) < M.MAX_TASKS
      ensures enqueued == if done then old(enqueued) + [old(items)[t]] else old(enqueued)
      ensures !done ==> t in producersAsleep && t in items && items[t] == old(items)[t]
    {
      M.StepKeepsInv(Snapshot(), M.ResumeEnqueue(t, woken));
      M.SectionOutcome(M.ProducerBack(Snapshot(), t), t, items[t], woken);
      hide M.EnqueueSection;
      hide M.Inv;
      hide Unroll;
      var x := ProducerReturns(t);
      done := EnqueueSection(t, x, woken);
    }

    /** The producer is no longer among the woken ones, and has its item. */
    method ProducerReturns(t: M.Thread) returns (x: T)
      requires Layout() && t in items
      modifies this`producersWoken, this`producersSignalled, this`items
      ensures Layout() && x == old(items)[t] && Snapshot() == M.ProducerBack(old(Snapshot()), t)
    {
      x := items[t];
      producersWoken, items := producersWoken - {t}, items - {t};
      producersSignalled := producersSignalled - {t};
    }

    /** A thread calls `task_buffer_dequeue`. */
    method Dequeue(t: M.Thread, woken: set<M.Thread>) returns (done: bool, x: T)
      requires Valid() && M.Enabled(Snapshot(), M.Dequeue(t, woken))
      modifies this
      ensures Valid() && Snapshot() == M.Apply(old(Snapshot()), M.Dequeue(t, woken))
      ensures done <==> old(count) > 0
      ensures dequeued == if done then old(dequeued) + [x] else old(dequeued)
      ensures !done ==> t in consumersAsleep
    {
      M.StepKeepsInv(Snapshot(), M.Dequeue(t, woken));
      done, x := DequeueSection(t, woken);
    }

    /** A woken consumer gets the mutex back and tests the buffer again. */
    method ResumeDequeue(t: M.Thread, woken: set<M.Thread>) returns (done: bool, x: T)
      requires Valid() && M.Enabled(Snapshot(), M.ResumeDequeue(t, woken))
      modifies this
      ensures Valid() && Snapshot() == M.Apply(old(Snapshot()), M.ResumeDequeue(t, woken))
      ensures done <==> old(count) > 0
      ensures dequeued == if done then old(dequeued) + [x] else old(dequeued)
      ensures !done ==> t in consumersAsleep
    {
      M.StepKeepsInv(Snapshot(), M.ResumeDequeue(t, woken));
      consumersWoken := consumersWoken - {t};
      consumersSignalled := consumersSignalled - {t};
      done, x := DequeueSection(t, woken);
    }

    method Size() returns (size: nat)
      requires Valid()
      ensures size == |enqueued| - |dequeued| <= M.MAX_TASKS
    {
      return count;
    }
  }
}
