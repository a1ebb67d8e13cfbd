/** What becomes of the calls: none ends without its item. */
module MonitorCalls {
  import opened Monitor

  // ---------------------------------------------------------------- counting

  function EnqueueCalls<T>(steps: seq<Step<T>>): nat {
    if steps == [] then 0
    else (if steps[0].Enqueue? then 1 else 0) + EnqueueCalls(steps[1..])
  }

  function DequeueCalls<T>(steps: seq<Step<T>>): nat {
    if steps == [] then 0
    else (if steps[0].Dequeue? then 1 else 0) + DequeueCalls(steps[1..])
  }

  /** Items that went in and producers still inside their call. */
  function EnqueuesSeen<T>(m: State<T>): nat {
    |m.enqueued| + |m.producersAsleep| + |m.producersWoken|
  }

  function DequeuesSeen<T>(m: State<T>): nat {
    |m.dequeued| + |m.consumersAsleep| + |m.consumersWoken|
  }

  lemma Joins(threads: set<Thread>, t: Thread)
    requires t !in threads
    ensures |threads + {t}| == |threads| + 1
  {
  }

  lemma EnqueueSectionSees<T>(m: State<T>, t: Thread, x: T, woken: set<Thread>)
    requires Separate(m) && Outside(m, t) && woken <= m.consumersAsleep
    ensures var m' := EnqueueSection(m, t, x, woken);
      EnqueuesSeen(m') == EnqueuesSeen(m) + 1 && DequeuesSeen(m') == DequeuesSeen(m)
  {
    Joins(m.producersAsleep, t);
    WakingMoves(m.consumersAsleep, m.consumersWoken, woken);
  }

  lemma DequeueSectionSees<T>(m: State<T>, t: Thread, woken: set<Thread>)
    requires Separate(m) && Outside(m, t) && woken <= m.producersAsleep
    ensures var m' := DequeueSection(m, t, woken);
      DequeuesSeen(m') == DequeuesSeen(m) + 1 && EnqueuesSeen(m') == EnqueuesSeen(m)
  {
    Joins(m.consumersAsleep, t);
    WakingMoves(m.producersAsleep, m.producersWoken, woken);
  }

  lemma ProducerBackSees<T>(m: State<T>, t: Thread)
    requires Separate(m) && t in m.producersWoken
    ensures var m' := ProducerBack(m, t);
      && Separate(m') && Outside(m', t)
      && EnqueuesSeen(m') == EnqueuesSeen(m) - 1 && DequeuesSeen(m') == DequeuesSeen(m)
  {
    OneLess(m.producersWoken, t);
  }

  lemma ConsumerBackSees<T>(m: State<T>, t: Thread)
    requires Separate(m) && t in m.consumersWoken
    ensures var m' := ConsumerBack(m, t);
      && Separate(m') && Outside(m', t)
      && DequeuesSeen(m') == DequeuesSeen(m) - 1 && EnqueuesSeen(m') == EnqueuesSeen(m)
  {
    OneLess(m.consumersWoken, t);
  }

  lemma StepSees<T>(m: State<T>, step: Step<T>)
    requires Separate(m) && Enabled(m, step)
    ensures EnqueuesSeen(Apply(m, step)) == EnqueuesSeen(m) + if step.Enqueue? then 1 else 0
    ensures DequeuesSeen(Apply(m, step)) == DequeuesSeen(m) + if step.Dequeue? then 1 else 0
  {
    hide EnqueueSection;
    hide DequeueSection;
    match step
    case Enqueue(t, x, woken) => EnqueueSectionSees(m, t, x, woken);
    case Dequeue(t, woken) => DequeueSectionSees(m, t, woken);
    case ResumeEnqueue(t, woken) =>
      ProducerBackSees(m, t);
      EnqueueSectionSees(ProducerBack(m, t), t, m.items[t], woken);
    case ResumeDequeue(t, woken) =>
      ConsumerBackSees(m, t);
      DequeueSectionSees(ConsumerBack(m, t), t, woken);
    case SpuriousProducer(t) => WakingMoves(m.producersAsleep, m.producersWoken, {t});
    case SpuriousConsumer(t) => WakingMoves(m.consumersAsleep, m.consumersWoken, {t});
  }

  lemma {:induction false} CallsSeen<T>(m: State<T>, steps: seq<Step<T>>)
    requires Inv(m) && IsRun(m, steps)
    ensures EnqueuesSeen(Run(m, steps)) == EnqueuesSeen(m) + EnqueueCalls(steps)
    ensures DequeuesSeen(Run(m, steps)) == DequeuesSeen(m) + DequeueCalls(steps)
    decreases |steps|
  {
    if steps != [] {
      StepSees(m, steps[0]);
      StepKeepsInv(m, steps[0]);
      CallsSeen(Apply(m, steps[0]), steps[1..]);
    }
  }

  /** In every interleaving each call has either moved its item or is still inside. */
  lemma NoCallLost<T>(steps: seq<Step<T>>)
    requires IsRun(Init(), steps)
    ensures var m := Run(Init(), steps);
      && EnqueueCalls(steps) == |m.enqueued| + |m.producersAsleep| + |m.producersWoken|
      && DequeueCalls(steps) == |m.dequeued| + |m.consumersAsleep| + |m.consumersWoken|
  {
    CallsSeen(Init<T>(), steps);
  }

  // ------------------------------------------------------------------- items

  /** The items that the calls of one thread bring, in order. */
  function Brought<T>(steps: seq<Step<T>>, t: Thread): seq<T> {
    if steps == [] then [] else BroughtBy(steps[0], t) + Brought(steps[1..], t)
  }

  function BroughtBy<T>(step: Step<T>, t: Thread): seq<T> {
    if step.Enqueue? && step.thread == t then [step.item] else []
  }

  /** What is in `enqueued` after a step of this thread and was not before. */
  function PutInBy<T>(m: State<T>, step: Step<T>, t: Thread): seq<T>
    requires Enabled(m, step) && m.enqueued <= Apply(m, step).enqueued
  {
    if step.thread == t then Apply(m, step).enqueued[|m.enqueued|..] else []
  }

  lemma EnqueuedGrows<T>(m: State<T>, step: Step<T>)
    requires Enabled(m, step)
    ensures m.enqueued <= Apply(m, step).enqueued
    ensures Apply(m, step).enqueued == m.enqueued + PutInBy(m, step, step.thread)
  {
  }

  function PutIn<T>(m: State<T>, steps: seq<Step<T>>, t: Thread): seq<T>
    requires IsRun(m, steps)
    decreases |steps|
  {
    if steps == [] then []
    else
      EnqueuedGrows(m, steps[0]);
      PutInBy(m, steps[0], t) + PutIn(Apply(m, steps[0]), steps[1..], t)
  }

  /** The item a blocked producer is waiting to put in. */
  function Waiting<T>(m: State<T>, t: Thread): seq<T> {
    if t in m.items then [m.items[t]] else []
  }

  lemma StepKeepsItem<T>(m: State<T>, step: Step<T>, t: Thread)
    requires Inv(m) && Enabled(m, step)
    ensures m.enqueued <= Apply(m, step).enqueued
    ensures Waiting(m, t) + BroughtBy(step, t) == PutInBy(m, step, t) + Waiting(Apply(m, step), t)
  {
    EnqueuedGrows(m, step);
  }

  lemma {:induction false} ItemsKept<T>(m: State<T>, steps: seq<Step<T>>, t: Thread)
    requires Inv(m) && IsRun(m, steps)
    ensures Waiting(m, t) + Brought(steps, t) == PutIn(m, steps, t) + Waiting(Run(m, steps), t)
    decreases |steps|
  {
    if steps != [] {
      var m', rest := Apply(m, steps[0]), steps[1..];
      EnqueuedGrows(m, steps[0]);
      StepKeepsItem(m, steps[0], t);
      StepKeepsInv(m, steps[0]);
      ItemsKept(m', rest, t);
      Regroup(Waiting(m, t), BroughtBy(steps[0], t), PutInBy(m, steps[0], t), Waiting(m', t),
              Brought(rest, t), PutIn(m', rest, t), Waiting(Run(m', rest), t));
    }
  }

  lemma Regroup<T>(w: seq<T>, b: seq<T>, p: seq<T>, w1: seq<T>, bs: seq<T>, ps: seq<T>, w2: seq<T>)
    requires w + b == p + w1 && w1 + bs == ps + w2
    ensures w + (b + bs) == p + ps + w2
  {
    assert w + (b + bs) == (w + b) + bs;
    assert p + (w1 + bs) == p + w1 + bs;
  }

  /** In every interleaving the items a thread brings go in one after the other,
      and the one that is not in yet is the one the thread still waits with. */
  lemma EveryItemGoesIn<T>(steps: seq<Step<T>>, t: Thread)
    requires IsRun(Init(), steps)
    ensures Brought(steps, t) == PutIn(Init(), steps, t) + Waiting(Run(Init(), steps), t)
  {
    ItemsKept(Init<T>(), steps, t);
    assert Waiting(Init<T>(), t) == [];
    assert [] + Brought(steps, t) == Brought(steps, t);
  }
}
